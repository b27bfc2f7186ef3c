/** What the calculator reads of a number: p_number of apps/calc.c, lines 456-484. */
module CalcNumerals {
  import opened Common
  import opened Division
  import opened CalcParse

  /** n holds the digits s, of which `frac` came after the point: the first nine significant ones
      exactly, and the rest counted. */
  ghost predicate Holds(n: Scan, s: string, frac: nat, lost: nat)
    requires AllDigits(s)
  {
    n.mant == Value(s) / Pow10(lost) && n.dexp == lost - frac && n.mant < Pow10(n.nd) && n.nd <= 9
    && (lost > 0 ==> n.nd == 9) && (n.nd > 0 ==> n.mant >= Pow10(n.nd - 1)) && (n.nd == 0 ==> n.mant == 0)
  }

  lemma DropDigit(v: nat, d: nat, p: nat)
    requires d < 10 && p > 0
    ensures (v * 10 + d) / (10 * p) == v / p
  {
    var q, r := v / p, v % p;
    assert v == p * q + r;
    assert v * 10 + d == (10 * p) * q + (10 * r + d);
    assert 10 * r + d < 10 * p;
    DivUnique(v * 10 + d, 10 * p, q, 10 * r + d);
  }

  lemma ScanKeepsNine(n: Scan, s: string, frac: nat, lost: nat, d: char)
    requires AllDigits(s) && IsDigit(d) && Holds(n, s, frac, lost)
    ensures AllDigits(s + [d])
    ensures Holds(ScanDigit(n, d), s + [d], if n.dot then frac + 1 else frac, if n.nd == 9 then lost + 1 else lost)
  {
    var t := s + [d];
    assert t[..|s|] == s && Value(t) == Value(s) * 10 + DigitVal(d);
    if n.nd == 9 {
      DropDigit(Value(s), DigitVal(d), Pow10(lost));
    } else {
      assert lost == 0 && n.mant == Value(s);
      assert Pow10(n.nd + 1) == 10 * Pow10(n.nd);
    }
  }

  /** The text of a run of digits with a point after the first `whole` of them. */
  function Pointed(s: string, whole: nat): string
    requires whole <= |s|
  {
    s[..whole] + "." + s[whole..]
  }

  lemma {:induction false} ScanRun(s: string, t: string, n: Scan, done: string, frac: nat, lost: nat)
    returns (m: Scan, lost': nat)
    requires AllDigits(s) && AllDigits(done) && Holds(n, done, frac, lost)
    ensures AllDigits(done + s)
    ensures ScanDigits(s + t, n) == ScanDigits(t, m) && m.dot == n.dot && (m.any <==> n.any || s != "")
    ensures Holds(m, done + s, if n.dot then frac + |s| else frac, lost')
    decreases |s|
  {
    if s == "" {
      assert s + t == t && done + s == done;
      return n, lost;
    }
    assert (s + t)[1..] == s[1..] + t && (done + [s[0]]) + s[1..] == done + s;
    ScanKeepsNine(n, done, frac, lost, s[0]);
    m, lost' := ScanRun(s[1..], t, ScanDigit(n, s[0]), done + [s[0]], if n.dot then frac + 1 else frac,
                        if n.nd == 9 then lost + 1 else lost);
  }

  /** The digits s, with or without a point after the first `whole` of them. */
  function Body(s: string, whole: nat, point: bool): string
    requires whole <= |s|
  {
    if point then Pointed(s, whole) else s
  }

  datatype Exponent = NoExponent | Exponent(mark: char, sign: string, digits: string)

  predicate IsExponent(x: Exponent) {
    x.Exponent? ==>
      (x.mark == 'e' || x.mark == 'E') && (x.sign == "" || x.sign == "+" || x.sign == "-")
      && AllDigits(x.digits) && x.digits != ""
  }

  function ExponentText(x: Exponent): string {
    match x
    case NoExponent => ""
    case Exponent(mark, sign, digits) => [mark] + (sign + digits)
  }

  lemma StopsScan(q: string, n: Scan)
    requires !IsDigit(Head(q)) && Head(q) != '.'
    ensures ScanDigits(q, n) == (n, q)
  {
  }

  lemma NothingScanned(start: Scan)
    requires start == Scan(0, 0, 0, false, false)
    ensures AllDigits("") && Holds(start, "", 0, 0)
  {
  }

  lemma PointScanned(m: Scan, a: string, b: string, k: nat)
    requires AllDigits(a) && Holds(m, a, 0, k) && !m.dot
    ensures ScanDigits("." + b, m) == ScanDigits(b, m.(dot := true)) && Holds(m.(dot := true), a, 0, k)
  {
    assert ("." + b)[1..] == b;
  }

  lemma ScanBody(s: string, whole: nat, point: bool, q: string) returns (p: Scan, lost: nat)
    requires AllDigits(s) && whole <= |s| && s != "" && (point || whole == |s|) && !IsDigit(Head(q)) && Head(q) != '.'
    ensures ScanDigits(Body(s, whole, point) + q, Scan(0, 0, 0, false, false)) == (p, q)
    ensures p.any && Holds(p, s, |s| - whole, lost)
  {
    hide ScanDigits, Holds;
    var a, b := s[..whole], s[whole..];
    var start := Scan(0, 0, 0, false, false);
    NothingScanned(start);
    assert "" + a == a && a + b == s;
    if point {
      var m, k := ScanRun(a, "." + (b + q), start, "", 0, 0);
      assert Pointed(s, whole) + q == a + ("." + (b + q));
      PointScanned(m, a, b + q, k);
      p, lost := ScanRun(b, q, m.(dot := true), a, 0, k);
    } else {
      assert a == s;
      p, lost := ScanRun(s, q, start, "", 0, 0);
    }
    StopsScan(q, p);
  }

  /** How the digits of an exponent are read: up to four of them whole, and of more the fact. */
  predicate Read(power: nat, digits: string)
    requires AllDigits(digits)
  {
    if Value(digits) < 10_000 then power == Value(digits) else 1000 <= power < 10_000
  }

  lemma {:induction false} ExponentRead(done: string, d: string, x: nat)
    requires AllDigits(done) && AllDigits(d) && Read(x, done)
    ensures AllDigits(done + d) && ScanExp(d, x).1 == "" && Read(ScanExp(d, x).0, done + d)
    decreases |d|
  {
    if d == "" {
      assert done + d == done;
    } else {
      var more := done + [d[0]];
      assert more[..|done|] == done;
      assert more + d[1..] == done + d;
      ExponentRead(more, d[1..], if x < 1000 then x * 10 + DigitVal(d[0]) else x);
    }
  }

  /** The exponent after the digits. */
  lemma ExponentFollows(x: Exponent)
    requires IsExponent(x) && x.Exponent?
    ensures var q := ExponentText(x);
      HasExp(q) && |q| >= 2 && (x.sign == "" <==> q[1] != '-' && q[1] != '+') && (x.sign == "-" <==> q[1] == '-')
      && (if x.sign == "" then q[1..] else q[2..]) == x.digits
      && !IsDigit(Head(q)) && Head(q) != '.'
  {
    var q := ExponentText(x);
    assert q[1..] == x.sign + x.digits;
    if x.sign == "" { assert x.sign + x.digits == x.digits; } else { assert q[2..] == x.digits; }
  }

  /** A decimal of any length, with a point or without and an exponent or none, is read whole: its
      mantissa is its digits without those past the ninth significant one, and the power of ten makes
      up for them, for the point and for the exponent. */
  lemma NumeralKeepsNine(s: string, whole: nat, point: bool, x: Exponent) returns (lost: nat, power: nat)
    requires AllDigits(s) && whole <= |s| && s != "" && (point || whole == |s|) && IsExponent(x)
    ensures if x.Exponent? then Read(power, x.digits) else power == 0
    ensures var n := Numeral(Body(s, whole, point) + ExponentText(x));
      n.Some? && n.value.2 == ""
      && n.value.0 == Value(s) / Pow10(lost)
      && n.value.1 == lost - (|s| - whole) + power * (if x.Exponent? && x.sign == "-" then -1 else 1)
      && n.value.0 < Pow10(9)
      && (lost > 0 ==> n.value.0 >= Pow10(8))
  {
    hide ScanDigits, ScanExp, Body, ExponentText, Value, Pow10, HasExp;
    var q := ExponentText(x);
    power := 0;
    if x.Exponent? {
      ExponentFollows(x);
      NoDigits();
      ExponentRead("", x.digits, 0);
      assert "" + x.digits == x.digits;
      power := ScanExp(x.digits, 0).0;
    } else {
      NoExponentText();
    }
    var p: Scan;
    p, lost := ScanBody(s, whole, point, q);
    Pow10Grows(p.nd, 9);
  }

  lemma NoDigits()
    ensures AllDigits("") && Read(0, "")
  {
  }

  lemma NoExponentText()
    ensures ExponentText(NoExponent) == "" && !HasExp("")
  {
  }
}
