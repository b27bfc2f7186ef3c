/** What the parser accepts, exactly: every line it takes is the text of a tree, read as that tree
    (apps/calc.c, lines 433-646). */
module CalcGrammar {
  import opened Common
  import opened CalcLang
  import opened CalcParse
  import opened CalcTrees
  import opened CalcText
  import opened CalcCompile

  // ---- blanks before a text ------------------------------------------------------------------

  /** The text with k blanks more before its first token. */
  function Pad(t: Text, k: nat): Text {
    match t
    case Atomic(g, tok, l) => Atomic(k + g, tok, l)
    case Call(g, name, n, g1, a, g2) => Call(k + g, name, n, g1, a, g2)
    case Curve(g, y, n, a, g2) => Curve(k + g, y, n, a, g2)
    case Group(g, a, g2) => Group(k + g, a, g2)
    case Signed(g, minus, a) => Signed(k + g, minus, a)
    case Bang(a, g) => Bang(Pad(a, k), g)
    case Infix(o, a, g, b) => Infix(o, Pad(a, k), g, b)
    case Beside(a, b) => Beside(Pad(a, k), b)
  }

  lemma {:induction false} GapGap(k: nat, g: nat, s: string)
    ensures Gap(k, Gap(g, s)) == Gap(k + g, s)
    decreases k
  {
    if k > 0 { GapGap(k - 1, g, s); }
  }

  lemma {:induction false} PadPut(t: Text, k: nat, rest: string)
    ensures Put(Pad(t, k), rest) == Gap(k, Put(t, rest))
    decreases t
  {
    match t
    case Atomic(g, tok, _) => GapGap(k, g, tok + rest);
    case Call(g, name, _, g1, a, g2) => GapGap(k, g, name + Gap(g1, "(" + Put(a, Gap(g2, ")" + rest))));
    case Curve(g, y, n, a, g2) => GapGap(k, g, [y] + ([GraphDigit(n)] + ("(" + Put(a, Gap(g2, ")" + rest)))));
    case Group(g, a, g2) => GapGap(k, g, "(" + Put(a, Gap(g2, ")" + rest)));
    case Signed(g, minus, a) => GapGap(k, g, (if minus then "-" else "+") + Put(a, rest));
    case Bang(a, g) => PadPut(a, k, Gap(g, "!" + rest));
    case Infix(o, a, g, b) => PadPut(a, k, Gap(g, Sign(o) + Put(b, rest)));
    case Beside(a, b) => PadPut(a, k, Put(b, rest));
  }

  lemma {:induction false} PadKeeps(t: Text, k: nat, rest: string)
    ensures Level(Pad(t, k)) == Level(t) && Tree(Pad(t, k)) == Tree(t) && OpensFactor(Pad(t, k)) == OpensFactor(t)
    ensures Grammatical(Pad(t, k)) == Grammatical(t) && Split(Pad(t, k), rest) == Split(t, rest)
    decreases t
  {
    match t
    case Bang(a, g) => PadKeeps(a, k, Gap(g, "!" + rest));
    case Infix(o, a, g, b) => PadKeeps(a, k, Gap(g, Sign(o) + Put(b, rest)));
    case Beside(a, b) => PadKeeps(a, k, Put(b, rest));
    case _ =>
  }

  lemma {:induction false} TrimLeaves(s: string) returns (k: nat)
    ensures s == Gap(k, Trim(s))
  {
    if s != "" && s[0] == ' ' {
      k := TrimLeaves(s[1..]);
      k := k + 1;
    } else {
      k := 0;
    }
  }

  // ---- literals ------------------------------------------------------------------------------

  /** What a scan reads, and what it stops at: neither a digit nor, unless it has had one, a point. */
  lemma {:induction false} DigitsSplit(t: string, n: Scan) returns (p: string)
    ensures var (m, left) := ScanDigits(t, n);
      t == p + left && !IsDigit(Head(left)) && (Head(left) == '.' ==> m.dot)
  {
    hide ScanDigit;
    if IsDigit(Head(t)) || (Head(t) == '.' && !n.dot) {
      p := DigitsSplit(t[1..], if IsDigit(Head(t)) then ScanDigit(n, t[0]) else n.(dot := true));
      p := [t[0]] + p;
    } else {
      p := "";
    }
  }

  /** The same is read before anything else it would stop at. */
  lemma {:induction false} DigitsBefore(t: string, n: Scan, p: string, q: string)
    requires t == p + ScanDigits(t, n).1 && !IsDigit(Head(q)) && (Head(q) == '.' ==> ScanDigits(t, n).0.dot)
    ensures ScanDigits(p + q, n) == (ScanDigits(t, n).0, q)
    decreases |t|
  {
    hide ScanDigit;
    if IsDigit(Head(t)) || (Head(t) == '.' && !n.dot) {
      assert p != "" && p[0] == t[0];
      assert t[1..] == p[1..] + ScanDigits(t, n).1 && (p + q)[1..] == p[1..] + q;
      DigitsBefore(t[1..], if IsDigit(Head(t)) then ScanDigit(n, t[0]) else n.(dot := true), p[1..], q);
    } else {
      assert p == "" && p + q == q;
    }
  }

  lemma {:induction false} ExpSplit(t: string, x: nat) returns (p: string)
    ensures var (y, left) := ScanExp(t, x);
      t == p + left && (IsDigit(Head(t)) ==> p != "" && p[0] == t[0]) && ScanExp(p, x) == (y, "")
  {
    if IsDigit(Head(t)) {
      var p1 := ExpSplit(t[1..], if x < 1000 then x * 10 + DigitVal(t[0]) else x);
      p := [t[0]] + p1;
      assert p[1..] == p1;
    } else {
      p := "";
    }
  }

  /** The literal that a number is read as. */
  lemma LiteralSplit(t: string) returns (tok: string)
    requires Numeral(t).Some?
    ensures t == tok + Numeral(t).value.2 && IsLiteral(tok, Numeral(t).value.2)
  {
    hide ScanDigits, ScanExp;
    var start := Scan(0, 0, 0, false, false);
    var p := DigitsSplit(t, start);
    var (m, left) := ScanDigits(t, start);
    if HasExp(left) {
      var signed := left[1] == '-' || left[1] == '+';
      var tail := if signed then left[2..] else left[1..];
      var d := ExpSplit(tail, 0);
      var head := if signed then left[..2] else left[..1];
      tok := p + (head + d);
      var q := head + d;
      assert left == head + tail;
      assert t == tok + ScanExp(tail, 0).1;
      ExpOf(left, head, tail, d);
      DigitsBefore(t, start, p, q);
    } else {
      tok := p;
      assert p + "" == p;
      DigitsBefore(t, start, p, "");
    }
  }

  /** The exponent with nothing after it. */
  lemma ExpOf(left: string, head: string, tail: string, d: string)
    requires HasExp(left) && left == head + tail
    requires |head| == if left[1] == '-' || left[1] == '+' then 2 else 1
    requires d != "" && tail != "" && d[0] == tail[0]
    ensures var q := head + d;
      HasExp(q) && q[0] == left[0] && |q| >= 2 && (|head| == 2 ==> q[1] == left[1] && q[2..] == d)
      && (|head| == 1 ==> q[1] == d[0] && q[1..] == d && d[0] == left[1])
  {
    var q := head + d;
    assert q[..|head|] == head && q[|head|..] == d;
    assert left[..|head|] == head;
    if |head| == 2 {
      assert q[1..][0] == q[1] && left[1..][0] == left[1] && left[2..][0] == tail[0] && q[2..][0] == d[0];
    } else {
      assert q[1..][0] == d[0] && left[1..][0] == tail[0];
    }
  }

  // ---- what the parser has read --------------------------------------------------------------

  /** From st to r the parser has read the text t, and g blanks after it, as t's tree. */
  ghost predicate Got<F>(c: Ctx<F>, st: PS<F>, r: PS<F>, t: Text, g: nat, lvl: nat) {
    st.rest == Put(t, Gap(g, r.rest)) && TextOk(c, t, Gap(g, r.rest)) && Level(t) >= lvl
    && r == Do(c, st, Tree(t)).(rest := r.rest)
  }

  /** More blanks read. */
  lemma GotBlanks<F>(c: Ctx<F>, st: PS<F>, r: PS<F>, t: Text, g: nat, lvl: nat) returns (k: nat)
    requires Got(c, st, r, t, g, lvl)
    ensures Got(c, st, r.(rest := Trim(r.rest)), t, k, lvl)
    ensures Gap(g, r.rest) == Gap(k, Trim(r.rest))
  {
    hide Do, Put, TextOk, Trim;
    var j := TrimLeaves(r.rest);
    GapGap(g, j, Trim(r.rest));
    k := g + j;
  }

  /** Two operands read one after the other, and the instruction that joins them. */
  lemma JoinBin<F>(c: Ctx<F>, st: PS<F>, q: PS<F>, s: PS<F>, u: string, o: BinOp, a: Expr, b: Expr)
    requires q == Do(c, st, a).(rest := q.rest) && s == Do(c, q.(rest := u), b).(rest := s.rest)
    ensures DoBin(s, o) == Do(c, st, Bin(o, a, b)).(rest := s.rest)
  {
    hide Do, Emit;
    var d := Do(c, st, a);
    DoAnywhere(c, d, u, b);
    DoOfBin(c, st, o, a, b);
    EmitAnywhere(Do(c, d, b), s.rest, BinInstr(o).op, BinInstr(o).arg, -1);
    assert s == Do(c, d, b).(rest := s.rest);
  }

  lemma JoinUn<F>(c: Ctx<F>, st: PS<F>, s: PS<F>, u: string, n: UnOp, a: Expr)
    requires s == Do(c, st.(rest := u), a).(rest := s.rest)
    ensures DoUn(s, n) == Do(c, st, Un(n, a)).(rest := s.rest)
  {
    hide Do, Emit;
    DoAnywhere(c, st, u, a);
    DoOfUn(c, st, n, a);
    EmitAnywhere(Do(c, st, a), s.rest, UnInstr(n).op, UnInstr(n).arg, 0);
    assert s == Do(c, st, a).(rest := s.rest);
  }

  lemma GotInfix<F>(c: Ctx<F>, st: PS<F>, q: PS<F>, s: PS<F>, o: BinOp, a: Text, g: nat, b: Text, gb: nat, u: string)
    requires Got(c, st, q, a, g, LeftLevel(o)) && q.rest == Sign(o) + u
    requires Got(c, q.(rest := u), s, b, gb, RightLevel(o))
    ensures Got(c, st, DoBin(s, o), Infix(o, a, g, b), gb, Level(Infix(o, a, g, b)))
  {
    hide Do, Gap, Split, Grammatical, Emit, Put, Sayable;
    JoinBin(c, st, q, s, u, o, Tree(a), Tree(b));
    KeepsRest(s, BinInstr(o).op, BinInstr(o).arg, -1);
    InfixPut(o, a, g, b, Gap(gb, s.rest));
    InfixOk(c, o, a, g, b, Gap(gb, s.rest));
  }

  lemma InfixPut(o: BinOp, a: Text, g: nat, b: Text, rest: string)
    ensures Put(Infix(o, a, g, b), rest) == Put(a, Gap(g, Sign(o) + Put(b, rest)))
  {
    hide Sign, Gap;
  }

  lemma InfixOk<F>(c: Ctx<F>, o: BinOp, a: Text, g: nat, b: Text, rest: string)
    requires TextOk(c, a, Gap(g, Sign(o) + Put(b, rest))) && TextOk(c, b, rest)
    requires Level(a) >= LeftLevel(o) && Level(b) >= RightLevel(o)
    ensures TextOk(c, Infix(o, a, g, b), rest)
  {
    hide Gap, IsAtom, IsWord, Put, AtomOk, UnOk;
  }

  lemma GotBeside<F>(c: Ctx<F>, st: PS<F>, q: PS<F>, s: PS<F>, a: Text, g: nat, b: Text, gb: nat)
    requires Got(c, st, q, a, g, 1) && Got(c, q, s, b, gb, 3) && (IsAlpha(Head(q.rest)) || Head(q.rest) == '(')
    ensures Got(c, st, DoBin(s, Mul), Beside(a, Pad(b, g)), gb, 1)
  {
    hide Do, Gap, Split, Grammatical, Emit, Put, Sayable, Trim, OpensFactor;
    var rest := Gap(gb, s.rest);
    FirstToken(b, rest);
    TrimOf(q.rest);
    assert q.(rest := q.rest) == q;
    JoinBin(c, st, q, s, q.rest, Mul, Tree(a), Tree(b));
    KeepsRest(s, OpMul, 0, -1);
    PadPut(b, g, rest);
    PadKeeps(b, g, rest);
    BesideOk(c, a, Pad(b, g), rest);
  }

  lemma BesideOk<F>(c: Ctx<F>, a: Text, b: Text, rest: string)
    requires TextOk(c, a, Put(b, rest)) && TextOk(c, b, rest)
    requires Level(a) >= 1 && Level(b) >= 3 && OpensFactor(b)
    ensures TextOk(c, Beside(a, b), rest) && Put(Beside(a, b), rest) == Put(a, Put(b, rest))
  {
    hide Gap, IsAtom, IsWord, AtomOk, UnOk;
  }

  // ---- level by level --------------------------------------------------------------------------

  lemma ExprGot<F>(c: Ctx<F>, st: PS<F>) returns (t: Text, g: nat)
    requires Good(c, st) && PExpr(c, st).err.None?
    ensures Got(c, st, PExpr(c, st), t, g, 0)
    decreases |st.rest|, 6
  {
    hide Good, PExpr, PTerm, ExprRest, Got;
    ExprIs(c, st);
    var q := PTerm(c, st);
    RestErrs(c, st.depth, q);
    t, g := TermGot(c, st);
    GotLooser(c, st, q, t, g, 1, 0);
    t, g := ExprRestGot(c, st, q, t, g);
  }

  lemma GotLooser<F>(c: Ctx<F>, st: PS<F>, r: PS<F>, t: Text, g: nat, hi: nat, lo: nat)
    requires Got(c, st, r, t, g, hi) && lo <= hi
    ensures Got(c, st, r, t, g, lo)
  {
  }

  /** The loops pass an error on. */
  lemma RestErrs<F>(c: Ctx<F>, d: int, q: PS<F>)
    ensures q.err.Some? ==> ExprRest(c, d, q) == q && TermRest(c, d, q) == q && Bangs(c, q) == q
  {
  }

  lemma ExprRestGot<F>(c: Ctx<F>, st: PS<F>, q: PS<F>, t0: Text, g0: nat) returns (t: Text, g: nat)
    requires Good(c, st) && Good(c, q) && q.depth == st.depth + 1 && |q.rest| < |st.rest| && Got(c, st, q, t0, g0, 0)
    requires ExprRest(c, st.depth, q).err.None?
    ensures Got(c, st, ExprRest(c, st.depth, q), t, g, 0)
    decreases |q.rest|, 0
  {
    hide Good, PTerm, ExprRest, Got, Trim, Emit;
    GoodDepth(c, st);
    var k := GotBlanks(c, st, q, t0, g0, 0);
    var u := Trim(q.rest);
    var at := q.(rest := u);
    if Head(u) != '+' && Head(u) != '-' {
      ExprRestEnds(c, st.depth, q);
      t, g := t0, k;
    } else {
      var o := if Head(u) == '+' then Add else Sub;
      assert u == Sign(o) + u[1..];
      ExprRestSign(c, st.depth, q, o, u[1..]);
      var after := q.(rest := u[1..]);
      GoodRest(c, q, u[1..]);
      var s := PTerm(c, after);
      RestErrs(c, st.depth, s);
      var b, gb := TermGot(c, after);
      GotInfix(c, st, at, s, o, t0, k, b, gb, u[1..]);
      var s2 := DoBin(s, o);
      KeepsRest(s, BinInstr(o).op, BinInstr(o).arg, -1);
      RestErrs(c, st.depth, s2);
      t, g := ExprRestGot(c, st, s2, Infix(o, t0, k, b), gb);
    }
  }

  lemma ExprRestEnds<F>(c: Ctx<F>, d: int, q: PS<F>)
    requires Usable(c, q, d) && q.err.None? && Head(Trim(q.rest)) != '+' && Head(Trim(q.rest)) != '-'
    ensures ExprRest(c, d, q) == q.(rest := Trim(q.rest))
  {
    hide Good, PTerm, Trim;
  }

  lemma TermGot<F>(c: Ctx<F>, st: PS<F>) returns (t: Text, g: nat)
    requires Good(c, st) && PTerm(c, st).err.None?
    ensures Got(c, st, PTerm(c, st), t, g, 1)
    decreases |st.rest|, 5
  {
    hide Good, PTerm, PUnary, TermRest, Got;
    TermIs(c, st);
    var q := PUnary(c, st);
    RestErrs(c, st.depth, q);
    t, g := UnaryGot(c, st);
    GotLooser(c, st, q, t, g, 2, 1);
    t, g := TermRestGot(c, st, q, t, g);
  }

  lemma TermRestGot<F>(c: Ctx<F>, st: PS<F>, q: PS<F>, t0: Text, g0: nat) returns (t: Text, g: nat)
    requires Good(c, st) && Good(c, q) && q.depth == st.depth + 1 && |q.rest| < |st.rest| && Got(c, st, q, t0, g0, 1)
    requires TermRest(c, st.depth, q).err.None?
    ensures Got(c, st, TermRest(c, st.depth, q), t, g, 1)
    decreases |q.rest|, 4
  {
    hide Good, PUnary, PPower, TermRest, Got, Trim, Emit;
    GoodDepth(c, st);
    var k := GotBlanks(c, st, q, t0, g0, 1);
    var u := Trim(q.rest);
    var at := q.(rest := u);
    if Head(u) == '*' || Head(u) == '/' {
      var o := if Head(u) == '*' then Mul else Div;
      assert u == Sign(o) + u[1..];
      TermRestSign(c, st.depth, q, o, u[1..]);
      var after := q.(rest := u[1..]);
      GoodRest(c, q, u[1..]);
      var s := PUnary(c, after);
      RestErrs(c, st.depth, s);
      var b, gb := UnaryGot(c, after);
      GotInfix(c, st, at, s, o, t0, k, b, gb, u[1..]);
      KeepsRest(s, BinInstr(o).op, BinInstr(o).arg, -1);
      RestErrs(c, st.depth, DoBin(s, o));
      t, g := TermRestGot(c, st, DoBin(s, o), Infix(o, t0, k, b), gb);
    } else if IsAlpha(Head(u)) || Head(u) == '(' {
      TermRestFactor(c, st.depth, q, u);
      GoodRest(c, q, u);
      var s := PPower(c, at);
      RestErrs(c, st.depth, s);
      var b, gb := PowerGot(c, at);
      GotBeside(c, st, at, s, t0, k, b, gb);
      KeepsRest(s, OpMul, 0, -1);
      RestErrs(c, st.depth, DoBin(s, Mul));
      t, g := TermRestGot(c, st, DoBin(s, Mul), Beside(t0, Pad(b, k)), gb);
    } else {
      TermRestEnds(c, st.depth, q);
      t, g := t0, k;
    }
  }

  lemma TermRestEnds<F>(c: Ctx<F>, d: int, q: PS<F>)
    requires Usable(c, q, d) && q.err.None? && TermRest(c, d, q).err.None?
    requires var h := Head(Trim(q.rest)); h != '*' && h != '/' && !IsAlpha(h) && h != '('
    ensures TermRest(c, d, q) == q.(rest := Trim(q.rest))
  {
    hide Good, PUnary, PPower, Trim;
  }

  lemma UnaryGot<F>(c: Ctx<F>, st: PS<F>) returns (t: Text, g: nat)
    requires Good(c, st) && PUnary(c, st).err.None?
    ensures Got(c, st, PUnary(c, st), t, g, 2)
    decreases |st.rest|, 3
  {
    hide Good, PUnary, PPower, Got, Trim, Emit;
    var u := Trim(st.rest);
    UnaryIs(c, st);
    if Head(u) == '-' || Head(u) == '+' {
      var after := st.(rest := u[1..]);
      var a, ga := UnaryGot(c, after);
      var k := TrimLeaves(st.rest);
      assert u == (if Head(u) == '-' then "-" else "+") + u[1..];
      GotSigned(c, st, PUnary(c, after), k, Head(u) == '-', a, ga, u[1..]);
      t, g := Signed(k, Head(u) == '-', a), ga;
    } else {
      var p, gp := PowerGot(c, st.(rest := u));
      t, g := GotPadded(c, st, PPower(c, st.(rest := u)), p, gp, 3);
      GotLooser(c, st, PUnary(c, st), t, g, 3, 2);
    }
  }

  lemma UnaryIs<F>(c: Ctx<F>, st: PS<F>)
    requires Good(c, st)
    ensures var u := Trim(st.rest);
      Good(c, st.(rest := u)) && (u != "" ==> Good(c, st.(rest := u[1..])))
      && (Head(u) == '-' ==>
            var s := PUnary(c, st.(rest := u[1..])); PUnary(c, st) == if s.err.Some? then s else DoUn(s, Neg))
      && (Head(u) == '+' ==> PUnary(c, st) == PUnary(c, st.(rest := u[1..])))
      && (Head(u) != '-' && Head(u) != '+' ==> PUnary(c, st) == PPower(c, st.(rest := u)))
  {
    hide Good, PPower, Trim, Emit;
    var u := Trim(st.rest);
    GoodRest(c, st, u);
    if u != "" { GoodRest(c, st, u[1..]); }
  }

  lemma SignedOk<F>(c: Ctx<F>, k: nat, minus: bool, a: Text, rest: string)
    requires TextOk(c, a, rest) && Level(a) >= 2
    ensures TextOk(c, Signed(k, minus, a), rest)
  {
  }

  lemma GotSigned<F>(c: Ctx<F>, st: PS<F>, s: PS<F>, k: nat, minus: bool, a: Text, g: nat, u: string)
    requires Got(c, st.(rest := u), s, a, g, 2) && st.rest == Gap(k, (if minus then "-" else "+") + u)
    ensures Got(c, st, if minus then DoUn(s, Neg) else s, Signed(k, minus, a), g, 2)
  {
    hide Do, Gap, Split, Grammatical, Emit, Sayable;
    var t, rest := Signed(k, minus, a), Gap(g, s.rest);
    SignedOk(c, k, minus, a, rest);
    if minus {
      JoinUn(c, st, s, u, Neg, Tree(a));
      KeepsRest(s, OpNeg, 0, 0);
    } else {
      DoAnywhere(c, st, u, Tree(a));
    }
  }

  /** The same, read from the blanks before it. */
  lemma GotPadded<F>(c: Ctx<F>, st: PS<F>, r: PS<F>, t: Text, g: nat, lvl: nat) returns (p: Text, gp: nat)
    requires Got(c, st.(rest := Trim(st.rest)), r, t, g, lvl)
    ensures Got(c, st, r, p, gp, lvl)
  {
    hide Do, Gap, Split, Grammatical, Put, Sayable, Trim;
    var k := TrimLeaves(st.rest);
    p, gp := Pad(t, k), g;
    PadPut(t, k, Gap(g, r.rest));
    PadKeeps(t, k, Gap(g, r.rest));
    DoAnywhere(c, st, Trim(st.rest), Tree(t));
  }

  lemma PowerGot<F>(c: Ctx<F>, st: PS<F>) returns (t: Text, g: nat)
    requires Good(c, st) && PPower(c, st).err.None?
    ensures Got(c, st, PPower(c, st), t, g, 3)
    decreases |st.rest|, 2
  {
    hide Good, PPrimary, Bangs, PUnary, Got, Trim, Emit, DoBin, BinInstr, PPower;
    GoodDepth(c, st);
    PowerIs(c, st);
    var q := PPrimary(c, st);
    RestErrs(c, st.depth, q);
    var t0, g0 := PrimaryGot(c, st);
    GotLooser(c, st, q, t0, g0, 5, 4);
    t0, g0 := BangsGot(c, st, q, t0, g0);
    var b := Bangs(c, q);
    var u := b.rest;
    if Head(u) != '^' {
      GotLooser(c, st, b, t0, g0, 4, 3);
      t, g := t0, g0;
    } else {
      assert u == Sign(Pow) + u[1..];
      var after := b.(rest := u[1..]);
      var e, ge := UnaryGot(c, after);
      GotInfix(c, st, b, PUnary(c, after), Pow, t0, g0, e, ge, u[1..]);
      t, g := Infix(Pow, t0, g0, e), ge;
    }
  }

  lemma PowerIs<F>(c: Ctx<F>, st: PS<F>)
    requires Good(c, st)
    ensures var b := Bangs(c, PPrimary(c, st));
      (b.err.Some? ==> PPower(c, st) == b)
      && (b.err.None? && Head(b.rest) != '^' ==> PPower(c, st) == b)
      && (b.err.None? && Head(b.rest) == '^' ==>
            Good(c, b.(rest := b.rest[1..]))
            && var s := PUnary(c, b.(rest := b.rest[1..])); PPower(c, st) == if s.err.Some? then s else DoBin(s, Pow))
  {
    hide Good, PPrimary, Trim, Emit, PUnary, Bangs, BinInstr;
    GoodDepth(c, st);
    var q := PPrimary(c, st);
    var b := Bangs(c, q);
    if b.err.None? {
      BangsTrim(c, q);
      TrimOf(b.rest);
      assert b.(rest := b.rest) == b;
      if Head(b.rest) == '^' { GoodRest(c, b, b.rest[1..]); }
      PowInstr();
    }
  }

  /** The loop over the factorials ends at a token. */
  lemma {:induction false} BangsTrim<F>(c: Ctx<F>, q: PS<F>)
    requires q.err.None? ==> Good(c, q) && q.depth >= 1
    requires Bangs(c, q).err.None?
    ensures Head(Bangs(c, q).rest) != ' ' && Head(Bangs(c, q).rest) != '!'
    decreases |q.rest|
  {
    hide Good, Trim, Emit;
    var u := Trim(q.rest);
    if q.err.None? && Head(u) == '!' {
      var at := q.(rest := u[1..]);
      GoodRest(c, q, u[1..]);
      EmitBang(c, at);
      BangsTrim(c, Emit(at, OpFact, 0, 0));
    }
  }

  lemma EmitBang<F>(c: Ctx<F>, at: PS<F>)
    requires Good(c, at) && at.depth >= 1
    ensures var r := Emit(at, OpFact, 0, 0);
      r.rest == at.rest && (r.err.None? ==> Good(c, r) && r.depth == at.depth)
  {
    EmitGood(c, at, OpFact, 0);
  }

  lemma BangsGot<F>(c: Ctx<F>, st: PS<F>, q: PS<F>, t0: Text, g0: nat) returns (t: Text, g: nat)
    requires Good(c, st) && Good(c, q) && q.depth == st.depth + 1 && Got(c, st, q, t0, g0, 4) && Bangs(c, q).err.None?
    ensures Got(c, st, Bangs(c, q), t, g, 4)
    decreases |q.rest|
  {
    hide Good, Bangs, Got, Trim, Emit;
    GoodDepth(c, st);
    var k := GotBlanks(c, st, q, t0, g0, 4);
    var u := Trim(q.rest);
    if Head(u) != '!' {
      BangsStop(c, st.depth, q);
      t, g := t0, k;
    } else {
      assert u == "!" + u[1..];
      BangsGo(c, st.depth, q, u[1..]);
      var at := q.(rest := u[1..]);
      GotBang(c, st, q.(rest := u), t0, k, u[1..]);
      KeepsRest(at, OpFact, 0, 0);
      RestErrs(c, st.depth, DoUn(at, Fact));
      t, g := BangsGot(c, st, DoUn(at, Fact), Bang(t0, k), 0);
    }
  }

  lemma NoGap(u: string)
    ensures Gap(0, u) == u
  {
  }

  lemma BangOk<F>(c: Ctx<F>, a: Text, g: nat, rest: string)
    requires TextOk(c, a, Gap(g, "!" + rest)) && Level(a) >= 4
    ensures TextOk(c, Bang(a, g), rest)
  {
  }

  lemma GotBang<F>(c: Ctx<F>, st: PS<F>, q: PS<F>, a: Text, g: nat, u: string)
    requires Got(c, st, q, a, g, 4) && q.rest == "!" + u
    ensures Got(c, st, DoUn(q.(rest := u), Fact), Bang(a, g), 0, 4)
  {
    hide Do, Gap, Split, Grammatical, Emit, Sayable;
    var t := Bang(a, g);
    NoGap(u);
    BangOk(c, a, g, u);
    assert st.(rest := st.rest) == st;
    DoOfUn(c, st, Fact, Tree(a));
    EmitAnywhere(Do(c, st, Tree(a)), u, OpFact, 0, 0);
    KeepsRest(q.(rest := u), OpFact, 0, 0);
  }

  // ---- primaries -------------------------------------------------------------------------------

  /** From st to r the parser has read the text a, g blanks and a closing bracket. */
  ghost predicate GotGroup<F>(c: Ctx<F>, st: PS<F>, r: PS<F>, a: Text, g: nat) {
    st.rest == Put(a, Gap(g, ")" + r.rest)) && TextOk(c, a, Gap(g, ")" + r.rest))
    && r == Do(c, st, Tree(a)).(rest := r.rest)
  }

  lemma GroupGot<F>(c: Ctx<F>, st: PS<F>) returns (a: Text, g: nat)
    requires Good(c, st) && PGroup(c, st).err.None?
    ensures GotGroup(c, st, PGroup(c, st), a, g)
    decreases |st.rest|, 7
  {
    hide Good, PExpr, Do, TextOk, Put, Gap, Trim;
    var q := PExpr(c, st);
    var g0: nat;
    a, g0 := ExprGot(c, st);
    g := GotBlanks(c, st, q, a, g0, 0);
    var u := Trim(q.rest);
    assert u == ")" + u[1..];
  }

  lemma PrimaryGot<F>(c: Ctx<F>, st: PS<F>) returns (t: Text, g: nat)
    requires Good(c, st) && PPrimary(c, st).err.None?
    ensures Got(c, st, PPrimary(c, st), t, g, 5)
    decreases |st.rest|, 1
  {
    hide Good, PPrimary, PGroup, PNumber, PName, Got, Trim, Numeral;
    var u := Trim(st.rest);
    var k := TrimLeaves(st.rest);
    PrimaryIs(c, st);
    if IsDigit(Head(u)) || Head(u) == '.' {
      var tok := LiteralSplit(u);
      GotNumber(c, st, k, tok, Numeral(u).value.2);
      t, g := Atomic(k, tok, Num(tok)), 0;
    } else if Head(u) == '(' {
      var inner := u[1..];
      assert u == "(" + inner;
      OpenSteps(c, st, inner);
      var a, g2 := GroupGot(c, st.(rest := inner));
      GotBrackets(c, st, PPrimary(c, st), k, inner, a, g2);
      t, g := Group(k, a, g2), 0;
    } else {
      t := NameGot(c, st, k);
      g := 0;
    }
  }

  lemma PrimaryIs<F>(c: Ctx<F>, st: PS<F>)
    requires Good(c, st) && PPrimary(c, st).err.None?
    ensures var h := Head(Trim(st.rest)); StartsPrimary(h) && (IsDigit(h) || h == '.' ==> Numeral(Trim(st.rest)).Some?)
  {
    hide Good, PGroup, PName, Trim, Numeral, EmitNum;
    GoodRest(c, st, Trim(st.rest));
  }

  lemma LiteralIsNumeral(tok: string, left: string)
    requires IsLiteral(tok, left)
    ensures IsNumeral(tok)
  {
  }

  lemma GotNumber<F>(c: Ctx<F>, st: PS<F>, k: nat, tok: string, left: string)
    requires Good(c, st) && IsLiteral(tok, left) && Trim(st.rest) == tok + left && st.rest == Gap(k, tok + left)
    ensures Got(c, st, PPrimary(c, st), Atomic(k, tok, Num(tok)), 0, 5)
  {
    hide Good, PPrimary, Trim, EmitNum, LitValue, IsLiteral, IsNumeral;
    NumberParses(c, st, tok, left);
    LiteralIsNumeral(tok, left);
    EmitNumAnywhere(st, left, LitValue(c.fl, tok));
    KeepsRestNum(st.(rest := left), LitValue(c.fl, tok));
  }

  lemma GotBrackets<F>(c: Ctx<F>, st: PS<F>, r: PS<F>, k: nat, inner: string, a: Text, g: nat)
    requires GotGroup(c, st.(rest := inner), r, a, g) && st.rest == Gap(k, "(" + inner)
    ensures Got(c, st, r, Group(k, a, g), 0, 5)
  {
    hide Do;
    DoAnywhere(c, st, inner, Tree(a));
  }

  lemma NameGot<F>(c: Ctx<F>, st: PS<F>, k: nat) returns (t: Text)
    requires Good(c, st) && PPrimary(c, st).err.None?
    requires IsAlpha(Head(Trim(st.rest))) && st.rest == Gap(k, Trim(st.rest))
    ensures Got(c, st, PPrimary(c, st), t, 0, 5)
    decreases |st.rest|, 0
  {
    hide Good, PPrimary, PGroup, PCall, PLetter, Got, Trim, FirstWord, Emit, EmitNum;
    var u := Trim(st.rest);
    var (n, w) := FirstWord(u);
    var tok, left := u[..n], u[n..];
    assert u == tok + left;
    WordParses(c, st, tok, left, w);
    match w
    case WFn(f) => t := CallGot(c, st, k, tok, left, f);
    case WAns =>
      t := Atomic(k, tok, Ans);
      GotAtom(c, st, k, tok, left, Ans, w);
    case WPi =>
      t := Atomic(k, tok, Pi);
      GotAtom(c, st, k, tok, left, Pi, w);
    case WLetter(v) =>
      if v == 'y' {
        t := CurveGot(c, st, k, tok, left);
      } else {
        var l := if v == 'e' then E else if v == 'x' then X else Var(v);
        if l.Var? { LetterIsSet(c, st.(rest := left), v); }
        t := Atomic(k, tok, l);
        GotAtom(c, st, k, tok, left, l, w);
      }
  }

  lemma LetterIsSet<F>(c: Ctx<F>, at: PS<F>, v: char)
    requires Good(c, at) && 'a' <= v <= 'z' && v !in "exy" && PLetter(c, at, v).err.None?
    ensures Letter(v) in c.varSet
  {
    hide Good, Emit, EmitNum, PGroup;
  }

  lemma GotAtom<F>(c: Ctx<F>, st: PS<F>, k: nat, tok: string, left: string, l: Atom, w: Word)
    requires Good(c, st) && IsAtom(tok, left, l) && AtomOk(c, l) && !l.Num? && IsWord(tok, left, w)
    requires (w.WLetter? ==> w.c != 'y') && !w.WFn? && Trim(st.rest) == tok + left && st.rest == Gap(k, tok + left)
    requires PPrimary(c, st).err.None?
    ensures Got(c, st, PPrimary(c, st), Atomic(k, tok, l), 0, 5)
  {
    hide Good, PPrimary, Trim, Do, FirstWord, AfterWord;
    AtomParses(c, st, tok, l, left);
    WordParses(c, st, tok, left, w);
    WordLeaves(c, st.(rest := left), w);
  }

  lemma WordLeaves<F>(c: Ctx<F>, at: PS<F>, w: Word)
    requires Good(c, at) && !w.WFn? && (w.WLetter? ==> 'a' <= w.c <= 'z' && w.c != 'y')
    ensures AfterWord(c, at, w).rest == at.rest
  {
    hide Good, PGroup;
  }

  lemma CallGot<F>(c: Ctx<F>, st: PS<F>, k: nat, tok: string, left: string, f: nat) returns (t: Text)
    requires Good(c, st) && IsWord(tok, left, WFn(f)) && f < FN_N
    requires Trim(st.rest) == tok + left && st.rest == Gap(k, tok + left)
    requires Good(c, st.(rest := left)) && PPrimary(c, st) == PCall(c, st.(rest := left), f)
    requires PPrimary(c, st).err.None?
    ensures Got(c, st, PPrimary(c, st), t, 0, 5)
    decreases |st.rest|, 0, 0
  {
    hide Good, PPrimary, PGroup, PCall, Trim, FirstWord, Emit;
    CallHasBracket(c, st.(rest := left), f);
    var u := Trim(left);
    var g1 := TrimLeaves(left);
    var inner := u[1..];
    assert u == "(" + inner;
    CallSteps(c, st, f, left, inner);
    var a, g2 := GroupGot(c, st.(rest := inner));
    t := Call(k, tok, f, g1, a, g2);
    GotCall(c, st, PGroup(c, st.(rest := inner)), k, tok, f, g1, inner, a, g2);
  }

  lemma CallHasBracket<F>(c: Ctx<F>, at: PS<F>, f: nat)
    requires Good(c, at) && f < FN_N && PCall(c, at, f).err.None?
    ensures Head(Trim(at.rest)) == '('
  {
    hide Good, Trim, PGroup, Emit;
  }

  lemma GotCall<F>(c: Ctx<F>, st: PS<F>, s: PS<F>, k: nat, name: string, f: nat, g1: nat, inner: string,
                   a: Text, g2: nat)
    requires GotGroup(c, st.(rest := inner), s, a, g2) && f < FN_N
    requires IsWord(name, Gap(g1, "(" + inner), WFn(f)) && st.rest == Gap(k, name + Gap(g1, "(" + inner))
    ensures Got(c, st, DoUn(s, Fn(f)), Call(k, name, f, g1, a, g2), 0, 5)
  {
    hide Do, Emit, IsWord;
    JoinUn(c, st, s, inner, Fn(f), Tree(a));
    KeepsRest(s, OpFn, f, 0);
  }

  lemma CurveGot<F>(c: Ctx<F>, st: PS<F>, k: nat, tok: string, left: string) returns (t: Text)
    requires Good(c, st) && IsWord(tok, left, WLetter('y'))
    requires Trim(st.rest) == tok + left && st.rest == Gap(k, tok + left)
    requires Good(c, st.(rest := left)) && PPrimary(c, st) == PLetter(c, st.(rest := left), 'y')
    requires PPrimary(c, st).err.None?
    ensures Got(c, st, PPrimary(c, st), t, 0, 5)
    decreases |st.rest|, 0, 0
  {
    hide Good, PPrimary, PGroup, PLetter, Trim, FirstWord, Emit;
    CurveIsOn(c, st.(rest := left));
    OneLetter(tok, left);
    var f, inner := left[0] as int - '1' as int, left[2..];
    assert left == [GraphDigit(f)] + ("(" + inner);
    CurveSteps(c, st, f, inner);
    var a, g2 := GroupGot(c, st.(rest := inner));
    t := Curve(k, tok[0], f, a, g2);
    GotCurve(c, st, PGroup(c, st.(rest := inner)), k, tok[0], f, inner, a, g2);
  }

  lemma GoodOn<F>(c: Ctx<F>, at: PS<F>)
    requires Good(c, at)
    ensures |c.on| == NFUN
  {
  }

  lemma CurveIsOn<F>(c: Ctx<F>, at: PS<F>)
    requires Good(c, at) && PLetter(c, at, 'y').err.None?
    ensures |at.rest| >= 2 && '1' <= at.rest[0] <= '4' && at.rest[1] == '(' && !c.inFn
    ensures |c.on| == NFUN && c.on[at.rest[0] as int - '1' as int]
  {
    hide PGroup, Emit, EmitNum, Good, Letter;
    GoodOn(c, at);
    assert Head(at.rest[1..]) == '(';
  }

  lemma OneLetter(tok: string, left: string)
    requires IsWord(tok, left, WLetter('y'))
    ensures tok == [tok[0]]
  {
    hide BestFn, Matches;
  }

  lemma GotCurve<F>(c: Ctx<F>, st: PS<F>, s: PS<F>, k: nat, y: char, f: nat, inner: string, a: Text, g2: nat)
    requires GotGroup(c, st.(rest := inner), s, a, g2) && UnOk(c, Y(f))
    requires var left := [GraphDigit(f)] + ("(" + inner);
      IsWord([y], left, WLetter('y')) && st.rest == Gap(k, [y] + left)
    ensures Got(c, st, DoUn(s, Y(f)), Curve(k, y, f, a, g2), 0, 5)
  {
    hide Do, Emit, IsWord;
    JoinUn(c, st, s, inner, Y(f), Tree(a));
    KeepsRest(s, OpY, f, 0);
  }

  // ---- the whole line ----------------------------------------------------------------------------

  lemma {:induction false} GapHas(g: nat, s: string)
    ensures forall x :: x in s ==> x in Gap(g, s)
  {
    if g > 0 { GapHas(g - 1, s); }
  }

  /** What follows a text is part of the line. */
  lemma {:induction false} PutHas(t: Text, rest: string)
    ensures forall x :: x in rest ==> x in Put(t, rest)
    decreases t
  {
    hide Gap;
    match t
    case Atomic(g, tok, _) => GapHas(g, tok + rest);
    case Call(g, name, _, g1, a, g2) =>
      GapHas(g2, ")" + rest);
      PutHas(a, Gap(g2, ")" + rest));
      GapHas(g1, "(" + Put(a, Gap(g2, ")" + rest)));
      GapHas(g, name + Gap(g1, "(" + Put(a, Gap(g2, ")" + rest))));
    case Curve(g, y, k, a, g2) =>
      GapHas(g2, ")" + rest);
      PutHas(a, Gap(g2, ")" + rest));
      GapHas(g, [y] + ([GraphDigit(k)] + ("(" + Put(a, Gap(g2, ")" + rest)))));
    case Group(g, a, g2) =>
      GapHas(g2, ")" + rest);
      PutHas(a, Gap(g2, ")" + rest));
      GapHas(g, "(" + Put(a, Gap(g2, ")" + rest)));
    case Signed(g, minus, a) =>
      PutHas(a, rest);
      GapHas(g, (if minus then "-" else "+") + Put(a, rest));
    case Bang(a, g) =>
      GapHas(g, "!" + rest);
      PutHas(a, Gap(g, "!" + rest));
    case Infix(o, a, g, b) =>
      PutHas(b, rest);
      GapHas(g, Sign(o) + Put(b, rest));
      PutHas(a, Gap(g, Sign(o) + Put(b, rest)));
    case Beside(a, b) =>
      PutHas(b, rest);
      PutHas(a, Put(b, rest));
  }

  lemma NoNul(left: string)
    requires NUL !in left && Head(left) == NUL
    ensures left == ""
  {
  }

  /** A line that compiles is the text of a tree, to its end. */
  lemma AcceptedIsText<F>(c: Ctx<F>, s: string) returns (t: Text, g: nat)
    requires |c.on| == NFUN && (forall v :: v in c.varSet ==> v < 26) && NUL !in s && Compile(c, s).err.None?
    ensures IsLine(c, s, t, g)
  {
    hide Good, PExpr, Trim, Put, TextOk, Do, Gap;
    var st: PS<F> := Start(Trim(s));
    StartIsGood(c, Trim(s));
    var r := PExpr(c, st);
    var t0, g0 := ExprGot(c, st);
    var g1 := GotBlanks(c, st, r, t0, g0, 0);
    var left := Trim(r.rest);
    assert r.err.None? && Head(left) == NUL;
    var k := TrimLeaves(s);
    GapHas(k, Trim(s));
    PutHas(t0, Gap(g1, left));
    GapHas(g1, left);
    NoNul(left);
    t, g := Pad(t0, k), g1;
    PadPut(t0, k, Gap(g1, ""));
    PadOk(c, t0, k, Gap(g1, ""));
  }

  lemma PadOk<F>(c: Ctx<F>, t: Text, k: nat, rest: string)
    ensures TextOk(c, Pad(t, k), rest) == TextOk(c, t, rest)
  {
    hide Sayable, Split, Grammatical;
    PadKeeps(t, k, rest);
  }

  /** The language, exactly: a line compiles if and only if it is the text of a tree within the limits. */
  lemma AcceptsExactly<F>(c: Ctx<F>, s: string)
    requires |c.on| == NFUN && (forall v :: v in c.varSet ==> v < 26) && NUL !in s
    ensures Compile(c, s).err.None? <==> exists t: Text, g: nat :: IsLine(c, s, t, g) && WithinLimits(Tree(t))
  {
    hide Compile, IsLine, WithinLimits, Code, Consts;
    if Compile(c, s).err.None? {
      var t, g := AcceptedIsText(c, s);
      TextCompiles(c, s, t, g);
    }
    forall t: Text, g: nat | IsLine(c, s, t, g) && WithinLimits(Tree(t)) ensures Compile(c, s).err.None? {
      TextCompiles(c, s, t, g);
    }
  }

  /** So whatever line compiles, running it gives the value of a tree that it is the text of. */
  lemma AcceptedRuns<F>(c: Ctx<F>, m: Memory<F>, s: string, x: F) returns (t: Text, g: nat)
    requires Describes(c, m) && NUL !in s && Compile(c, s).err.None?
    ensures IsLine(c, s, t, g) && WithinLimits(Tree(t))
    ensures Run(c.fl, m, Compile(c, s).prog, x, c.inFn) == Eval(c.fl, m, x, Tree(t))
  {
    hide Compile, IsLine, WithinLimits, Run, Eval, MemoryOk, Code, Consts;
    t, g := AcceptedIsText(c, s);
    TextCompiles(c, s, t, g);
    CompilerIsCorrect(c, m, s, t, g, x);
  }
}
