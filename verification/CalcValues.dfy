/** What a number is worth, from its text to the answer: p_number and scale10's arguments in apps/calc.c,
    lines 454-476, through compiling and running. */
module CalcValues {
  import opened Common
  import opened CalcLang
  import opened CalcParse
  import opened CalcTrees
  import opened CalcText
  import opened CalcCompile
  import opened CalcNumerals
  import opened CalcWords
  import opened CalcGrammar

  /** What the line runs to, which it does. */
  ghost predicate Gives<F>(c: Ctx<F>, m: Memory<F>, line: string, at: F, v: F)
    requires Describes(c, m)
  {
    var r := Compile(c, line);
    r.err.None? && ProgOk(r.prog, c.inFn) && Run(c.fl, m, r.prog, at, c.inFn) == v
  }

  lemma TextGives<F>(c: Ctx<F>, m: Memory<F>, line: string, t: Text, at: F)
    requires Describes(c, m) && IsLine(c, line, t, 0) && WithinLimits(Tree(t))
    ensures Gives(c, m, line, at, Eval(c.fl, m, at, Tree(t)))
  {
    hide IsLine, Compile, Run, ProgOk, MemoryOk, WithinLimits, Eval, Tree;
    CompilerIsCorrect(c, m, line, t, 0, at);
  }

  // ---- numbers ---------------------------------------------------------------------------------

  /** A decimal of the digits s, with a point after the first `whole` or none, and an exponent or none. */
  predicate IsDecimal(s: string, whole: nat, point: bool, x: Exponent) {
    AllDigits(s) && s != "" && whole <= |s| && (point || whole == |s|) && IsExponent(x)
  }

  /** The power of ten the first nine significant digits are scaled by, when `lost` digits after them are
      dropped and the exponent says `power`. */
  function PowerOfTen(s: string, whole: nat, x: Exponent, lost: nat, power: nat): int {
    var e: int := power;
    lost - (|s| - whole) + (if x.Exponent? && x.sign == "-" then -e else e)
  }

  /** The digits dropped are those past the ninth significant one, and the exponent is read. */
  predicate ReadSo(s: string, x: Exponent, lost: nat, power: nat)
    requires AllDigits(s) && IsExponent(x)
  {
    Value(s) / Pow10(lost) < Pow10(9) && (lost > 0 ==> Value(s) / Pow10(lost) >= Pow10(8))
    && if x.Exponent? then Read(power, x.digits) else power == 0
  }

  /** The literal's value: its first nine significant digits scaled by its power of ten, which is too large
      past sixty and no smaller than minus ninety. */
  lemma LiteralIsWorth<F>(fl: Floats<F>, s: string, whole: nat, point: bool, x: Exponent)
    returns (lost: nat, power: nat)
    requires IsDecimal(s, whole, point, x)
    ensures ReadSo(s, x, lost, power)
    ensures var lit, k := Body(s, whole, point) + ExponentText(x), PowerOfTen(s, whole, x, lost, power);
      IsNumeral(lit)
      && (k > 60 ==> LitValue(fl, lit) == fl.inf)
      && (k < -90 ==> LitValue(fl, lit) == fl.scale(Value(s) / Pow10(lost), -90))
      && (-90 <= k <= 60 ==> LitValue(fl, lit) == fl.scale(Value(s) / Pow10(lost), k))
  {
    hide Numeral, Value, Pow10, Read, Body, ExponentText;
    lost, power := NumeralKeepsNine(s, whole, point, x);
  }

  lemma NumberLine<F>(c: Ctx<F>, lit: string)
    requires IsNumeral(lit)
    ensures IsLine(c, lit, Atomic(0, lit, Num(lit)), 0) && WithinLimits(Leaf(Num(lit)))
  {
    hide IsNumeral, IsLiteral;
    LiteralBefore(lit, "");
    assert lit + "" == lit && Gap(0, lit) == lit && Gap(0, "") == "";
  }

  /** A line that is one number compiles, whatever the number, and running it gives that number. */
  lemma NumberRuns<F>(c: Ctx<F>, m: Memory<F>, s: string, whole: nat, point: bool, x: Exponent, at: F)
    returns (lost: nat, power: nat)
    requires Describes(c, m) && IsDecimal(s, whole, point, x)
    ensures ReadSo(s, x, lost, power)
    ensures var line, k := Body(s, whole, point) + ExponentText(x), PowerOfTen(s, whole, x, lost, power);
      (k > 60 ==> Gives(c, m, line, at, c.fl.inf))
      && (k < -90 ==> Gives(c, m, line, at, c.fl.scale(Value(s) / Pow10(lost), -90)))
      && (-90 <= k <= 60 ==> Gives(c, m, line, at, c.fl.scale(Value(s) / Pow10(lost), k)))
  {
    hide Gives, IsNumeral, LitValue, Value, Pow10, Body, ExponentText, IsLine, WithinLimits, ReadSo, PowerOfTen,
         MemoryOk;
    lost, power := LiteralIsWorth(c.fl, s, whole, point, x);
    var line := Body(s, whole, point) + ExponentText(x);
    NumberLine(c, line);
    TextGives(c, m, line, Atomic(0, line, Num(line)), at);
  }

  /** A value of under nine digits loses none. */
  lemma NoneLost(s: string, x: Exponent, lost: nat, power: nat)
    requires AllDigits(s) && IsExponent(x) && ReadSo(s, x, lost, power) && Value(s) < Pow10(8)
    ensures lost == 0
  {
    hide Value, Pow10, Read;
    if lost > 0 { QuotientIsLess(Value(s), Pow10(lost)); }
  }

  lemma QuotientIsLess(v: nat, p: nat)
    requires p > 0
    ensures v / p <= v
  {
    var q, r := v / p, v % p;
    assert v == p * q + r;
    AtLeast(p, q);
  }

  lemma AtLeast(p: nat, q: nat)
    requires p > 0
    ensures p * q >= q
  {
    assert p * q == (p - 1) * q + q;
  }

  /** 1.5 is fifteen times ten to the minus one, and 2.5e-3 twenty-five times ten to the minus four. */
  lemma OneAndAHalf<F>(c: Ctx<F>, m: Memory<F>, at: F)
    requires Describes(c, m)
    ensures Gives(c, m, "1.5", at, c.fl.scale(15, -1)) && Gives(c, m, "2.5e-3", at, c.fl.scale(25, -4))
  {
    hide Gives, MemoryOk;
    assert Value("1") == 1 && Value("15") == 15 by { assert "15"[..1] == "1"; }
    assert Value("2") == 2 && Value("25") == 25 by { assert "25"[..1] == "2"; }
    assert Value("3") == 3;
    assert Pow10(8) == 100_000_000;
    assert Body("15", 1, true) == "1.5" && ExponentText(NoExponent) == "" && "1.5" + "" == "1.5";
    var lost, power := NumberRuns(c, m, "15", 1, true, NoExponent, at);
    NoneLost("15", NoExponent, lost, power);
    var x := Exponent('e', "-", "3");
    assert Body("25", 1, true) == "2.5" && ExponentText(x) == "e-3" && "2.5" + "e-3" == "2.5e-3";
    lost, power := NumberRuns(c, m, "25", 1, true, x, at);
    NoneLost("25", x, lost, power);
  }

  // ---- how expressions group -------------------------------------------------------------------

  lemma DigitIsWorth<F>(fl: Floats<F>, d: char)
    requires IsDigit(d)
    ensures LitValue(fl, [d]) == fl.scale(DigitVal(d), 0)
  {
    hide LitValue;
    assert Value([d]) == DigitVal(d) by { assert [d][..0] == "" && Value("") == 0; }
    assert Pow10(8) == 100_000_000;
    assert Body([d], 1, false) == [d] && ExponentText(NoExponent) == "" && [d] + "" == [d];
    var lost, power := LiteralIsWorth(fl, [d], 1, false, NoExponent);
    NoneLost([d], NoExponent, lost, power);
  }

  /** Two texts with a sign between them, if both are read so. */
  lemma Joined<F>(c: Ctx<F>, o: BinOp, a: Text, b: Text, rest: string, right: string, whole: string)
    requires TextOk(c, b, rest) && Put(b, rest) == right && TextOk(c, a, Sign(o) + right)
    requires Put(a, Sign(o) + right) == whole && Level(a) >= LeftLevel(o) && Level(b) >= RightLevel(o)
    ensures TextOk(c, Infix(o, a, 0, b), rest) && Put(Infix(o, a, 0, b), rest) == whole
  {
    hide TextOk, Put, Level, LeftLevel, RightLevel;
    NoGap(Sign(o) + right);
    InfixPut(o, a, 0, b, rest);
    InfixOk(c, o, a, 0, b, rest);
  }

  /** A digit before a sign or the end. */
  lemma DigitBefore<F>(c: Ctx<F>, d: char, rest: string)
    requires IsDigit(d) && Head(rest) in "+-*/^!" + [NUL]
    ensures TextOk(c, Digit(d), rest) && Put(Digit(d), rest) == [d] + rest && Level(Digit(d)) == 5
  {
    hide TextOk, Put;
    DigitOk(c, d, rest);
  }

  lemma RightGroup<F>(c: Ctx<F>, x: char, o: BinOp, y: char, p: BinOp, z: char)
    requires IsDigit(x) && IsDigit(y) && IsDigit(z) && (Binds(p) > Binds(o) || (o.Pow? && p.Pow?))
    ensures IsLine(c, [x] + (Sign(o) + ([y] + (Sign(p) + [z]))),
                   Infix(o, Digit(x), 0, Infix(p, Digit(y), 0, Digit(z))), 0)
  {
    hide TextOk, Put, IsNumeral;
    DigitBefore(c, z, "");
    assert [z] + "" == [z] && Gap(0, "") == "";
    DigitBefore(c, y, Sign(p) + [z]);
    DigitBefore(c, x, Sign(o) + ([y] + (Sign(p) + [z])));
    Joined(c, p, Digit(y), Digit(z), "", [z], [y] + (Sign(p) + [z]));
    Joined(c, o, Digit(x), Infix(p, Digit(y), 0, Digit(z)), "", [y] + (Sign(p) + [z]),
           [x] + (Sign(o) + ([y] + (Sign(p) + [z]))));
  }

  lemma LeftGroup<F>(c: Ctx<F>, x: char, o: BinOp, y: char, p: BinOp, z: char)
    requires IsDigit(x) && IsDigit(y) && IsDigit(z) && !(Binds(p) > Binds(o) || (o.Pow? && p.Pow?))
    ensures IsLine(c, [x] + (Sign(o) + ([y] + (Sign(p) + [z]))),
                   Infix(p, Infix(o, Digit(x), 0, Digit(y)), 0, Digit(z)), 0)
  {
    hide TextOk, Put, IsNumeral;
    var line := [x] + (Sign(o) + ([y] + (Sign(p) + [z])));
    DigitBefore(c, z, "");
    assert [z] + "" == [z] && Gap(0, "") == "";
    DigitBefore(c, y, Sign(p) + [z]);
    DigitBefore(c, x, Sign(o) + ([y] + (Sign(p) + [z])));
    Joined(c, o, Digit(x), Digit(y), Sign(p) + [z], [y] + (Sign(p) + [z]), line);
    Joined(c, p, Infix(o, Digit(x), 0, Digit(y)), Digit(z), "", [z], line);
  }

  lemma ThreeTree(x: char, o: BinOp, y: char, p: BinOp, z: char)
    ensures var one, two, three := Leaf(Num([x])), Leaf(Num([y])), Leaf(Num([z]));
      Tree(Infix(o, Digit(x), 0, Infix(p, Digit(y), 0, Digit(z)))) == Bin(o, one, Bin(p, two, three))
      && Tree(Infix(p, Infix(o, Digit(x), 0, Digit(y)), 0, Digit(z))) == Bin(p, Bin(o, one, two), three)
  {
    assert forall d :: Tree(Digit(d)) == Leaf(Num([d]));
    assert Tree(Infix(p, Digit(y), 0, Digit(z))) == Bin(p, Tree(Digit(y)), Tree(Digit(z)));
    assert Tree(Infix(o, Digit(x), 0, Digit(y))) == Bin(o, Tree(Digit(x)), Tree(Digit(y)));
  }

  /** What a line of three digits and two signs runs to.  The second goes first when it binds tighter, or
      when both are powers; otherwise they go from left to right. */
  lemma Grouping<F>(c: Ctx<F>, m: Memory<F>, x: char, o: BinOp, y: char, p: BinOp, z: char, at: F)
    requires Describes(c, m) && IsDigit(x) && IsDigit(y) && IsDigit(z)
    ensures var line := [x] + (Sign(o) + ([y] + (Sign(p) + [z])));
      var a, b, d := c.fl.scale(DigitVal(x), 0), c.fl.scale(DigitVal(y), 0), c.fl.scale(DigitVal(z), 0);
      Gives(c, m, line, at, if Binds(p) > Binds(o) || (o.Pow? && p.Pow?)
                            then BinValue(c.fl, o, a, BinValue(c.fl, p, b, d))
                            else BinValue(c.fl, p, BinValue(c.fl, o, a, b), d))
  {
    hide IsLine, Gives, LitValue, MemoryOk, WithinLimits, Eval, BinValue, Tree, Binds, Digit;
    var line := [x] + (Sign(o) + ([y] + (Sign(p) + [z])));
    DigitIsWorth(c.fl, x);
    DigitIsWorth(c.fl, y);
    DigitIsWorth(c.fl, z);
    ThreeTree(x, o, y, p, z);
    ThreeDigits(c.fl, m, at, x, o, y, p, z);
    if Binds(p) > Binds(o) || (o.Pow? && p.Pow?) {
      RightGroup(c, x, o, y, p, z);
      TextGives(c, m, line, Infix(o, Digit(x), 0, Infix(p, Digit(y), 0, Digit(z))), at);
    } else {
      LeftGroup(c, x, o, y, p, z);
      TextGives(c, m, line, Infix(p, Infix(o, Digit(x), 0, Digit(y)), 0, Digit(z)), at);
    }
  }

  lemma ThreeDigits<F>(fl: Floats<F>, m: Memory<F>, at: F, x: char, o: BinOp, y: char, p: BinOp, z: char)
    requires MemoryOk(m)
    ensures var a, b, d := LitValue(fl, [x]), LitValue(fl, [y]), LitValue(fl, [z]);
      var one, two, three := Leaf(Num([x])), Leaf(Num([y])), Leaf(Num([z]));
      WithinLimits(Bin(o, one, Bin(p, two, three))) && WithinLimits(Bin(p, Bin(o, one, two), three))
      && Eval(fl, m, at, Bin(o, one, Bin(p, two, three))) == BinValue(fl, o, a, BinValue(fl, p, b, d))
      && Eval(fl, m, at, Bin(p, Bin(o, one, two), three)) == BinValue(fl, p, BinValue(fl, o, a, b), d)
  {
    hide LitValue, MemoryOk;
    var one, two, three := Leaf(Num([x])), Leaf(Num([y])), Leaf(Num([z]));
    var left, right := Bin(o, one, two), Bin(p, two, three);
    assert Eval(fl, m, at, left) == BinValue(fl, o, LitValue(fl, [x]), LitValue(fl, [y]));
    assert Eval(fl, m, at, right) == BinValue(fl, p, LitValue(fl, [y]), LitValue(fl, [z]));
    assert Size(one) == 1 && Nums(one) == 1 && Peak(one) == 1;
    assert Size(two) == 1 && Nums(two) == 1 && Peak(two) == 1;
    assert Size(three) == 1 && Nums(three) == 1 && Peak(three) == 1;
    assert Size(left) == 3 && Size(right) == 3 && Nums(left) == 2 && Nums(right) == 2;
    assert Peak(left) == 2 && Peak(right) == 2;
  }

  /** + and - bind least, * and / more, ^ most. */
  function Binds(o: BinOp): nat {
    match o
    case Add | Sub => 1
    case Mul | Div => 2
    case Pow => 3
  }

  /** The signs by name, on lines of three digits: 1-2-3 is (1-2)-3, 2^3^2 is 2^(3^2), 1+2*3 is 1+(2*3), and
      8/4*2 is (8/4)*2, not a number when 4 is zero. */
  lemma SignsByName<F>(c: Ctx<F>, m: Memory<F>, at: F)
    requires Describes(c, m)
    ensures var fl, n := c.fl, k => c.fl.scale(k, 0);
      Gives(c, m, "1-2-3", at, fl.sub(fl.sub(n(1), n(2)), n(3)))
      && Gives(c, m, "2^3^2", at, fl.pow(n(2), fl.pow(n(3), n(2))))
      && Gives(c, m, "1+2*3", at, fl.add(n(1), fl.mul(n(2), n(3))))
      && Gives(c, m, "8/4*2", at, fl.mul(if fl.isZero(n(4)) then fl.nan else fl.div(n(8), n(4)), n(2)))
  {
    hide Gives, MemoryOk;
    assert "1" + ("-" + ("2" + ("-" + "3"))) == "1-2-3";
    Grouping(c, m, '1', Sub, '2', Sub, '3', at);
    assert "2" + ("^" + ("3" + ("^" + "2"))) == "2^3^2";
    Grouping(c, m, '2', Pow, '3', Pow, '2', at);
    assert "1" + ("+" + ("2" + ("*" + "3"))) == "1+2*3";
    Grouping(c, m, '1', Add, '2', Mul, '3', at);
    assert "8" + ("/" + ("4" + ("*" + "2"))) == "8/4*2";
    Grouping(c, m, '8', Div, '4', Mul, '2', at);
  }

  lemma OneTree<F>(fl: Floats<F>, m: Memory<F>, at: F, x: char, y: char, k: nat)
    requires MemoryOk(m)
    ensures var a, b := LitValue(fl, [x]), LitValue(fl, [y]);
      var one, two := Leaf(Num([x])), Leaf(Num([y]));
      var s, t, u, v := Un(Neg, Bin(Pow, one, two)), Bin(Pow, one, Un(Neg, two)), Bin(Pow, one, Un(Fact, two)),
                        Un(Fn(k), Leaf(X));
      WithinLimits(s) && WithinLimits(t) && WithinLimits(u) && WithinLimits(v)
      && Eval(fl, m, at, s) == fl.neg(fl.pow(a, b)) && Eval(fl, m, at, t) == fl.pow(a, fl.neg(b))
      && Eval(fl, m, at, u) == fl.pow(a, fl.fact(b)) && Eval(fl, m, at, v) == fl.fn(k, at)
  {
    hide LitValue, MemoryOk;
    var one, two := Leaf(Num([x])), Leaf(Num([y]));
    assert Eval(fl, m, at, Bin(Pow, one, two)) == fl.pow(LitValue(fl, [x]), LitValue(fl, [y]));
    assert Size(one) == 1 && Nums(one) == 1 && Peak(one) == 1;
    assert Size(two) == 1 && Nums(two) == 1 && Peak(two) == 1;
    assert Size(Bin(Pow, one, two)) == 3 && Nums(Bin(Pow, one, two)) == 2 && Peak(Bin(Pow, one, two)) == 2;
    assert Eval(fl, m, at, Leaf(X)) == at && Size(Leaf(X)) == 1 && Nums(Leaf(X)) == 0 && Peak(Leaf(X)) == 1;
    assert forall u :: Eval(fl, m, at, Un(u, two)) == UnValue(fl, m, u, LitValue(fl, [y]));
    assert forall u :: Size(Un(u, two)) == 2 && Nums(Un(u, two)) == 1 && Peak(Un(u, two)) == 1;
  }

  lemma MinusLine<F>(c: Ctx<F>, x: char, y: char)
    requires IsDigit(x) && IsDigit(y)
    ensures IsLine(c, "-" + ([x] + ("^" + [y])), Signed(0, true, Infix(Pow, Digit(x), 0, Digit(y))), 0)
  {
    hide TextOk, Put, IsNumeral;
    DigitBefore(c, y, "");
    assert [y] + "" == [y] && Gap(0, "") == "";
    DigitBefore(c, x, "^" + [y]);
    var a := Infix(Pow, Digit(x), 0, Digit(y));
    Joined(c, Pow, Digit(x), Digit(y), "", [y], [x] + ("^" + [y]));
    SignedOk(c, 0, true, a, "");
    SignedPut(a, "");
  }

  lemma SignedPut(a: Text, rest: string)
    ensures Put(Signed(0, true, a), rest) == "-" + Put(a, rest)
  {
    NoGap("-" + Put(a, rest));
  }

  lemma PowerOfMinusLine<F>(c: Ctx<F>, x: char, y: char)
    requires IsDigit(x) && IsDigit(y)
    ensures IsLine(c, [x] + ("^" + ("-" + [y])), Infix(Pow, Digit(x), 0, Signed(0, true, Digit(y))), 0)
  {
    hide TextOk, Put, IsNumeral;
    DigitBefore(c, y, "");
    assert [y] + "" == [y] && Gap(0, "") == "";
    SignedOk(c, 0, true, Digit(y), "");
    SignedPut(Digit(y), "");
    DigitBefore(c, x, "^" + ("-" + [y]));
    Joined(c, Pow, Digit(x), Signed(0, true, Digit(y)), "", "-" + [y], [x] + ("^" + ("-" + [y])));
  }

  lemma PowerOfBangLine<F>(c: Ctx<F>, x: char, y: char)
    requires IsDigit(x) && IsDigit(y)
    ensures IsLine(c, [x] + ("^" + ([y] + "!")), Infix(Pow, Digit(x), 0, Bang(Digit(y), 0)), 0)
  {
    hide TextOk, Put, IsNumeral;
    DigitBefore(c, y, "!");
    NoGap("!" + "");
    assert "!" + "" == "!" && Gap(0, "") == "";
    BangOk(c, Digit(y), 0, "");
    BangPut(Digit(y), "");
    DigitBefore(c, x, "^" + ([y] + "!"));
    Joined(c, Pow, Digit(x), Bang(Digit(y), 0), "", [y] + "!", [x] + ("^" + ([y] + "!")));
  }

  lemma BangPut(a: Text, rest: string)
    ensures Put(Bang(a, 0), rest) == Put(a, Gap(0, "!" + rest))
  {
  }

  /** A sign binds less than a power before it and may stand after one, and ! binds more: -x^y is -(x^y),
      x^-y is x^(-y) and x^y! is x^(y!). */
  lemma SignsAndBangs<F>(c: Ctx<F>, m: Memory<F>, x: char, y: char, at: F)
    requires Describes(c, m) && IsDigit(x) && IsDigit(y)
    ensures var fl, a, b := c.fl, c.fl.scale(DigitVal(x), 0), c.fl.scale(DigitVal(y), 0);
      Gives(c, m, "-" + ([x] + ("^" + [y])), at, fl.neg(fl.pow(a, b)))
      && Gives(c, m, [x] + ("^" + ("-" + [y])), at, fl.pow(a, fl.neg(b)))
      && Gives(c, m, [x] + ("^" + ([y] + "!")), at, fl.pow(a, fl.fact(b)))
  {
    hide IsLine, Gives, LitValue, MemoryOk, WithinLimits, Eval, Digit;
    DigitIsWorth(c.fl, x);
    DigitIsWorth(c.fl, y);
    OneTree(c.fl, m, at, x, y, 0);
    assert forall d :: Tree(Digit(d)) == Leaf(Num([d])) by { DigitTree(); }
    MinusLine(c, x, y);
    TextGives(c, m, "-" + ([x] + ("^" + [y])), Signed(0, true, Infix(Pow, Digit(x), 0, Digit(y))), at);
    PowerOfMinusLine(c, x, y);
    TextGives(c, m, [x] + ("^" + ("-" + [y])), Infix(Pow, Digit(x), 0, Signed(0, true, Digit(y))), at);
    PowerOfBangLine(c, x, y);
    TextGives(c, m, [x] + ("^" + ([y] + "!")), Infix(Pow, Digit(x), 0, Bang(Digit(y), 0)), at);
  }

  lemma DigitTree()
    ensures forall d :: Tree(Digit(d)) == Leaf(Num([d]))
  {
  }

  /** The functions by number, as the source counts them. */
  const NUMBERED: seq<string> := [
    "sin(x)", "cos(x)", "tan(x)", "asin(x)", "acos(x)", "atan(x)", "sqrt(x)", "abs(x)", "ln(x)", "log(x)", "exp(x)",
    "floor(x)", "ceil(x)", "round(x)"]

  lemma CallLine<F>(c: Ctx<F>, k: nat, name: string)
    requires k < FN_N && name == FN_NAME[k]
    ensures IsLine(c, name + "(x)", Call(0, name, k, 0, XText(), 0), 0)
  {
    hide FirstWord;
    XTextOk(c, ")");
    FnWord(k, "(x)");
    assert Put(XText(), ")") == "x)" && "(" + "x)" == "(x)" && ")" + "" == ")";
    NoGap("(x)");
    NoGap(")");
    NoGap("");
    NoGap(name + "(x)");
  }

  lemma NamesWithX(k: nat)
    requires k < FN_N
    ensures NUMBERED[k] == FN_NAME[k] + "(x)"
  {
    assert "sin" + "(x)" == "sin(x)";
    assert "cos" + "(x)" == "cos(x)";
    assert "tan" + "(x)" == "tan(x)";
    assert "asin" + "(x)" == "asin(x)";
    assert "acos" + "(x)" == "acos(x)";
    assert "atan" + "(x)" == "atan(x)";
    assert "sqrt" + "(x)" == "sqrt(x)";
    assert "abs" + "(x)" == "abs(x)";
    assert "ln" + "(x)" == "ln(x)";
    assert "log" + "(x)" == "log(x)";
    assert "exp" + "(x)" == "exp(x)";
    assert "floor" + "(x)" == "floor(x)";
    assert "ceil" + "(x)" == "ceil(x)";
    assert "round" + "(x)" == "round(x)";
  }

  /** Every function by its name: the name called at x gives the function of its number, sine the first. */
  lemma CallsByNumber<F>(c: Ctx<F>, m: Memory<F>, k: nat, at: F)
    requires Describes(c, m) && k < 14
    ensures Gives(c, m, NUMBERED[k], at, c.fl.fn(k, at))
  {
    hide Gives;
    NamesWithX(k);
    NamedCall(c, m, k, FN_NAME[k], NUMBERED[k], at);
  }

  lemma NamedCall<F>(c: Ctx<F>, m: Memory<F>, k: nat, name: string, line: string, at: F)
    requires Describes(c, m) && k < FN_N && name == FN_NAME[k] && line == name + "(x)"
    ensures Gives(c, m, line, at, c.fl.fn(k, at))
  {
    hide IsLine, Gives, MemoryOk, WithinLimits, Eval, Tree;
    CallLine(c, k, name);
    OneTree(c.fl, m, at, '0', '0', k);
    CallTree(name, k);
    TextGives(c, m, line, Call(0, name, k, 0, XText(), 0), at);
  }

  lemma CallTree(name: string, k: nat)
    ensures Tree(Call(0, name, k, 0, XText(), 0)) == Un(Fn(k), Leaf(X))
  {
    assert Tree(XText()) == Leaf(X);
  }
}
