/** How names and numbers that stand close together are told apart (apps/calc.c, lines 371-376 and
    473-508), and that every tree has a text. */
module CalcWords {
  import opened Common
  import opened CalcLang
  import opened CalcParse
  import opened CalcTrees
  import opened CalcText

  // ---- names -----------------------------------------------------------------------------------

  lemma {:induction false} RunLengthOf(w: string, rest: string)
    requires (forall i :: 0 <= i < |w| ==> IsAlpha(w[i])) && !IsAlpha(Head(rest))
    ensures RunLength(w + rest) == |w|
  {
    if w == "" {
      assert w + rest == rest;
    } else {
      RunLengthOf(w[1..], rest);
      assert (w + rest)[1..] == w[1..] + rest;
    }
  }

  lemma FnNames()
    ensures forall j :: 0 <= j < FN_N ==>
      2 <= |FN_NAME[j]| <= 5 && forall i :: 0 <= i < |FN_NAME[j]| ==> 'a' <= FN_NAME[j][i] <= 'z'
    ensures forall i, j :: 0 <= i < j < FN_N ==> FN_NAME[i] != FN_NAME[j]
  {
    assert FN_NAME[0][0] == 's' && FN_NAME[1][0] == 'c' && FN_NAME[2][0] == 't' && FN_NAME[3][1] == 's'
      && FN_NAME[4][1] == 'c' && FN_NAME[5][1] == 't' && FN_NAME[6][1] == 'q' && FN_NAME[7][1] == 'b'
      && FN_NAME[8][1] == 'n' && FN_NAME[9][1] == 'o' && FN_NAME[10][1] == 'x' && FN_NAME[11][0] == 'f'
      && FN_NAME[12][1] == 'e' && FN_NAME[13][0] == 'r';
  }

  /** A word the calculator knows. */
  predicate Known(w: string) {
    w == "ans" || w == "pi" || w in FN_NAME
  }

  lemma FirstWordIsKnown(t: string)
    requires IsAlpha(Head(t))
    ensures var r := FirstWord(t); var n, w := r.0, r.1;
      (w.WFn? ==> w.k < FN_N && n == |FN_NAME[w.k]| && Matches(t, FN_NAME[w.k]))
      && (w.WAns? ==> n == 3 && Matches(t, "ans"))
      && (w.WPi? ==> n == 2 && Matches(t, "pi"))
      && (w.WLetter? ==> n == 1 && w.c == Lower(t[0]))
  {
    hide Matches;
  }

  lemma NoneLonger(t: string, v: string)
    requires IsAlpha(Head(t)) && Known(v) && Matches(t, v)
    ensures |v| <= FirstWord(t).0 && !FirstWord(t).1.WLetter?
  {
    hide Matches;
    var r := BestFn(t, FN_N);
    if v in FN_NAME {
      var k :| 0 <= k < |FN_NAME| && FN_NAME[k] == v;
      NamesAreWords(k);
    }
  }

  lemma NamesAreWords(k: nat)
    requires k < FN_N
    ensures |FN_NAME[k]| >= 2
  {
    FnNames();
  }

  /** The word split off is the longest known one that the letters start with; when there is none, it
      is their first letter. */
  lemma FirstWordIsLongest(t: string)
    requires IsAlpha(Head(t))
    ensures var r := FirstWord(t); var n, w := r.0, r.1;
      (forall v :: Known(v) && Matches(t, v) ==> |v| <= n)
      && (w.WFn? ==> w.k < FN_N && n == |FN_NAME[w.k]| && Matches(t, FN_NAME[w.k]))
      && (w.WAns? ==> n == 3 && Matches(t, "ans"))
      && (w.WPi? ==> n == 2 && Matches(t, "pi"))
      && (w.WLetter? <==> forall v :: Known(v) ==> !Matches(t, v))
      && (w.WLetter? ==> n == 1 && w.c == Lower(t[0]))
  {
    hide Matches, FirstWord, Known;
    FirstWordIsKnown(t);
    forall v | Known(v) && Matches(t, v) ensures |v| <= FirstWord(t).0 && !FirstWord(t).1.WLetter? {
      NoneLonger(t, v);
    }
    var w := FirstWord(t).1;
    AreKnown(if w.WFn? then w.k else 0);
  }

  lemma AreKnown(k: nat)
    requires k < FN_N
    ensures Known(FN_NAME[k]) && Known("ans") && Known("pi")
  {
  }

  /** A run of letters that is a function's name is read as that function, whatever shorter name it
      starts with. */
  lemma FnWord(k: nat, rest: string)
    requires k < FN_N && !IsAlpha(Head(rest))
    ensures IsWord(FN_NAME[k], rest, WFn(k))
  {
    var t := FN_NAME[k] + rest;
    FnNames();
    RunLengthOf(FN_NAME[k], rest);
    assert Matches(t, FN_NAME[k]);
    var r := BestFn(t, FN_N);
    SameName(t, FN_NAME[r.1], FN_NAME[k]);
    assert Matches(t, "ans") ==> r.0 >= 3 by {
      if Matches(t, "ans") { assert |FN_NAME[k]| >= 3 by { NotShort(k, t); } }
    }
  }

  lemma NotShort(k: nat, t: string)
    requires k < FN_N && RunLength(t) == |FN_NAME[k]| && Matches(t, "ans")
    ensures |FN_NAME[k]| >= 3
  {
  }

  lemma SameName(t: string, v: string, w: string)
    requires Matches(t, v) && Matches(t, w) && |v| == |w|
    ensures v == w
  {
  }

  lemma AnsWord(rest: string)
    requires !IsAlpha(Head(rest))
    ensures IsWord("ans", rest, WAns)
  {
    var t := "ans" + rest;
    RunLengthOf("ans", rest);
    assert Matches(t, "ans");
    var r := BestFn(t, FN_N);
    assert r.0 < 3 by { ShortOnly(t, r.1, "ans"); }
  }

  lemma PiWord(rest: string)
    requires !IsAlpha(Head(rest))
    ensures IsWord("pi", rest, WPi)
  {
    var t := "pi" + rest;
    RunLengthOf("pi", rest);
    assert Matches(t, "pi");
    var r := BestFn(t, FN_N);
    assert r.0 < 2 by { ShortOnly(t, r.1, "pi"); }
  }

  /** No function's name is a beginning of "ans" or "pi". */
  lemma ShortOnly(t: string, k: nat, w: string)
    requires (w == "ans" || w == "pi") && RunLength(t) == |w| && Matches(t, w)
    ensures k < FN_N ==> !Matches(t, FN_NAME[k])
  {
    assert Lower(t[0]) == w[0] && Lower(t[1]) == w[1];
  }

  lemma LetterWord(v: char, rest: string)
    requires IsAlpha(v) && !IsAlpha(Head(rest))
    ensures IsWord([v], rest, WLetter(Lower(v)))
  {
    var t := [v] + rest;
    RunLengthOf([v], rest);
    FnNames();
    assert BestFn(t, FN_N).0 == 0;
  }

  /** Every letter of the alphabet, capital or small, is the name of the variable of that small letter, and
      no other character is in a name. */
  lemma LettersAreNames(i: nat, c: char)
    requires i < 26
    ensures IsWord([CAPITALS[i]], "", WLetter(SMALLS[i])) && IsWord([SMALLS[i]], "", WLetter(SMALLS[i]))
    ensures IsAlpha(c) <==> c in CAPITALS || c in SMALLS
  {
    hide CAPITALS, SMALLS, IsWord;
    CapitalAt(i);
    SmallAt(i);
    LetterWord(CAPITALS[i], "");
    LetterWord(SMALLS[i], "");
    CapitalsAre(c);
    SmallsAre(c);
  }

  /** No function's name starts with the letter of t. */
  lemma NoFunction(t: string)
    requires IsAlpha(Head(t)) && Lower(t[0]) in "pxyz"
    ensures BestFn(t, FN_N).0 == 0
  {
    FnFirsts();
    forall j | 0 <= j < FN_N ensures !Matches(t, FN_NAME[j]) {
      assert FN_NAME[j][0] != Lower(t[0]);
    }
  }

  lemma FnFirsts()
    ensures forall j :: 0 <= j < FN_N ==> FN_NAME[j] != "" && FN_NAME[j][0] !in "pxyz"
  {
    assert FN_NAME[0][0] == 's' && FN_NAME[1][0] == 'c' && FN_NAME[2][0] == 't' && FN_NAME[3][0] == 'a'
      && FN_NAME[4][0] == 'a' && FN_NAME[5][0] == 'a' && FN_NAME[6][0] == 's' && FN_NAME[7][0] == 'a'
      && FN_NAME[8][0] == 'l' && FN_NAME[9][0] == 'l' && FN_NAME[10][0] == 'e' && FN_NAME[11][0] == 'f'
      && FN_NAME[12][0] == 'c' && FN_NAME[13][0] == 'r';
  }

  /** x is split off whatever letters follow it, and so is pi. */
  lemma XAndPi(rest: string)
    ensures IsWord("x", rest, WLetter('x')) && IsWord("pi", rest, WPi)
  {
    NoFunction("x" + rest);
    NoFunction("pi" + rest);
    assert ("pi" + rest)[1..] == "i" + rest && ("i" + rest)[0] == 'i';
    assert RunLength("pi" + rest) >= 2;
    assert Matches("pi" + rest, "pi");
    assert !Matches("x" + rest, "ans") && !Matches("x" + rest, "pi") && !Matches("pi" + rest, "ans") by {
      assert ("x" + rest)[0] == 'x' && ("pi" + rest)[0] == 'p' && "ans"[0] == 'a' && "pi"[0] == 'p';
    }
  }

  // ---- numbers ---------------------------------------------------------------------------------

  /** Scanning goes the same way whatever follows the digits it reads. */
  lemma {:induction false} ScanDigitsPrefix(lit: string, rest: string, n: Scan)
    requires !IsDigit(Head(rest)) && Head(rest) != '.'
    ensures ScanDigits(lit + rest, n) == (ScanDigits(lit, n).0, ScanDigits(lit, n).1 + rest)
  {
    if lit == "" {
      assert lit + rest == rest;
    } else {
      assert (lit + rest)[1..] == lit[1..] + rest;
      if IsDigit(lit[0]) {
        ScanDigitsPrefix(lit[1..], rest, ScanDigit(n, lit[0]));
      } else if lit[0] == '.' && !n.dot {
        ScanDigitsPrefix(lit[1..], rest, n.(dot := true));
      }
    }
  }

  lemma {:induction false} ScanExpPrefix(lit: string, rest: string, x: nat)
    requires !IsDigit(Head(rest))
    ensures ScanExp(lit + rest, x) == (ScanExp(lit, x).0, ScanExp(lit, x).1 + rest)
  {
    if lit == "" {
      assert lit + rest == rest;
    } else {
      assert (lit + rest)[1..] == lit[1..] + rest;
      if IsDigit(lit[0]) {
        ScanExpPrefix(lit[1..], rest, if x < 1000 then x * 10 + DigitVal(lit[0]) else x);
      }
    }
  }

  /** A literal is read whole before a name, unless the name is an e that goes on as an exponent. */
  lemma LiteralBefore(lit: string, rest: string)
    requires IsNumeral(lit) && !IsDigit(Head(rest)) && Head(rest) != '.' && !HasExp(rest)
    ensures IsLiteral(lit, rest)
  {
    hide ScanDigits, ScanExp;
    var start := Scan(0, 0, 0, false, false);
    ScanDigitsPrefix(lit, rest, start);
    var left := ScanDigits(lit, start).1;
    if HasExp(left) {
      assert HasExp(left + rest) by {
        assert (left + rest)[1..] == left[1..] + rest;
        if !IsDigit(Head(left[1..])) { assert (left + rest)[2..] == left[2..] + rest; }
      }
      var signed := left[1] == '-' || left[1] == '+';
      var tail := if signed then left[2..] else left[1..];
      assert (left + rest)[1] == left[1];
      assert (if signed then (left + rest)[2..] else (left + rest)[1..]) == tail + rest;
      ScanExpPrefix(tail, rest, 0);
      assert ScanExp(tail, 0).1 + rest == rest;
    } else {
      assert left + rest == rest;
    }
  }

  // ---- every tree has a text -------------------------------------------------------------------

  function AtomText(l: Atom): string {
    match l
    case Num(lit) => lit
    case E => "e"
    case Pi => "pi"
    case X => "x"
    case Ans => "ans"
    case Var(v) => [v]
  }

  /** The text of a tree with every operand in brackets. */
  function TextOf(e: Expr): Text {
    match e
    case Leaf(l) => Atomic(0, AtomText(l), l)
    case Un(Neg, a) => Signed(0, true, Group(0, TextOf(a), 0))
    case Un(Fact, a) => Bang(Group(0, TextOf(a), 0), 0)
    case Un(Fn(k), a) => Call(0, if k < FN_N then FN_NAME[k] else "", k, 0, TextOf(a), 0)
    case Un(Y(k), a) => Curve(0, 'y', k, TextOf(a), 0)
    case Bin(o, a, b) => Infix(o, Group(0, TextOf(a), 0), 0, Group(0, TextOf(b), 0))
  }

  /** The next character cannot be part of the token before it. */
  predicate Ends(rest: string) {
    !IsAlpha(Head(rest)) && !IsDigit(Head(rest)) && Head(rest) != '.'
  }

  lemma AtomAlone(l: Atom, rest: string)
    requires Ends(rest) && (match l case Num(lit) => IsNumeral(lit) case Var(v) => 'a' <= v <= 'z' case _ => true)
    ensures IsAtom(AtomText(l), rest, l)
  {
    hide IsLiteral, IsWord, IsNumeral;
    match l
    case Num(lit) => LiteralBefore(lit, rest);
    case E => LetterWord('e', rest);
    case Pi => PiWord(rest);
    case X => LetterWord('x', rest);
    case Ans => AnsWord(rest);
    case Var(v) => LetterWord(v, rest);
  }

  lemma {:induction false} TextOfSplits<F>(c: Ctx<F>, e: Expr, rest: string)
    requires Sayable(c, e) && Ends(rest)
    ensures Grammatical(TextOf(e)) && Split(TextOf(e), rest) && Tree(TextOf(e)) == e
    decreases e
  {
    hide IsAtom, IsWord, Ends;
    EndsAtSigns(rest);
    match e
    case Leaf(l) => AtomAlone(l, rest);
    case Un(u, a) =>
      match u {
        case Neg => TextOfSplits(c, a, ")" + rest);
        case Fact => TextOfSplits(c, a, ")" + ("!" + rest));
        case Fn(k) =>
          TextOfSplits(c, a, ")" + rest);
          FnBefore(k, Put(TextOf(a), ")" + rest));
        case Y(k) =>
          TextOfSplits(c, a, ")" + rest);
          YBefore(k, "(" + Put(TextOf(a), ")" + rest));
      }
    case Bin(o, a, b) =>
      TextOfSplits(c, b, ")" + rest);
      TextOfSplits(c, a, ")" + (Sign(o) + ("(" + Put(TextOf(b), ")" + rest))));
  }

  lemma EndsAtSigns(rest: string)
    ensures forall s: string :: Ends(")" + s)
  {
  }

  lemma FnBefore(k: nat, inner: string)
    requires k < FN_N
    ensures IsWord(FN_NAME[k], "(" + inner, WFn(k))
  {
    FnWord(k, "(" + inner);
  }

  lemma YBefore(k: nat, tail: string)
    requires k < NFUN
    ensures IsWord(['y'], [GraphDigit(k)] + tail, WLetter('y'))
  {
    LetterWord('y', [GraphDigit(k)] + tail);
  }

  /** Every tree the line can mention is the tree of some line. */
  lemma EveryTreeHasAText<F>(c: Ctx<F>, e: Expr)
    requires Sayable(c, e)
    ensures IsLine(c, Put(TextOf(e), ""), TextOf(e), 0) && Tree(TextOf(e)) == e
  {
    TextOfSplits(c, e, "");
  }

  // ---- the products of the source's own description --------------------------------------------

  function Digit(d: char): Text { Atomic(0, [d], Num([d])) }
  function XText(): Text { Atomic(0, "x", X) }
  function PiText(): Text { Atomic(0, "pi", Pi) }
  function Sine(g: nat): Text { Call(g, "sin", 0, 0, XText(), 0) }
  function Sum(): Text { Infix(Add, Digit('1'), 0, Digit('2')) }

  lemma OneDigit(d: char)
    requires IsDigit(d)
    ensures IsNumeral([d])
  {
    var start := Scan(0, 0, 0, false, false);
    var n := ScanDigit(start, d);
    assert [d][1..] == "" && ScanDigits("", n) == (n, "");
    assert ScanDigits([d], start) == (n, "");
  }

  lemma DigitSplits(d: char, rest: string)
    requires IsDigit(d) && !IsDigit(Head(rest)) && Head(rest) != '.' && !HasExp(rest)
    ensures Split(Digit(d), rest) && IsNumeral([d])
  {
    OneDigit(d);
    LiteralBefore([d], rest);
  }

  lemma SineSplits(g: nat)
    ensures Split(Sine(g), "") && Grammatical(Sine(g)) && Put(Sine(g), "") == Gap(g, "sin(x)")
  {
    hide FirstWord;
    XAndPi(")");
    FnWord(0, "(x)");
    assert Put(XText(), ")") == "x)" && "(" + "x)" == "(x)" && "sin" + "(x)" == "sin(x)";
    assert Gap(0, ")" + "") == ")";
  }

  lemma SumSplits()
    ensures Split(Group(0, Sum(), 0), "") && Grammatical(Sum()) && Put(Group(0, Sum(), 0), "") == "(1+2)"
  {
    DigitSplits('2', ")");
    assert Put(Digit('2'), ")") == "2)";
    assert "+" + "2)" == "+2)" && Gap(0, "+2)") == "+2)";
    DigitSplits('1', "+2)");
    assert Put(Digit('1'), "+2)") == "1+2)" && "(" + "1+2)" == "(1+2)";
    assert Gap(0, ")" + "") == ")";
  }

  lemma ProductLine<F>(c: Ctx<F>, s: string, a: Text, b: Text)
    requires s == Put(a, Put(b, "")) && TextOk(c, a, Put(b, "")) && TextOk(c, b, "")
    requires Level(a) >= 1 && Level(b) >= 3 && OpensFactor(b)
    ensures IsLine(c, s, Beside(a, b), 0)
  {
    hide IsAtom, IsWord;
  }

  lemma XTextOk<F>(c: Ctx<F>, rest: string)
    ensures TextOk(c, XText(), rest) && TextOk(c, PiText(), rest)
    ensures Put(XText(), rest) == "x" + rest && Put(PiText(), rest) == "pi" + rest
  {
    hide FirstWord;
    XAndPi(rest);
  }

  lemma DigitOk<F>(c: Ctx<F>, d: char, rest: string)
    requires IsDigit(d) && !IsDigit(Head(rest)) && Head(rest) != '.' && !HasExp(rest)
    ensures TextOk(c, Digit(d), rest) && Put(Digit(d), rest) == [d] + rest
  {
    hide IsNumeral;
    DigitSplits(d, rest);
    assert Sayable(c, Leaf(Num([d])));
    assert Gap(0, [d] + rest) == [d] + rest;
  }

  lemma SineOk<F>(c: Ctx<F>, g: nat)
    requires g <= 1
    ensures TextOk(c, Sine(g), "") && Put(Sine(g), "") == if g == 0 then "sin(x)" else " sin(x)"
  {
    hide Split;
    SineSplits(g);
    assert Sayable(c, Leaf(X)) && Tree(Sine(g)) == Un(Fn(0), Leaf(X));
    assert Gap(1, "sin(x)") == " " + Gap(0, "sin(x)") && " " + "sin(x)" == " sin(x)";
  }

  lemma SumOk<F>(c: Ctx<F>)
    ensures TextOk(c, Group(0, Sum(), 0), "") && Put(Group(0, Sum(), 0), "") == "(1+2)"
  {
    hide Split, IsNumeral;
    SumSplits();
    OneDigit('1');
    OneDigit('2');
    var one, two := Leaf(Num(['1'])), Leaf(Num(['2']));
    assert Sayable(c, one) && Sayable(c, two);
    assert Tree(Sum()) == Bin(Add, one, two);
  }

  /** 2x, 2pi, 3(1+2), x sin(x), pix and xsin(x) are lines, and products. */
  lemma ProductsRunTogether<F>(c: Ctx<F>)
    ensures IsLine(c, "2x", Beside(Digit('2'), XText()), 0)
    ensures IsLine(c, "2pi", Beside(Digit('2'), PiText()), 0)
    ensures IsLine(c, "3(1+2)", Beside(Digit('3'), Group(0, Sum(), 0)), 0)
    ensures IsLine(c, "x sin(x)", Beside(XText(), Sine(1)), 0)
    ensures IsLine(c, "pix", Beside(PiText(), XText()), 0)
    ensures IsLine(c, "xsin(x)", Beside(XText(), Sine(0)), 0)
  {
    hide TextOk, IsLine, Put;
    assert "x" + "" == "x" && "pi" + "" == "pi" && "2" + "x" == "2x" && "2" + "pi" == "2pi";
    XTextOk(c, "");
    DigitOk(c, '2', "x");
    ProductLine(c, "2x", Digit('2'), XText());
    DigitOk(c, '2', "pi");
    ProductLine(c, "2pi", Digit('2'), PiText());
    SumOk(c);
    DigitOk(c, '3', "(1+2)");
    ProductLine(c, "3(1+2)", Digit('3'), Group(0, Sum(), 0));
    XTextOk(c, "x");
    ProductLine(c, "pix", PiText(), XText());
    SineOk(c, 0);
    XTextOk(c, "sin(x)");
    ProductLine(c, "xsin(x)", XText(), Sine(0));
    SineOk(c, 1);
    XTextOk(c, " sin(x)");
    ProductLine(c, "x sin(x)", XText(), Sine(1));
  }
}
