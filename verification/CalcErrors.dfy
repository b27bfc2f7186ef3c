/** Which error a line that does not compile is refused with: apps/calc.c, lines 454-616. */
module CalcErrors {
  import opened Common
  import opened CalcLang
  import opened CalcParse
  import opened CalcTrees
  import opened CalcText
  import opened CalcCompile

  predicate CtxOk<F>(c: Ctx<F>) {
    |c.on| == NFUN && forall v :: v in c.varSet ==> v < 26
  }

  // ---- after an expression ---------------------------------------------------------------------

  /** compile's last check: what stands after an expression that is whole. */
  lemma LeftOver<F>(c: Ctx<F>, s: string, t: Text, rest: string)
    requires CtxOk(c) && s == Put(t, rest) && TextOk(c, t, rest) && WithinLimits(Tree(t))
    requires Stops(rest, 0) && Head(Trim(rest)) != NUL
    ensures var h := Head(Trim(rest));
      Compile(c, s).err == Some(if h == ')' then UnexpectedClose else if h == '=' then OnlyOneEquals else Unexpected(h))
  {
    hide Do, PExpr, Put, Trim, Code, Consts, Split, Grammatical, Good, Stops, Size, Nums, Peak, Sayable;
    var st: PS<F> := Start(Trim(s));
    StartIsGood(c, Trim(s));
    TrimTrim(s);
    NotBlank(t, rest);
    ExprParses(c, st, t, rest);
    DoEmitsCode(c, st, Tree(t));
    StartsEmpty(c, st, Tree(t));
  }

  /** Two numbers, or a name and a number, with nothing between them: 2 3, x 2. */
  lemma OperatorMissing<F>(c: Ctx<F>, s: string, t: Text, rest: string)
    requires CtxOk(c) && s == Put(t, rest) && TextOk(c, t, rest) && WithinLimits(Tree(t)) && Level(t) >= 1
    requires IsDigit(Head(Trim(rest))) || Head(Trim(rest)) == '.'
    ensures Compile(c, s).err == Some(MissingOperator)
  {
    hide Do, PExpr, PTerm, Put, Trim, Code, Consts, Split, Grammatical, Good, Size, Nums, Peak, Sayable;
    var st: PS<F> := Start(Trim(s));
    StartIsGood(c, Trim(s));
    TrimTrim(s);
    NotBlank(t, rest);
    var r := TermPrefix(c, st, t, rest);
    DoEmitsCode(c, st, Tree(t));
    StartsEmpty(c, st, Tree(t));
    ExprIs(c, st);
    FactorMissing(c, st.depth, r, Trim(rest));
  }

  lemma FactorMissing<F>(c: Ctx<F>, d: int, r: PS<F>, t: string)
    requires Usable(c, r, d) && r.err.None? && Trim(r.rest) == t && (IsDigit(Head(t)) || Head(t) == '.')
    ensures var q := TermRest(c, d, r); q.err == Some(MissingOperator) && ExprRest(c, d, q) == q
  {
    hide Good, Trim, PUnary, PPower, PTerm;
  }

  // ---- at the start ----------------------------------------------------------------------------

  lemma {:induction false} BlanksTrimmed(s: string)
    requires forall i :: 0 <= i < |s| ==> s[i] == ' '
    ensures Trim(s) == ""
  {
    if s != "" { BlanksTrimmed(s[1..]); }
  }

  lemma NothingThere<F>(c: Ctx<F>, s: string)
    requires CtxOk(c) && forall i :: 0 <= i < |s| ==> s[i] == ' '
    ensures Compile(c, s).err == Some(NothingToDo)
  {
    BlanksTrimmed(s);
  }

  /** What a term's first operand is refused with, the term is. */
  lemma TermFails<F>(c: Ctx<F>, st: PS<F>)
    requires Good(c, st) && Trim(st.rest) == st.rest && Head(st.rest) !in "+-" && PPrimary(c, st).err.Some?
    ensures PTerm(c, st) == PPrimary(c, st)
  {
    hide Good, PPrimary, Trim, PNumber;
    assert st.(rest := Trim(st.rest)) == st;
    var r := PPrimary(c, st);
    assert Bangs(c, r) == r;
    assert PPower(c, st) == r;
    assert PUnary(c, st) == r;
    TermIs(c, st);
  }

  /** And so is the line. */
  lemma OperandFails<F>(c: Ctx<F>, s: string)
    requires CtxOk(c) && Head(Trim(s)) !in "+-" && Head(Trim(s)) != NUL
    requires Good(c, Start(Trim(s))) && PPrimary(c, Start(Trim(s))).err.Some?
    ensures Compile(c, s).err == PPrimary(c, Start(Trim(s))).err
  {
    hide Good, PPrimary, PTerm, Trim, PNumber;
    var st: PS<F> := Start(Trim(s));
    TrimTrim(s);
    TermFails(c, st);
    ExprIs(c, st);
    assert PExpr(c, st) == PTerm(c, st);
  }

  /** The first operand when it is a name. */
  lemma NameFails<F>(c: Ctx<F>, s: string, tok: string, rest: string, w: Word)
    requires CtxOk(c) && Trim(s) == tok + rest && IsWord(tok, rest, w)
    ensures Good(c, Start(rest)) && (w.WFn? ==> w.k < FN_N) && (w.WLetter? ==> 'a' <= w.c <= 'z')
    ensures var r := AfterWord(c, Start(rest), w); r.err.Some? ==> Compile(c, s).err == r.err
  {
    hide Good, PPrimary, Trim, FirstWord, PCall, PLetter, EmitNum, Emit;
    StartIsGood(c, Trim(s));
    TrimTrim(s);
    var st: PS<F> := Start(Trim(s));
    WordParses(c, st, tok, rest, w);
    assert st.(rest := rest) == Start(rest);
    if AfterWord(c, Start(rest), w).err.Some? { OperandFails(c, s); }
  }

  /** A function without its brackets. */
  lemma FunctionAlone<F>(c: Ctx<F>, s: string, tok: string, rest: string, k: nat)
    requires CtxOk(c) && Trim(s) == tok + rest && IsWord(tok, rest, WFn(k)) && Head(Trim(rest)) != '('
    ensures Compile(c, s).err == Some(NeedsBrackets(k))
  {
    hide Good, PPrimary, Trim, FirstWord, PGroup, Compile, IsWord;
    NameFails(c, s, tok, rest, WFn(k));
    assert Start<F>(rest).err.None?;
  }

  /** A variable that is not set. */
  lemma VariableNotSet<F>(c: Ctx<F>, s: string, tok: string, rest: string, v: char)
    requires CtxOk(c) && Trim(s) == tok + rest && IsWord(tok, rest, WLetter(v))
    requires v !in "exy" && v as int - 'a' as int !in c.varSet
    ensures Compile(c, s).err == Some(NotSet(v as int - 'a' as int))
  {
    hide Good, PPrimary, Trim, FirstWord, PGroup, Compile, IsWord, EmitNum, Emit;
    NameFails(c, s, tok, rest, WLetter(v));
    assert Start<F>(rest).err.None?;
  }

  /** y that is no graph's, a graph inside a graph, and a graph that is off. */
  lemma GraphRefused<F>(c: Ctx<F>, s: string, tok: string, rest: string)
    requires CtxOk(c) && Trim(s) == tok + rest && IsWord(tok, rest, WLetter('y'))
    ensures rest == "" || rest[0] !in "1234" || Head(rest[1..]) != '(' ==> Compile(c, s).err == Some(YIsForGraphs)
    ensures rest != "" && rest[0] in "1234" && Head(rest[1..]) == '(' && c.inFn ==>
      Compile(c, s).err == Some(GraphInGraph)
    ensures rest != "" && rest[0] in "1234" && Head(rest[1..]) == '(' && !c.inFn ==>
      var k := rest[0] as int - '1' as int;
      0 <= k < NFUN == |c.on| && (!c.on[k] ==> Compile(c, s).err == Some(NotDefined(k)))
  {
    hide Good, PPrimary, Trim, FirstWord, PGroup, Compile, IsWord, EmitNum, Emit;
    NameFails(c, s, tok, rest, WLetter('y'));
    assert Start<F>(rest).err.None?;
  }

  /** A character that can start no operand, or a point with no digit. */
  lemma BadStart<F>(c: Ctx<F>, s: string)
    requires CtxOk(c)
    requires var h := Head(Trim(s));
      h != NUL && h !in "+-(" && !IsAlpha(h) && !IsDigit(h)
      && (h == '.' ==> !IsDigit(Head(Trim(s)[1..])))
    ensures var h := Head(Trim(s));
      Compile(c, s).err == Some(if h == '.' then LoneDot else if h == ')' then UnexpectedClose else Unexpected(h))
  {
    hide Good, Compile, Trim, EmitNum;
    StartIsGood(c, Trim(s));
    TrimTrim(s);
    if Head(Trim(s)) == '.' { LonePoint(Trim(s)); }
    OperandFails(c, s);
  }

  lemma LonePoint(t: string)
    requires Head(t) == '.' && !IsDigit(Head(t[1..]))
    ensures Numeral(t) == None
  {
    var n := Scan(0, 0, 0, false, false);
    assert ScanDigits(t, n) == ScanDigits(t[1..], n.(dot := true));
    assert ScanDigits(t[1..], n.(dot := true)) == (n.(dot := true), t[1..]);
  }

  // ---- in the middle ---------------------------------------------------------------------------

  /** A bracket that is not closed after the expression in it. */
  lemma NotClosed<F>(c: Ctx<F>, s: string, t: Text, rest: string)
    requires CtxOk(c) && Trim(s) == "(" + Put(t, rest) && TextOk(c, t, rest) && WithinLimits(Tree(t))
    requires Stops(rest, 0) && Head(Trim(rest)) != ')'
    ensures Compile(c, s).err == Some(MissingClose)
  {
    hide Do, PExpr, PPrimary, Put, Trim, Code, Consts, Split, Grammatical, Good, Stops, Size, Nums, Peak, Sayable;
    hide Compile;
    StartIsGood(c, Trim(s));
    TrimTrim(s);
    var inner := Put(t, rest);
    var st: PS<F> := Start(inner);
    OpenSteps(c, Start(Trim(s)), inner);
    ExprParses(c, st, t, rest);
    DoEmitsCode(c, st, Tree(t));
    StartsEmpty(c, st, Tree(t));
    GroupLeftOpen(c, st);
    OperandFails(c, s);
  }

  lemma GroupLeftOpen<F>(c: Ctx<F>, st: PS<F>)
    requires Good(c, st) && PExpr(c, st).err.None? && Head(Trim(PExpr(c, st).rest)) != ')'
    ensures PGroup(c, st).err == Some(MissingClose)
  {
    hide Good, PExpr, Trim;
  }

  /** A line that ends after a plus or a minus. */
  lemma EndsAfterSign<F>(c: Ctx<F>, s: string, t: Text, g: nat, o: BinOp, blanks: nat)
    requires CtxOk(c) && (o.Add? || o.Sub?) && WithinLimits(Tree(t))
    requires s == Put(t, Gap(g, Sign(o) + Gap(blanks, ""))) && TextOk(c, t, Gap(g, Sign(o) + Gap(blanks, "")))
    ensures Compile(c, s).err == Some(Unfinished)
  {
    hide Do, PExpr, PTerm, Put, Trim, Code, Consts, Split, Grammatical, Good, Size, Nums, Peak, Sayable, Stops, Gap;
    var st: PS<F> := Start(Trim(s));
    var left := Gap(blanks, "");
    var rest := Gap(g, Sign(o) + left);
    StartIsGood(c, Trim(s));
    TrimTrim(s);
    NotBlank(t, rest);
    StopsAtSign(g, o, left);
    SignedRest(g, o, left);
    var r := ExprPrefix(c, st, t, rest);
    DoEmitsCode(c, st, Tree(t));
    StartsEmpty(c, st, Tree(t));
    ExprRestSign(c, st.depth, r, o, left);
    GoodRest(c, r, left);
    NothingLeft(blanks);
    NoOperand(c, r.(rest := left), st.depth);
  }

  lemma SignedRest(g: nat, o: BinOp, left: string)
    ensures Trim(Gap(g, Sign(o) + left)) == Sign(o) + left
  {
    TrimToken(g, Sign(o) + left);
  }

  lemma NoOperand<F>(c: Ctx<F>, st: PS<F>, d: int)
    requires Good(c, st) && Trim(st.rest) == ""
    ensures var q := PTerm(c, st); q.err == Some(Unfinished) && (st.depth == d + 1 && d >= 0 ==> ExprRest(c, d, q) == q)
  {
    assert st.err.None?;
    hide Good, PNumber, PGroup, PName;
    GoodRest(c, st, "");
    var at := st.(rest := "");
    assert Trim(at.rest) == "" && at.(rest := Trim(at.rest)) == at && at.err.None?;
    assert PPrimary(c, at) == Fail(at, Unfinished);
    assert PUnary(c, st) == PPower(c, at);
    assert PPower(c, at) == PPrimary(c, at);
    TermIs(c, st);
  }
}
