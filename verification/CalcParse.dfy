/** The calculator's recursive descent parser: apps/calc.c, lines 433-646.

    The functions read a line by what is left of it.  Their contracts are the facts every line obeys:
    the parser moves forward, and what it has emitted without an error is safe to run. */
module CalcParse {
  import opened Common
  import opened CalcLang

  function Head(t: string): char { if t == "" then NUL else t[0] }

  predicate IsAlpha(c: char) { 'a' <= c <= 'z' || 'A' <= c <= 'Z' }

  /** peek: what is left once the spaces are skipped. */
  function Trim(t: string): (r: string)
    ensures |r| <= |t| && Head(r) != ' '
  {
    if t != "" && t[0] == ' ' then Trim(t[1..]) else t
  }

  datatype Error =
    | TooLong | TooDeep | TooManyNumbers | LoneDot | MissingClose | NeedsBrackets(fn: nat) | GraphInGraph
    | NotDefined(graph: nat) | YIsForGraphs | NotSet(v: nat) | Unfinished | UnexpectedClose
    | Unexpected(c: char) | MissingOperator | NothingToDo | OnlyOneEquals

  /** What the parser reads besides the line: whether a graph is compiled, which variables are set,
      which graphs are on, and what the floats mean. */
  datatype Ctx<!F> = Ctx(fl: Floats<F>, inFn: bool, varSet: set<nat>, on: seq<bool>)

  /** Parse, with the line as what is left of it. */
  datatype PS<F> = PS(rest: string, prog: Prog<F>, depth: int, maxd: int, err: Option<Error>, usesX: bool)

  function Fail<F>(st: PS<F>, e: Error): PS<F> {
    if st.err.Some? then st else st.(err := Some(e))
  }

  /** emit. */
  function Emit<F>(st: PS<F>, op: Op, arg: nat, delta: int): PS<F> {
    if st.err.Some? then st
    else if |st.prog.code| >= PROG_MAX then Fail(st, TooLong)
    else
      var depth := st.depth + delta;
      var maxd := if depth > st.maxd then depth else st.maxd;
      var out := st.(prog := st.prog.(code := st.prog.code + [Instr(op, arg)]), depth := depth, maxd := maxd);
      if maxd > STACK_MAX then Fail(out, TooDeep) else out
  }

  /** emit_num: the constant is stored even when the instruction does not fit. */
  function EmitNum<F>(st: PS<F>, v: F): PS<F> {
    if |st.prog.k| >= KONST_MAX then Fail(st, TooManyNumbers)
    else Emit(st.(prog := st.prog.(k := st.prog.k + [v])), OpNum, |st.prog.k|, 1)
  }

  /** What holds of the parser while it has met no error. */
  predicate Good<F>(c: Ctx<F>, st: PS<F>) {
    st.err.None?
    && |c.on| == NFUN && (forall v :: v in c.varSet ==> v < 26)
    && |st.prog.code| <= PROG_MAX && |st.prog.k| <= KONST_MAX
    && Safe(st.prog.code, |st.prog.k|, c.inFn)
    && 0 <= st.depth == DepthOf(st.prog.code) <= st.maxd <= STACK_MAX
  }

  lemma GoodRest<F>(c: Ctx<F>, st: PS<F>, rest: string)
    requires Good(c, st)
    ensures Good(c, st.(rest := rest))
  {
    hide Safe, DepthOf;
  }

  lemma GoodDepth<F>(c: Ctx<F>, st: PS<F>)
    requires Good(c, st)
    ensures st.depth >= 0
  {
  }

  /** One value more on the stack, some text read, and nothing lost. */
  predicate Pushed<F>(c: Ctx<F>, st: PS<F>, r: PS<F>) {
    |r.rest| <= |st.rest|
    && (r.err.None? ==> Good(c, r) && r.depth == st.depth + 1 && |r.rest| < |st.rest|)
  }

  lemma EmitGood<F>(c: Ctx<F>, st: PS<F>, op: Op, arg: nat)
    requires Good(c, st) && ArgOk(Instr(op, arg), |st.prog.k|, c.inFn) && Needs(op) <= st.depth
    ensures var r := Emit(st, op, arg, Delta(op));
      r.rest == st.rest && (r.err.None? ==> Good(c, r) && r.depth == st.depth + Delta(op))
  {
    SafeAppend(st.prog.code, Instr(op, arg), |st.prog.k|, c.inFn);
  }

  lemma EmitNumGood<F>(c: Ctx<F>, st: PS<F>, v: F)
    requires Good(c, st)
    ensures var r := EmitNum(st, v);
      r.rest == st.rest && (r.err.None? ==> Good(c, r) && r.depth == st.depth + 1)
  {
    if |st.prog.k| < KONST_MAX {
      var st' := st.(prog := st.prog.(k := st.prog.k + [v]));
      SafeMoreConstants(st.prog.code, |st.prog.k|, |st'.prog.k|, c.inFn);
      EmitGood(c, st', OpNum, |st.prog.k|);
    }
  }

  // ---- numbers: p_number -------------------------------------------------------------------

  /** The state of the digit scan: mantissa, significant digits in it, the power of ten, whether a
      digit and whether the point were seen. */
  datatype Scan = Scan(mant: nat, nd: nat, dexp: int, any: bool, dot: bool)

  function ScanDigit(n: Scan, c: char): Scan
    requires IsDigit(c)
  {
    if n.nd < 9 then
      var mant := n.mant * 10 + DigitVal(c);
      Scan(mant, if mant != 0 then n.nd + 1 else n.nd, if n.dot then n.dexp - 1 else n.dexp, true, n.dot)
    else n.(any := true, dexp := if n.dot then n.dexp else n.dexp + 1)
  }

  function ScanDigits(t: string, n: Scan): (r: (Scan, string))
    ensures |r.1| <= |t|
    ensures r.0.any && !n.any ==> |r.1| < |t|
  {
    if IsDigit(Head(t)) then ScanDigits(t[1..], ScanDigit(n, t[0]))
    else if Head(t) == '.' && !n.dot then ScanDigits(t[1..], n.(dot := true))
    else (n, t)
  }

  /** The digits of an exponent; past four of them only the sign matters. */
  function ScanExp(t: string, x: nat): (r: (nat, string))
    ensures |r.1| <= |t|
  {
    if IsDigit(Head(t)) then ScanExp(t[1..], if x < 1000 then x * 10 + DigitVal(t[0]) else x) else (x, t)
  }

  /** Whether an exponent follows: `e`, a sign perhaps, and a digit. */
  predicate HasExp(t: string) {
    Lower(Head(t)) == 'e'
    && (IsDigit(Head(t[1..])) || (Head(t[1..]) in "+-" && IsDigit(Head(t[2..]))))
  }

  /** The number at the start of t, as mantissa and power of ten, and what follows it; None for a
      lone point. */
  function Numeral(t: string): (r: Option<(nat, int, string)>)
    ensures r.Some? ==> |r.value.2| < |t|
  {
    hide ScanDigits, ScanExp;
    var (n, rest) := ScanDigits(t, Scan(0, 0, 0, false, false));
    if !n.any then None
    else if HasExp(rest) then
      assert |rest| >= 2;
      var neg := rest[1] == '-';
      var signed := neg || rest[1] == '+';
      var (x, rest') := ScanExp(if signed then rest[2..] else rest[1..], 0);
      Some((n.mant, if neg then n.dexp - x else n.dexp + x, rest'))
    else Some((n.mant, n.dexp, rest))
  }

  function NumberValue<F>(fl: Floats<F>, mant: nat, dexp: int): F {
    if dexp > 60 then fl.inf else fl.scale(mant, if dexp < -90 then -90 else dexp)
  }

  function PNumber<F>(c: Ctx<F>, st: PS<F>): (r: PS<F>)
    requires Good(c, st)
    ensures Pushed(c, st, r)
  {
    hide Safe, DepthOf, EmitNum, Numeral;
    var n := Numeral(st.rest);
    if n.None? then Fail(st, LoneDot)
    else
      var at := st.(rest := n.value.2);
      EmitNumGood(c, at, NumberValue(c.fl, n.value.0, n.value.1));
      EmitNum(at, NumberValue(c.fl, n.value.0, n.value.1))
  }

  // ---- names: the head of p_name -----------------------------------------------------------

  datatype Word = WFn(k: nat) | WAns | WPi | WLetter(c: char)

  function RunLength(t: string): (n: nat)
    ensures n <= |t| && forall i :: 0 <= i < n ==> IsAlpha(t[i])
    ensures n < |t| ==> !IsAlpha(t[n])
  {
    if IsAlpha(Head(t)) then 1 + RunLength(t[1..]) else 0
  }

  /** Whether the letters at the start of t are the word w, in either case. */
  predicate Matches(t: string, w: string) {
    |w| <= RunLength(t) && forall i :: 0 <= i < |w| ==> Lower(t[i]) == w[i]
  }

  /** The first of the longest function names below k that the letters start with: its length, or 0
      when there is none, and its number. */
  function BestFn(t: string, k: nat): (r: (nat, nat))
    requires k <= FN_N
    ensures r.0 > 0 ==> r.1 < k && Matches(t, FN_NAME[r.1]) && r.0 == |FN_NAME[r.1]|
    ensures forall j :: 0 <= j < k && Matches(t, FN_NAME[j]) ==> |FN_NAME[j]| <= r.0
  {
    if k == 0 then (0, 0)
    else
      var r := BestFn(t, k - 1);
      if Matches(t, FN_NAME[k - 1]) && |FN_NAME[k - 1]| > r.0 then (|FN_NAME[k - 1]|, k - 1) else r
  }

  /** The word the letters of t begin with, and its length: the longest known one, else one letter. */
  function FirstWord(t: string): (r: (nat, Word))
    requires IsAlpha(Head(t))
    ensures 0 < r.0 <= RunLength(t)
    ensures r.1.WFn? ==> r.1.k < FN_N
    ensures r.1.WLetter? ==> 'a' <= r.1.c <= 'z'
  {
    var fn := BestFn(t, FN_N);
    if fn.0 < 3 && Matches(t, "ans") then (3, WAns)
    else if fn.0 < 2 && Matches(t, "pi") then (2, WPi)
    else if fn.0 == 0 then (1, WLetter(Lower(t[0])))
    else (fn.0, WFn(fn.1))
  }

  function Letter(c: char): nat
    requires 'a' <= c <= 'z'
    ensures Letter(c) < 26
  {
    c as int - 'a' as int
  }

  // ---- the grammar -------------------------------------------------------------------------

  function PExpr<F>(c: Ctx<F>, st: PS<F>): (r: PS<F>)
    requires Good(c, st)
    ensures Pushed(c, st, r)
    decreases |st.rest|, 6
  {
    hide Safe, DepthOf, Emit, EmitNum, Trim, PExpr, ExprRest, PTerm, TermRest, PUnary, PPower, Bangs, PPrimary, PGroup,
         PName, PLetter, FirstWord, Numeral;
    ExprRest(c, st.depth, PTerm(c, st))
  }

  /** The loop of p_expr, after a term; d is the depth before it. */
  function ExprRest<F>(c: Ctx<F>, d: int, st: PS<F>): (r: PS<F>)
    requires st.err.None? ==> Good(c, st) && st.depth == d + 1 && d >= 0
    ensures |r.rest| <= |st.rest|
    ensures r.err.None? ==> st.err.None? && Good(c, r) && r.depth == d + 1
    decreases |st.rest|, 0
  {
    hide Safe, DepthOf, Emit, EmitNum, Trim, PExpr, ExprRest, PTerm, TermRest, PUnary, PPower, Bangs, PPrimary, PGroup,
         PName, PLetter, FirstWord, Numeral;
    if st.err.Some? then st
    else
      var t := Trim(st.rest);
      if Head(t) != '+' && Head(t) != '-' then st.(rest := t)
      else
        var op := if Head(t) == '+' then OpAdd else OpSub;
        var st2 := PTerm(c, st.(rest := t[1..]));
        if st2.err.Some? then st2
        else
          EmitGood(c, st2, op, 0);
          ExprRest(c, d, Emit(st2, op, 0, -1))
  }

  function PTerm<F>(c: Ctx<F>, st: PS<F>): (r: PS<F>)
    requires Good(c, st)
    ensures Pushed(c, st, r)
    decreases |st.rest|, 5
  {
    hide Safe, DepthOf, Emit, EmitNum, Trim, PExpr, ExprRest, PTerm, TermRest, PUnary, PPower, Bangs, PPrimary, PGroup,
         PName, PLetter, FirstWord, Numeral;
    TermRest(c, st.depth, PUnary(c, st))
  }

  /** The loop of p_term, after a factor: a sign, or a name or bracket straight after it. */
  function TermRest<F>(c: Ctx<F>, d: int, st: PS<F>): (r: PS<F>)
    requires st.err.None? ==> Good(c, st) && st.depth == d + 1 && d >= 0
    ensures |r.rest| <= |st.rest|
    ensures r.err.None? ==> st.err.None? && Good(c, r) && r.depth == d + 1
    decreases |st.rest|, 4
  {
    hide Safe, DepthOf, Emit, EmitNum, Trim, PExpr, ExprRest, PTerm, TermRest, PUnary, PPower, Bangs, PPrimary, PGroup,
         PName, PLetter, FirstWord, Numeral;
    if st.err.Some? then st
    else
      var t := Trim(st.rest);
      var h := Head(t);
      if h == '*' || h == '/' then
        var op := if h == '*' then OpMul else OpDiv;
        var st2 := PUnary(c, st.(rest := t[1..]));
        if st2.err.Some? then st2
        else
          EmitGood(c, st2, op, 0);
          TermRest(c, d, Emit(st2, op, 0, -1))
      else if IsDigit(h) || h == '.' then Fail(st.(rest := t), MissingOperator)
      else if IsAlpha(h) || h == '(' then
        var st2 := PPower(c, st.(rest := t));
        if st2.err.Some? then st2
        else
          EmitGood(c, st2, OpMul, 0);
          TermRest(c, d, Emit(st2, OpMul, 0, -1))
      else st.(rest := t)
  }

  function PUnary<F>(c: Ctx<F>, st: PS<F>): (r: PS<F>)
    requires Good(c, st)
    ensures Pushed(c, st, r)
    decreases |st.rest|, 3
  {
    hide Safe, DepthOf, Emit, EmitNum, Trim, PExpr, ExprRest, PTerm, TermRest, PUnary, PPower, Bangs, PPrimary, PGroup,
         PName, PLetter, FirstWord, Numeral;
    var t := Trim(st.rest);
    if Head(t) == '-' then
      var st2 := PUnary(c, st.(rest := t[1..]));
      if st2.err.Some? then st2
      else
        EmitGood(c, st2, OpNeg, 0);
        Emit(st2, OpNeg, 0, 0)
    else if Head(t) == '+' then PUnary(c, st.(rest := t[1..]))
    else PPower(c, st.(rest := t))
  }

  function PPower<F>(c: Ctx<F>, st: PS<F>): (r: PS<F>)
    requires Good(c, st)
    ensures Pushed(c, st, r)
    decreases |st.rest|, 2
  {
    hide Safe, DepthOf, Emit, EmitNum, Trim, PExpr, ExprRest, PTerm, TermRest, PUnary, PPower, Bangs, PPrimary, PGroup,
         PName, PLetter, FirstWord, Numeral;
    var st1 := Bangs(c, PPrimary(c, st));
    if st1.err.Some? then st1
    else
      var t := Trim(st1.rest);
      if Head(t) != '^' then st1.(rest := t)
      else
        var st2 := PUnary(c, st1.(rest := t[1..]));
        if st2.err.Some? then st2
        else
          EmitGood(c, st2, OpPow, 0);
          Emit(st2, OpPow, 0, -1)
  }

  /** The factorials after a primary. */
  function Bangs<F>(c: Ctx<F>, st: PS<F>): (r: PS<F>)
    requires st.err.None? ==> Good(c, st) && st.depth >= 1
    ensures |r.rest| <= |st.rest|
    ensures r.err.None? ==> st.err.None? && Good(c, r) && r.depth == st.depth
    decreases |st.rest|
  {
    hide Safe, DepthOf, Emit, EmitNum, Trim, PExpr, ExprRest, PTerm, TermRest, PUnary, PPower, Bangs, PPrimary, PGroup,
         PName, PLetter, FirstWord, Numeral;
    if st.err.Some? then st
    else
      var t := Trim(st.rest);
      if Head(t) != '!' then st.(rest := t)
      else
        var at := st.(rest := t[1..]);
        EmitGood(c, at, OpFact, 0);
        Bangs(c, Emit(at, OpFact, 0, 0))
  }

  function PPrimary<F>(c: Ctx<F>, st: PS<F>): (r: PS<F>)
    requires Good(c, st)
    ensures Pushed(c, st, r)
    decreases |st.rest|, 1
  {
    hide Safe, DepthOf, Emit, EmitNum, Trim, PExpr, ExprRest, PTerm, TermRest, PUnary, PPower, Bangs, PPrimary, PGroup,
         PName, PLetter, FirstWord, Numeral;
    var t := Trim(st.rest);
    var at := st.(rest := t);
    var h := Head(t);
    if IsDigit(h) || h == '.' then PNumber(c, at)
    else if h == '(' then PGroup(c, at.(rest := t[1..]))
    else if IsAlpha(h) then PName(c, at)
    else Fail(at, if h == NUL then Unfinished else if h == ')' then UnexpectedClose else Unexpected(h))
  }

  /** After the opening bracket. */
  function PGroup<F>(c: Ctx<F>, st: PS<F>): (r: PS<F>)
    requires Good(c, st)
    ensures Pushed(c, st, r)
    decreases |st.rest|, 7
  {
    hide Safe, DepthOf, Emit, EmitNum, Trim, PExpr, ExprRest, PTerm, TermRest, PUnary, PPower, Bangs, PPrimary, PGroup,
         PName, PLetter, FirstWord, Numeral;
    var st1 := PExpr(c, st);
    if st1.err.Some? then st1
    else
      var t := Trim(st1.rest);
      if Head(t) != ')' then Fail(st1.(rest := t), MissingClose) else st1.(rest := t[1..])
  }

  function PName<F>(c: Ctx<F>, st: PS<F>): (r: PS<F>)
    requires Good(c, st) && IsAlpha(Head(st.rest))
    ensures Pushed(c, st, r)
    decreases |st.rest|, 0
  {
    hide Safe, DepthOf, Emit, EmitNum, Trim, PExpr, ExprRest, PTerm, TermRest, PUnary, PPower, Bangs, PPrimary, PGroup,
         PName, PCall, PLetter, FirstWord, Numeral;
    var (best, w) := FirstWord(st.rest);
    var at := st.(rest := st.rest[best..]);
    match w
    case WFn(k) => PCall(c, at, k)
    case WAns => EmitGood(c, at, OpAns, 0); Emit(at, OpAns, 0, 1)
    case WPi => EmitNumGood(c, at, c.fl.pi); EmitNum(at, c.fl.pi)
    case WLetter(v) => PLetter(c, at, v)
  }

  /** What follows a function's name: its argument, in brackets. */
  function PCall<F>(c: Ctx<F>, at: PS<F>, k: nat): (r: PS<F>)
    requires Good(c, at) && k < FN_N
    ensures |r.rest| <= |at.rest|
    ensures r.err.None? ==> Good(c, r) && r.depth == at.depth + 1
    decreases |at.rest|, 8
  {
    hide Safe, DepthOf, Emit, EmitNum, PExpr, ExprRest, PTerm, TermRest, PUnary, PPower, Bangs, PPrimary, PGroup,
         PName, PCall, PLetter, FirstWord, Numeral;
    var t := Trim(at.rest);
    if Head(t) != '(' then Fail(at.(rest := t), NeedsBrackets(k))
    else
      var st1 := PGroup(c, at.(rest := t[1..]));
      if st1.err.Some? then st1
      else
        EmitGood(c, st1, OpFn, k);
        Emit(st1, OpFn, k, 0)
  }

  /** A single letter: e, x, y for a graph, or a variable. */
  function PLetter<F>(c: Ctx<F>, at: PS<F>, v: char): (r: PS<F>)
    requires Good(c, at) && 'a' <= v <= 'z'
    ensures |r.rest| <= |at.rest|
    ensures r.err.None? ==> Good(c, r) && r.depth == at.depth + 1
    decreases |at.rest|, 8
  {
    hide Safe, DepthOf, Emit, EmitNum, Trim, PExpr, ExprRest, PTerm, TermRest, PUnary, PPower, Bangs, PPrimary, PGroup,
         PName, PLetter, FirstWord, Numeral;
    if v == 'e' then EmitNumGood(c, at, c.fl.e); EmitNum(at, c.fl.e)
    else if v == 'x' then
      var used := at.(usesX := true);
      EmitGood(c, used, OpX, 0);
      Emit(used, OpX, 0, 1)
    else if v == 'y' then
      var h := Head(at.rest);
      if '1' <= h <= '4' && Head(at.rest[1..]) == '(' then
        var k := h as int - '1' as int;
        if c.inFn then Fail(at, GraphInGraph)
        else if !c.on[k] then Fail(at, NotDefined(k))
        else
          var st1 := PGroup(c, at.(rest := at.rest[2..]));
          if st1.err.Some? then st1
          else
            EmitGood(c, st1, OpY, k);
            Emit(st1, OpY, k, 0)
      else Fail(at, YIsForGraphs)
    else if Letter(v) !in c.varSet then Fail(at, NotSet(Letter(v)))
    else EmitGood(c, at, OpVar, Letter(v)); Emit(at, OpVar, Letter(v), 1)
  }

  // ---- compile -----------------------------------------------------------------------------

  datatype Compiled<F> = Compiled(prog: Prog<F>, err: Option<Error>, usesX: bool)

  function Start<F>(s: string): PS<F> {
    PS(s, Prog([], []), 0, 0, None, false)
  }

  function Compile<F>(c: Ctx<F>, s: string): (r: Compiled<F>)
    requires |c.on| == NFUN && forall v :: v in c.varSet ==> v < 26
    ensures r.err.None? ==> ProgOk(r.prog, c.inFn)
  {
    var t := Trim(s);
    if Head(t) == NUL then Compiled(Prog([], []), Some(NothingToDo), false)
    else
      var st := PExpr(c, Start(t));
      if st.err.Some? then Compiled(st.prog, st.err, st.usesX)
      else
        var left := Trim(st.rest);
        if Head(left) == NUL then Compiled(st.prog, None, st.usesX)
        else
          var h := Head(left);
          var e := if h == ')' then UnexpectedClose else if h == '=' then OnlyOneEquals else Unexpected(h);
          Compiled(st.prog, Some(e), st.usesX)
  }
}
