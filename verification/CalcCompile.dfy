/** The compiler is correct: a line that is the text of a tree compiles to the tree's code and runs to
    the tree's value (apps/calc.c, lines 367-376 and 433-708). */
module CalcCompile {
  import opened Common
  import opened CalcLang
  import opened CalcParse
  import opened CalcTrees
  import opened CalcText

  /** The next token does not go on with an operand of the given tightness. */
  predicate Stops(rest: string, lvl: nat) {
    var h := Head(Trim(rest));
    (lvl <= 3 ==> h != '!' && h != '^')
    && (lvl <= 1 ==> h != '*' && h != '/' && h != '(' && h != '.' && !IsDigit(h) && !IsAlpha(h))
    && (lvl <= 0 ==> h != '+' && h != '-')
  }

  /** The line at st is the given text, but for blanks in front. */
  predicate Reads<F>(st: PS<F>, text: string) {
    Trim(st.rest) == Trim(text)
  }

  /** r is what emission made of the state, d, with the text before `rest` read; or both failed. */
  ghost predicate Same<F>(r: PS<F>, d: PS<F>, rest: string) {
    (r.err.Some? <==> d.err.Some?)
    && (r.err.None? ==> r == d.(rest := r.rest) && Reads(r, rest))
  }

  // ---- emission does not look at the text --------------------------------------------------

  lemma EmitAnywhere<F>(st: PS<F>, rest: string, op: Op, arg: nat, delta: int)
    ensures Emit(st.(rest := rest), op, arg, delta) == Emit(st, op, arg, delta).(rest := rest)
  {
  }

  lemma EmitNumAnywhere<F>(st: PS<F>, rest: string, v: F)
    ensures EmitNum(st.(rest := rest), v) == EmitNum(st, v).(rest := rest)
  {
  }

  lemma {:induction false} DoAnywhere<F>(c: Ctx<F>, st: PS<F>, rest: string, e: Expr)
    ensures Do(c, st.(rest := rest), e) == Do(c, st, e).(rest := rest)
    decreases e
  {
    hide Emit, EmitNum;
    match e
    case Leaf(l) => AtomAnywhere(c, st, rest, l);
    case Un(u, a) => DoAnywhere(c, st, rest, a); EmitAnywhere(Do(c, st, a), rest, UnInstr(u).op, UnInstr(u).arg, 0);
    case Bin(o, a, b) =>
      DoAnywhere(c, st, rest, a);
      DoAnywhere(c, Do(c, st, a), rest, b);
      EmitAnywhere(Do(c, Do(c, st, a), b), rest, BinInstr(o).op, BinInstr(o).arg, -1);
  }

  lemma AtomAnywhere<F>(c: Ctx<F>, st: PS<F>, rest: string, l: Atom)
    ensures DoAtom(c, st.(rest := rest), l) == DoAtom(c, st, l).(rest := rest)
  {
    hide Emit, EmitNum, LitValue;
    EmitNumAnywhere(st, rest, ConstOf(c.fl, l));
    EmitAnywhere(if l.X? then st.(usesX := true) else st, rest, AtomOp(l, 0).op, AtomOp(l, 0).arg, 1);
  }

  // ---- one step of each loop ---------------------------------------------------------------

  ghost predicate Usable<F>(c: Ctx<F>, r: PS<F>, d: int) {
    r.err.None? ==> Good(c, r) && r.depth == d + 1 && d >= 0
  }

  lemma BangsStop<F>(c: Ctx<F>, d: int, r: PS<F>)
    requires Usable(c, r, d) && Head(Trim(r.rest)) != '!'
    ensures Bangs(c, r) == if r.err.Some? then r else r.(rest := Trim(r.rest))
  {
    hide Good, Emit;
  }

  lemma BangsGo<F>(c: Ctx<F>, d: int, r: PS<F>, rest: string)
    requires Usable(c, r, d) && r.err.None? && Trim(r.rest) == "!" + rest
    ensures var s := Emit(r.(rest := rest), OpFact, 0, 0);
      Usable(c, s, d) && Bangs(c, r) == Bangs(c, s)
  {
    hide Emit, Safe, DepthOf;
    var at := r.(rest := rest);
    EmitGood(c, at, OpFact, 0);
    assert ("!" + rest)[1..] == rest;
  }

  lemma TermRestStop<F>(c: Ctx<F>, d: int, r: PS<F>, rest: string)
    requires Usable(c, r, d) && (r.err.None? ==> Reads(r, rest)) && Stops(rest, 1)
    ensures TermRest(c, d, r) == if r.err.Some? then r else r.(rest := Trim(rest))
  {
    hide Good, Emit, PUnary, PPower;
  }

  lemma TermRestSign<F>(c: Ctx<F>, d: int, r: PS<F>, o: BinOp, rest: string)
    requires Usable(c, r, d) && r.err.None? && (o.Mul? || o.Div?) && Trim(r.rest) == Sign(o) + rest
    ensures var s := PUnary(c, r.(rest := rest));
      var t := DoBin(s, o);
      Usable(c, t, d) && TermRest(c, d, r) == TermRest(c, d, if s.err.Some? then s else t)
  {
    hide Emit, Safe, DepthOf, PUnary, PPower;
    var s := PUnary(c, r.(rest := rest));
    assert (Sign(o) + rest)[1..] == rest;
    if s.err.None? { EmitGood(c, s, BinInstr(o).op, 0); } else { EmitStops(s, BinInstr(o).op, -1); }
  }

  lemma EmitStops<F>(s: PS<F>, op: Op, delta: int)
    requires s.err.Some?
    ensures Emit(s, op, 0, delta) == s
  {
  }

  lemma TermRestFactor<F>(c: Ctx<F>, d: int, r: PS<F>, t: string)
    requires Usable(c, r, d) && r.err.None? && Trim(r.rest) == t && (IsAlpha(Head(t)) || Head(t) == '(')
    ensures var s := PPower(c, r.(rest := t));
      Usable(c, DoBin(s, Mul), d)
      && TermRest(c, d, r) == TermRest(c, d, if s.err.Some? then s else DoBin(s, Mul))
  {
    hide Emit, Safe, DepthOf, PUnary, PPower;
    var s := PPower(c, r.(rest := t));
    if s.err.None? { EmitGood(c, s, OpMul, 0); } else { EmitStops(s, OpMul, -1); }
  }

  lemma ExprRestStop<F>(c: Ctx<F>, d: int, r: PS<F>, rest: string)
    requires Usable(c, r, d) && (r.err.None? ==> Reads(r, rest)) && Stops(rest, 0)
    ensures ExprRest(c, d, r) == if r.err.Some? then r else r.(rest := Trim(rest))
  {
    hide Good, Emit, PTerm;
  }

  lemma ExprRestSign<F>(c: Ctx<F>, d: int, r: PS<F>, o: BinOp, rest: string)
    requires Usable(c, r, d) && r.err.None? && (o.Add? || o.Sub?) && Trim(r.rest) == Sign(o) + rest
    ensures var s := PTerm(c, r.(rest := rest));
      var t := DoBin(s, o);
      Usable(c, t, d) && ExprRest(c, d, r) == ExprRest(c, d, if s.err.Some? then s else t)
  {
    hide Emit, Safe, DepthOf, PTerm;
    var s := PTerm(c, r.(rest := rest));
    assert (Sign(o) + rest)[1..] == rest;
    if s.err.None? { EmitGood(c, s, BinInstr(o).op, 0); } else { EmitStops(s, BinInstr(o).op, -1); }
  }

  // ---- putting states together -------------------------------------------------------------

  /** After one operand has been read as r, reading the other and emitting the instruction is what Do
      says of the whole. */
  lemma SameBin<F>(c: Ctx<F>, st: PS<F>, a: Expr, b: Expr, o: BinOp, r: PS<F>, mid: string,
                   t: string, s: PS<F>, rest: string)
    requires Same(r, Do(c, st, a), mid) && r.err.None?
    requires Same(s, Do(c, r.(rest := t), b), rest)
    ensures Same(if s.err.Some? then s else DoBin(s, o), Do(c, st, Bin(o, a, b)), rest)
  {
    hide Emit, Do;
    var d := Do(c, st, a);
    assert Do(c, st, Bin(o, a, b)) == DoBin(Do(c, d, b), o) by { DoOfBin(c, st, o, a, b); }
    DoAnywhere(c, d, t, b);
    var f := Do(c, d, b);
    if s.err.Some? {
      EmitStops(f, BinInstr(o).op, -1);
    } else {
      EmitAnywhere(f, s.rest, BinInstr(o).op, BinInstr(o).arg, -1);
      KeepsRest(f.(rest := s.rest), BinInstr(o).op, BinInstr(o).arg, -1);
    }
  }

  lemma KeepsRest<F>(st: PS<F>, op: Op, arg: nat, delta: int)
    ensures Emit(st, op, arg, delta).rest == st.rest
  {
  }

  lemma DoOfBin<F>(c: Ctx<F>, st: PS<F>, o: BinOp, a: Expr, b: Expr)
    ensures Do(c, st, Bin(o, a, b)) == DoBin(Do(c, Do(c, st, a), b), o)
  {
  }

  lemma DoOfUn<F>(c: Ctx<F>, st: PS<F>, u: UnOp, a: Expr)
    ensures Do(c, st, Un(u, a)) == DoUn(Do(c, st, a), u)
  {
  }

  /** When the first operand fails, the whole does. */
  lemma FailedFirst<F>(c: Ctx<F>, st: PS<F>, o: BinOp, a: Expr, b: Expr)
    requires Do(c, st, a).err.Some?
    ensures Do(c, st, Bin(o, a, b)).err.Some?
  {
    hide Emit;
    var d := Do(c, st, a);
    ErrorsStick(c, d, b);
    EmitStops(Do(c, d, b), BinInstr(o).op, -1);
    DoOfBin(c, st, o, a, b);
  }

  lemma SameUn<F>(c: Ctx<F>, st: PS<F>, u: UnOp, a: Expr, r: PS<F>, mid: string, t: string, rest: string)
    requires Same(r, Do(c, st, a), mid) && (r.err.None? ==> Trim(t) == Trim(rest))
    ensures Same(if r.err.Some? then r else DoUn(r.(rest := t), u), Do(c, st, Un(u, a)), rest)
  {
    hide Emit, Do;
    var d := Do(c, st, a);
    DoOfUn(c, st, u, a);
    if r.err.Some? {
      UnStops(d, u);
    } else {
      EmitAnywhere(d, t, UnInstr(u).op, UnInstr(u).arg, 0);
      KeepsRest(d.(rest := t), UnInstr(u).op, UnInstr(u).arg, 0);
    }
  }

  lemma UnStops<F>(s: PS<F>, u: UnOp)
    requires s.err.Some?
    ensures DoUn(s, u) == s
  {
  }

  // ---- the grammar, level by level ---------------------------------------------------------

  /** The first token of text as tight as a power is a number, a name or a bracket. */
  predicate StartsPrimary(h: char) { IsDigit(h) || h == '.' || IsAlpha(h) || h == '(' }

  lemma NumeralStarts(lit: string)
    requires IsNumeral(lit)
    ensures lit != "" && (IsDigit(lit[0]) || lit[0] == '.')
  {
  }

  lemma AtomStarts(tok: string, rest: string, l: Atom)
    requires IsAtom(tok, rest, l)
    ensures tok != "" && (if l.Num? then IsDigit(tok[0]) || tok[0] == '.' else IsAlpha(tok[0]))
  {
    hide FirstWord, Numeral;
    if l.Num? { NumeralStarts(tok); }
  }

  lemma {:induction false} FirstToken(t: Text, rest: string)
    requires Grammatical(t) && Split(t, rest) && Level(t) >= 3
    ensures var h := Head(Trim(Put(t, rest))); StartsPrimary(h) && (OpensFactor(t) <==> IsAlpha(h) || h == '(')
    decreases t
  {
    hide Trim, IsAtom, FirstWord;
    match t
    case Atomic(g, tok, l) =>
      AtomStarts(tok, rest, l);
      TrimToken(g, tok + rest);
    case Call(g, name, _, g1, a, g2) => TrimToken(g, name + Gap(g1, "(" + Put(a, Gap(g2, ")" + rest))));
    case Curve(g, y, k, a, g2) => TrimToken(g, [y] + ([GraphDigit(k)] + ("(" + Put(a, Gap(g2, ")" + rest)))));
    case Group(g, a, g2) => TrimToken(g, "(" + Put(a, Gap(g2, ")" + rest)));
    case Bang(a, g) => FirstToken(a, Gap(g, "!" + rest));
    case Infix(o, a, g, b) => FirstToken(a, Gap(g, Sign(o) + Put(b, rest)));
  }

  /** What is left of a line once one of its names is read. */
  ghost function AfterWord<F>(c: Ctx<F>, at: PS<F>, w: Word): PS<F>
    requires Good(c, at) && (w.WFn? ==> w.k < FN_N) && (w.WLetter? ==> 'a' <= w.c <= 'z')
  {
    match w
    case WFn(k) => PCall(c, at, k)
    case WAns => Emit(at, OpAns, 0, 1)
    case WPi => EmitNum(at, c.fl.pi)
    case WLetter(v) => PLetter(c, at, v)
  }

  lemma WordParses<F>(c: Ctx<F>, st: PS<F>, tok: string, rest: string, w: Word)
    requires Good(c, st) && IsWord(tok, rest, w) && Trim(st.rest) == tok + rest
    ensures Good(c, st.(rest := rest)) && (w.WFn? ==> w.k < FN_N) && (w.WLetter? ==> 'a' <= w.c <= 'z')
    ensures PPrimary(c, st) == AfterWord(c, st.(rest := rest), w)
  {
    hide Good, Trim, PGroup, PNumber, PCall, PLetter, Emit, EmitNum, FirstWord;
    GoodRest(c, st, tok + rest);
    GoodRest(c, st, rest);
    assert (tok + rest)[|tok|..] == rest;
    assert PPrimary(c, st) == PName(c, st.(rest := tok + rest));
  }

  lemma HasValue(lit: string)
    requires IsNumeral(lit)
    ensures Numeral(lit).Some?
  {
  }

  lemma NumberParses<F>(c: Ctx<F>, st: PS<F>, lit: string, rest: string)
    requires Good(c, st) && IsAtom(lit, rest, Num(lit)) && Trim(st.rest) == lit + rest
    ensures PPrimary(c, st) == EmitNum(st.(rest := rest), LitValue(c.fl, lit))
  {
    hide EmitNum, Good, Numeral, Trim, PGroup, PName, IsNumeral;
    AtomStarts(lit, rest, Num(lit));
    HasValue(lit);
    GoodRest(c, st, lit + rest);
    assert PPrimary(c, st) == PNumber(c, st.(rest := lit + rest));
  }

  lemma AtomParses<F>(c: Ctx<F>, st: PS<F>, tok: string, l: Atom, rest: string)
    requires Good(c, st) && IsAtom(tok, rest, l) && AtomOk(c, l) && Trim(st.rest) == tok + rest
    ensures Same(PPrimary(c, st), Do(c, st, Leaf(l)), rest)
  {
    hide EmitNum, Emit, Good, PPrimary, PCall, IsWord, IsLiteral, Trim, LitValue, IsNumeral;
    AtomAnywhere(c, st, rest, l);
    var used := if l.X? then st.(usesX := true) else st;
    KeepsRestNum(st.(rest := rest), ConstOf(c.fl, l));
    KeepsRest(used.(rest := rest), AtomOp(l, 0).op, AtomOp(l, 0).arg, 1);
    assert used.(rest := rest) == if l.X? then st.(rest := rest).(usesX := true) else st.(rest := rest);
    match l
    case Num(lit) => NumberParses(c, st, lit, rest);
    case E => WordParses(c, st, tok, rest, WLetter('e'));
    case Pi => WordParses(c, st, tok, rest, WPi);
    case X => WordParses(c, st, tok, rest, WLetter('x'));
    case Ans => WordParses(c, st, tok, rest, WAns);
    case Var(v) => WordParses(c, st, tok, rest, WLetter(v));
  }

  lemma KeepsRestNum<F>(st: PS<F>, v: F)
    ensures EmitNum(st, v).rest == st.rest
  {
  }

  lemma PrimaryParses<F>(c: Ctx<F>, st: PS<F>, t: Text, rest: string)
    requires Good(c, st) && TextOk(c, t, rest) && Level(t) >= 5 && Reads(st, Put(t, rest))
    ensures Same(PPrimary(c, st), Do(c, st, Tree(t)), rest)
    decreases t, 5
  {
    hide PPrimary, Do, Good, Trim, IsAtom, IsWord;
    match t
    case Atomic(g, tok, l) =>
      AtomStarts(tok, rest, l);
      TrimToken(g, tok + rest);
      AtomParses(c, st, tok, l, rest);
    case Call(_, _, _, _, _, _) => CallParses(c, st, t, rest);
    case Curve(_, _, _, _, _) => CurveParses(c, st, t, rest);
    case Group(g, a, g2) =>
      var inner := Put(a, Gap(g2, ")" + rest));
      TrimToken(g, "(" + inner);
      OpenSteps(c, st, inner);
      GroupParses(c, st.(rest := inner), a, g2, rest);
      DoAnywhere(c, st, inner, Tree(a));
  }

  lemma OpenSteps<F>(c: Ctx<F>, st: PS<F>, inner: string)
    requires Good(c, st) && Trim(st.rest) == "(" + inner
    ensures Good(c, st.(rest := inner)) && PPrimary(c, st) == PGroup(c, st.(rest := inner))
  {
    hide Good, PGroup, PName, PNumber;
    GoodRest(c, st, inner);
    assert ("(" + inner)[1..] == inner;
  }

  /** The inside of brackets and the closing one. */
  lemma GroupParses<F>(c: Ctx<F>, st: PS<F>, a: Text, g: nat, rest: string)
    requires Good(c, st) && TextOk(c, a, Gap(g, ")" + rest)) && st.rest == Put(a, Gap(g, ")" + rest))
    ensures Same(PGroup(c, st), Do(c, st, Tree(a)), rest)
    decreases a, 13
  {
    hide Do, Good, PExpr, Put, Split, Grammatical, Gap;
    var close := Gap(g, ")" + rest);
    TrimToken(g, ")" + rest);
    ExprParses(c, st, a, close);
    assert (")" + rest)[1..] == rest;
  }

  lemma CallParses<F>(c: Ctx<F>, st: PS<F>, t: Text, rest: string)
    requires Good(c, st) && t.Call? && TextOk(c, t, rest) && Reads(st, Put(t, rest))
    ensures Same(PPrimary(c, st), Do(c, st, Tree(t)), rest)
    decreases t, 4
  {
    hide Do, Good, PGroup, Emit, PPrimary, FirstWord, Trim;
    var inner := Put(t.a, Gap(t.gap2, ")" + rest));
    var tail := Gap(t.gap1, "(" + inner);
    TrimToken(t.gap, t.name + tail);
    TrimToken(t.gap1, "(" + inner);
    WordParses(c, st, t.name, tail, WFn(t.k));
    CallSteps(c, st, t.k, tail, inner);
    GroupParses(c, st.(rest := inner), t.a, t.gap2, rest);
    DoAnywhere(c, st, inner, Tree(t.a));
    var r := PGroup(c, st.(rest := inner));
    SameUn(c, st, Fn(t.k), Tree(t.a), r, rest, r.rest, rest);
    assert r.err.None? ==> r.(rest := r.rest) == r;
  }

  lemma CallSteps<F>(c: Ctx<F>, st: PS<F>, k: nat, tail: string, inner: string)
    requires Good(c, st) && Good(c, st.(rest := tail)) && k < FN_N && Trim(tail) == "(" + inner
    ensures Good(c, st.(rest := inner))
    ensures var r := PGroup(c, st.(rest := inner));
      PCall(c, st.(rest := tail), k) == if r.err.Some? then r else DoUn(r, Fn(k))
  {
    hide Good, PGroup, Emit, Trim;
    GoodRest(c, st, inner);
    assert ("(" + inner)[1..] == inner;
  }

  lemma CurveParses<F>(c: Ctx<F>, st: PS<F>, t: Text, rest: string)
    requires Good(c, st) && t.Curve? && TextOk(c, t, rest) && Reads(st, Put(t, rest))
    ensures Same(PPrimary(c, st), Do(c, st, Tree(t)), rest)
    decreases t, 4
  {
    hide Do, Good, PGroup, Emit, FirstWord, PPrimary, PLetter, Trim;
    var k, inner := t.k, Put(t.a, Gap(t.gap2, ")" + rest));
    var tail := [GraphDigit(k)] + ("(" + inner);
    TrimToken(t.gap, [t.y] + tail);
    WordParses(c, st, [t.y], tail, WLetter('y'));
    CurveSteps(c, st, k, inner);
    GroupParses(c, st.(rest := inner), t.a, t.gap2, rest);
    DoAnywhere(c, st, inner, Tree(t.a));
    var r := PGroup(c, st.(rest := inner));
    SameUn(c, st, Y(k), Tree(t.a), r, rest, r.rest, rest);
    assert r.err.None? ==> r.(rest := r.rest) == r;
  }

  lemma CurveSteps<F>(c: Ctx<F>, st: PS<F>, k: nat, inner: string)
    requires Good(c, st) && UnOk(c, Y(k)) && Good(c, st.(rest := [GraphDigit(k)] + ("(" + inner)))
    ensures Good(c, st.(rest := inner))
    ensures var r := PGroup(c, st.(rest := inner));
      PLetter(c, st.(rest := [GraphDigit(k)] + ("(" + inner)), 'y') == if r.err.Some? then r else DoUn(r, Y(k))
  {
    hide Good, PGroup, Emit;
    var tail := [GraphDigit(k)] + ("(" + inner);
    assert tail[1..] == "(" + inner && tail[2..] == inner;
    GoodRest(c, st, inner);
  }

  /** A primary and its factorials, up to the next token. */
  lemma PostfixParses<F>(c: Ctx<F>, st: PS<F>, t: Text, rest: string) returns (r: PS<F>)
    requires Good(c, st) && TextOk(c, t, rest) && Level(t) >= 4 && Reads(st, Put(t, rest))
    ensures Usable(c, r, st.depth) && Same(r, Do(c, st, Tree(t)), rest)
    ensures Usable(c, PPrimary(c, st), st.depth) && Bangs(c, PPrimary(c, st)) == Bangs(c, r)
    decreases t, 6
  {
    hide Do, Good, PPrimary, Bangs, Emit, Trim, IsAtom, IsWord;
    GoodDepth(c, st);
    if t.Bang? {
      var a, mid := t.a, Gap(t.gap, "!" + rest);
      TrimToken(t.gap, "!" + rest);
      var q := PostfixParses(c, st, a, mid);
      SameUn(c, st, Fact, Tree(a), q, mid, rest, rest);
      if q.err.Some? {
        r := q;
      } else {
        BangsGo(c, st.depth, q, rest);
        r := Emit(q.(rest := rest), OpFact, 0, 0);
      }
    } else {
      PrimaryParses(c, st, t, rest);
      r := PPrimary(c, st);
    }
  }

  lemma PowerParses<F>(c: Ctx<F>, st: PS<F>, t: Text, rest: string)
    requires Good(c, st) && TextOk(c, t, rest) && Level(t) >= 3 && Stops(rest, 3) && Reads(st, Put(t, rest))
    ensures Same(PPower(c, st), Do(c, st, Tree(t)), rest)
    decreases t, 7
  {
    hide Do, Good, PPrimary, Bangs, Emit, PUnary, PPower, Trim, IsAtom, IsWord;
    GoodDepth(c, st);
    if t.Infix? && t.o.Pow? {
      var a, b := t.a, t.b;
      var right := Put(b, rest);
      var mid := Gap(t.gap, "^" + right);
      TrimToken(t.gap, "^" + right);
      assert ("^" + right)[1..] == right;
      var q := PostfixParses(c, st, a, mid);
      PowerSteps(c, st, q, "^" + right, right);
      if q.err.Some? {
        FailedFirst(c, st, Pow, Tree(a), Tree(b));
      } else {
        GoodRest(c, q, right);
        UnaryParses(c, q.(rest := right), b, rest);
        var s := PUnary(c, q.(rest := right));
        SameBin(c, st, Tree(a), Tree(b), Pow, q, mid, right, s, rest);
      }
    } else {
      var q := PostfixParses(c, st, t, rest);
      PowerSteps(c, st, q, Trim(rest), "");
      TrimTrim(rest);
    }
  }

  /** p_power once the primary and its factorials are read. */
  lemma PowerSteps<F>(c: Ctx<F>, st: PS<F>, q: PS<F>, t: string, right: string)
    requires Good(c, st) && Usable(c, q, st.depth) && (q.err.None? ==> Trim(q.rest) == t)
    requires Head(t) != '!' && (Head(t) == '^' ==> t[1..] == right)
    requires Usable(c, PPrimary(c, st), st.depth) && Bangs(c, PPrimary(c, st)) == Bangs(c, q)
    ensures q.err.Some? ==> PPower(c, st) == q
    ensures q.err.None? && Head(t) != '^' ==> PPower(c, st) == q.(rest := t)
    ensures q.err.None? && Head(t) == '^' ==>
      Good(c, q.(rest := right))
      && var s := PUnary(c, q.(rest := right)); PPower(c, st) == if s.err.Some? then s else DoBin(s, Pow)
  {
    hide Good, PPrimary, Bangs, Emit, PUnary, BinInstr;
    if q.err.None? {
      BangsStop(c, st.depth, q);
      GoodRest(c, q, right);
      TrimTrim(q.rest);
      PowInstr();
    } else {
      BangsError(c, st.depth, q);
    }
  }

  lemma PowInstr()
    ensures BinInstr(Pow) == Instr(OpPow, 0)
  {
  }

  lemma BangsError<F>(c: Ctx<F>, d: int, q: PS<F>)
    requires q.err.Some?
    ensures Bangs(c, q) == q
  {
  }

  lemma UnaryParses<F>(c: Ctx<F>, st: PS<F>, t: Text, rest: string)
    requires Good(c, st) && TextOk(c, t, rest) && Level(t) >= 2 && Stops(rest, 3) && Reads(st, Put(t, rest))
    ensures Same(PUnary(c, st), Do(c, st, Tree(t)), rest)
    decreases t, 8
  {
    hide Do, Good, PPower, Emit, Stops, IsAtom, IsWord, OpensFactor;
    if t.Signed? {
      var right := Put(t.a, rest);
      var sign := if t.minus then "-" else "+";
      TrimToken(t.gap, sign + right);
      assert (sign + right)[1..] == right;
      GoodRest(c, st, right);
      UnaryParses(c, st.(rest := right), t.a, rest);
      DoAnywhere(c, st, right, Tree(t.a));
      var s := PUnary(c, st.(rest := right));
      if t.minus { SameUn(c, st, Neg, Tree(t.a), s, rest, s.rest, rest); }
      assert s.err.None? ==> s.(rest := s.rest) == s;
    } else {
      FirstToken(t, rest);
      var u := Trim(st.rest);
      TrimTrim(st.rest);
      GoodRest(c, st, u);
      PowerParses(c, st.(rest := u), t, rest);
      DoAnywhere(c, st, u, Tree(t));
    }
  }

  /** A term up to the next token, still inside p_term's loop. */
  lemma TermPrefix<F>(c: Ctx<F>, st: PS<F>, t: Text, rest: string) returns (r: PS<F>)
    requires Good(c, st) && TextOk(c, t, rest) && Level(t) >= 1 && Stops(rest, 3) && Reads(st, Put(t, rest))
    ensures Usable(c, r, st.depth) && Same(r, Do(c, st, Tree(t)), rest)
    ensures PTerm(c, st) == TermRest(c, st.depth, r)
    decreases t, 9
  {
    hide Do, Good, PUnary, PTerm, TermRest, Emit, Stops, IsAtom, IsWord, OpensFactor, Trim;
    GoodDepth(c, st);
    if t.Infix? && (t.o.Mul? || t.o.Div?) {
      var a, b, o := t.a, t.b, t.o;
      var right := Put(b, rest);
      var mid := Gap(t.gap, Sign(o) + right);
      TrimToken(t.gap, Sign(o) + right);
      StopsAtSign(t.gap, o, right);
      var q := TermPrefix(c, st, a, mid);
      if q.err.Some? {
        FailedFirst(c, st, o, Tree(a), Tree(b));
        r := q;
      } else {
        TermRestSign(c, st.depth, q, o, right);
        GoodRest(c, q, right);
        UnaryParses(c, q.(rest := right), b, rest);
        var s := PUnary(c, q.(rest := right));
        SameBin(c, st, Tree(a), Tree(b), o, q, mid, right, s, rest);
        r := if s.err.Some? then s else DoBin(s, o);
      }
    } else if t.Beside? {
      r := BesidePrefix(c, st, t, rest);
    } else {
      UnaryParses(c, st, t, rest);
      r := PUnary(c, st);
      TermIs(c, st);
    }
  }

  lemma TermIs<F>(c: Ctx<F>, st: PS<F>)
    requires Good(c, st)
    ensures PTerm(c, st) == TermRest(c, st.depth, PUnary(c, st))
  {
    hide Good, PUnary, TermRest;
  }

  lemma StopsAtSign(g: nat, o: BinOp, right: string)
    requires !o.Pow?
    ensures Stops(Gap(g, Sign(o) + right), 3)
    ensures o.Add? || o.Sub? ==> Stops(Gap(g, Sign(o) + right), 1)
  {
    TrimToken(g, Sign(o) + right);
  }

  /** A product with no sign: the second factor starts with a name or a bracket. */
  lemma BesidePrefix<F>(c: Ctx<F>, st: PS<F>, t: Text, rest: string) returns (r: PS<F>)
    requires Good(c, st) && t.Beside? && TextOk(c, t, rest) && Stops(rest, 3) && Reads(st, Put(t, rest))
    ensures Usable(c, r, st.depth) && Same(r, Do(c, st, Tree(t)), rest)
    ensures PTerm(c, st) == TermRest(c, st.depth, r)
    decreases t, 4
  {
    hide Do, Good, PPower, PTerm, TermRest, Emit, IsAtom, IsWord, OpensFactor, Trim;
    var a, b, mid := t.a, t.b, Put(t.b, rest);
    FirstToken(b, rest);
    var q := TermPrefix(c, st, a, mid);
    if q.err.Some? {
      FailedFirst(c, st, Mul, Tree(a), Tree(b));
      r := q;
    } else {
      var u := Trim(mid);
      TermRestFactor(c, st.depth, q, u);
      GoodRest(c, q, u);
      TrimTrim(mid);
      PowerParses(c, q.(rest := u), b, rest);
      var s := PPower(c, q.(rest := u));
      SameBin(c, st, Tree(a), Tree(b), Mul, q, mid, u, s, rest);
      r := if s.err.Some? then s else DoBin(s, Mul);
    }
  }

  lemma TermParses<F>(c: Ctx<F>, st: PS<F>, t: Text, rest: string)
    requires Good(c, st) && TextOk(c, t, rest) && Level(t) >= 1 && Stops(rest, 1) && Reads(st, Put(t, rest))
    ensures Same(PTerm(c, st), Do(c, st, Tree(t)), rest)
    decreases t, 10
  {
    hide Do, Good, PTerm, TermRest, TextOk, Put;
    var r := TermPrefix(c, st, t, rest);
    TermRestStop(c, st.depth, r, rest);
    TrimTrim(rest);
  }

  /** An expression up to the next token, still inside p_expr's loop. */
  lemma ExprPrefix<F>(c: Ctx<F>, st: PS<F>, t: Text, rest: string) returns (r: PS<F>)
    requires Good(c, st) && TextOk(c, t, rest) && Stops(rest, 1) && Reads(st, Put(t, rest))
    ensures Usable(c, r, st.depth) && Same(r, Do(c, st, Tree(t)), rest)
    ensures PExpr(c, st) == ExprRest(c, st.depth, r)
    decreases t, 11
  {
    hide Do, Good, PTerm, PExpr, ExprRest, Emit, Stops, IsAtom, IsWord, OpensFactor, Trim;
    GoodDepth(c, st);
    if Level(t) == 0 {
      var a, b, o := t.a, t.b, t.o;
      var right := Put(b, rest);
      var mid := Gap(t.gap, Sign(o) + right);
      TrimToken(t.gap, Sign(o) + right);
      StopsAtSign(t.gap, o, right);
      var q := ExprPrefix(c, st, a, mid);
      if q.err.Some? {
        FailedFirst(c, st, o, Tree(a), Tree(b));
        r := q;
      } else {
        ExprRestSign(c, st.depth, q, o, right);
        GoodRest(c, q, right);
        TermParses(c, q.(rest := right), b, rest);
        var s := PTerm(c, q.(rest := right));
        SameBin(c, st, Tree(a), Tree(b), o, q, mid, right, s, rest);
        r := if s.err.Some? then s else DoBin(s, o);
      }
    } else {
      TermParses(c, st, t, rest);
      r := PTerm(c, st);
      ExprIs(c, st);
    }
  }

  lemma ExprIs<F>(c: Ctx<F>, st: PS<F>)
    requires Good(c, st)
    ensures PExpr(c, st) == ExprRest(c, st.depth, PTerm(c, st))
  {
    hide Good, PTerm, ExprRest;
  }

  lemma ExprParses<F>(c: Ctx<F>, st: PS<F>, t: Text, rest: string)
    requires Good(c, st) && TextOk(c, t, rest) && Stops(rest, 0) && Reads(st, Put(t, rest))
    ensures Same(PExpr(c, st), Do(c, st, Tree(t)), rest)
    decreases t, 12
  {
    hide Do, Good, PExpr, ExprRest, TextOk, Put;
    var r := ExprPrefix(c, st, t, rest);
    ExprRestStop(c, st.depth, r, rest);
    TrimTrim(rest);
  }

  // ---- the theorems ------------------------------------------------------------------------

  /** The program of a tree has room for its instructions, its constants and its stack. */
  predicate WithinLimits(e: Expr) {
    Size(e) <= PROG_MAX && Nums(e) <= KONST_MAX && Peak(e) <= STACK_MAX
  }

  /** What the compiler reads of the calculator's memory. */
  ghost predicate Describes<F>(c: Ctx<F>, m: Memory<F>) {
    MemoryOk(m) && |c.on| == NFUN && c.varSet == m.varSet && (forall v :: v in c.varSet ==> v < 26)
    && forall j :: 0 <= j < NFUN ==> c.on[j] == m.fn[j].on
  }

  lemma {:induction false} NotBlank(t: Text, rest: string)
    requires Split(t, rest)
    ensures Head(Trim(Put(t, rest))) != NUL
    decreases t
  {
    hide Trim, IsAtom, FirstWord;
    match t
    case Atomic(g, tok, l) =>
      AtomStarts(tok, rest, l);
      TrimToken(g, tok + rest);
    case Call(g, name, _, g1, a, g2) => TrimToken(g, name + Gap(g1, "(" + Put(a, Gap(g2, ")" + rest))));
    case Curve(g, y, k, a, g2) => TrimToken(g, [y] + ([GraphDigit(k)] + ("(" + Put(a, Gap(g2, ")" + rest)))));
    case Group(g, a, g2) => TrimToken(g, "(" + Put(a, Gap(g2, ")" + rest)));
    case Signed(g, minus, a) => TrimToken(g, (if minus then "-" else "+") + Put(a, rest));
    case Bang(a, g) => NotBlank(a, Gap(g, "!" + rest));
    case Infix(o, a, g, b) => NotBlank(a, Gap(g, Sign(o) + Put(b, rest)));
    case Beside(a, b) => NotBlank(a, Put(b, rest));
  }

  lemma NothingLeft(g: nat)
    ensures Stops(Gap(g, ""), 0) && Trim(Gap(g, "")) == ""
  {
    TrimGap(g, "");
  }

  lemma StartIsGood<F>(c: Ctx<F>, s: string)
    requires |c.on| == NFUN && forall v :: v in c.varSet ==> v < 26
    ensures Good(c, Start(s)) && Started<F>(Start(s))
  {
  }

  /** compile, once the expression is read to the end of the line. */
  lemma WholeLine<F>(c: Ctx<F>, s: string)
    requires |c.on| == NFUN && forall v :: v in c.varSet ==> v < 26
    requires Head(Trim(s)) != NUL && Good(c, Start(Trim(s)))
    requires var r := PExpr(c, Start(Trim(s))); r.err.None? ==> Trim(r.rest) == ""
    ensures var r := PExpr(c, Start(Trim(s))); Compile(c, s) == Compiled(r.prog, r.err, r.usesX)
  {
    hide Good, PExpr, Trim;
  }

  /** A line that is the text of a tree compiles exactly when the tree is within the limits, and then to
      its code. */
  lemma TextCompiles<F>(c: Ctx<F>, s: string, t: Text, g: nat)
    requires |c.on| == NFUN && (forall v :: v in c.varSet ==> v < 26) && IsLine(c, s, t, g)
    ensures var r := Compile(c, s);
      (r.err.None? <==> WithinLimits(Tree(t)))
      && (r.err.None? ==> r.prog == Prog(Code(Tree(t), 0), Consts(c.fl, Tree(t))) && (r.usesX <==> UsesX(Tree(t))))
  {
    hide Do, PExpr, Put, Trim, Code, Consts, Split, Grammatical, Good, Compile, Stops, Size, Nums, Peak, Sayable;
    var rest := Gap(g, "");
    var st: PS<F> := Start(Trim(s));
    StartIsGood(c, Trim(s));
    TrimTrim(s);
    NothingLeft(g);
    NotBlank(t, rest);
    ExprParses(c, st, t, rest);
    WholeLine(c, s);
    DoEmitsCode(c, st, Tree(t));
    StartsEmpty(c, st, Tree(t));
  }

  lemma StartsEmpty<F>(c: Ctx<F>, st: PS<F>, e: Expr)
    requires Started(st) && st == Start(st.rest)
    ensures Fits(st, e) <==> WithinLimits(e)
    ensures Fits(st, e) && Grown(c, st, Do(c, st, e), e) ==>
      var d := Do(c, st, e); d.prog == Prog(Code(e, 0), Consts(c.fl, e)) && (d.usesX <==> UsesX(e))
  {
    hide Do, Code, Consts, Size, Nums, Peak;
    assert [] + Code(e, 0) == Code(e, 0) && [] + Consts(c.fl, e) == Consts(c.fl, e);
  }

  lemma SayableNames<F>(c: Ctx<F>, e: Expr)
    requires Sayable(c, e)
    ensures NamesOk(e)
  {
  }

  /** The compiler is correct.  For every line that is the text of a tree within the limits, compiling
      it and running the program gives the tree's value, whatever the float operations mean and
      whatever x is. */
  lemma CompilerIsCorrect<F>(c: Ctx<F>, m: Memory<F>, s: string, t: Text, g: nat, x: F)
    requires Describes(c, m) && IsLine(c, s, t, g) && WithinLimits(Tree(t))
    ensures var r := Compile(c, s);
      r.err.None? && ProgOk(r.prog, c.inFn) && Run(c.fl, m, r.prog, x, c.inFn) == Eval(c.fl, m, x, Tree(t))
  {
    hide Compile, RunCode, Safe, Put, Split, Grammatical, Exec, Code, Consts;
    var e := Tree(t);
    TextCompiles(c, s, t, g);
    SayableNames(c, e);
    ConstsCount(c.fl, e);
    var code, k := Code(e, 0), Consts(c.fl, e);
    assert [] + code == code;
    assert k[0..0 + Nums(e)] == k;
    CodeRuns(c.fl, m, k, x, c.inFn, [], e, 0);
    EmptyRuns(c.fl, m, k, x, c.inFn);
  }

  lemma EmptyRuns<F>(fl: Floats<F>, m: Memory<F>, k: seq<F>, x: F, graph: bool)
    requires MemoryOk(m) && Safe([], |k|, graph)
    ensures RunCode(fl, m, k, x, graph, []) == []
  {
  }

  /** Defining a graph keeps the memory sound: a stored program has no OP_Y, so running never goes more
      than one program deep. */
  lemma DefiningKeepsMemory<F>(c: Ctx<F>, m: Memory<F>, j: nat, s: string)
    requires Describes(c, m) && c.inFn && j < NFUN && Compile(c, s).err.None?
    ensures MemoryOk(m.(fn := m.fn[j := Graph(true, Compile(c, s).prog)]))
    ensures forall i :: 0 <= i < |Compile(c, s).prog.code| ==> !Compile(c, s).prog.code[i].op.OpY?
  {
    hide Compile;
    var p := Compile(c, s).prog;
    NoGraphs(p.code, |p.k|);
  }

  lemma {:induction false} NoGraphs(code: seq<Instr>, nk: nat)
    requires Safe(code, nk, true)
    ensures forall i :: 0 <= i < |code| ==> !code[i].op.OpY?
  {
    if code != [] {
      NoGraphs(code[..|code| - 1], nk);
    }
  }
}
