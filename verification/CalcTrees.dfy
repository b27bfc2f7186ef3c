/** Expression trees, their value, and the program they stand for: apps/calc.c, lines 367-376, 457-471
    and 648-708. */
module CalcTrees {
  import opened Common
  import opened CalcLang
  import opened CalcParse

  datatype Atom = Num(lit: string) | E | Pi | X | Ans | Var(v: char)
  datatype UnOp = Neg | Fact | Fn(k: nat) | Y(k: nat)
  datatype BinOp = Add | Sub | Mul | Div | Pow

  datatype Expr = Leaf(l: Atom) | Un(u: UnOp, a: Expr) | Bin(o: BinOp, a: Expr, b: Expr)

  /** A literal the calculator reads whole. */
  predicate IsNumeral(lit: string) {
    Numeral(lit).Some? && Numeral(lit).value.2 == ""
  }

  predicate AtomOk<F>(c: Ctx<F>, l: Atom) {
    match l
    case Num(lit) => IsNumeral(lit)
    case Var(v) => 'a' <= v <= 'z' && v !in "exy" && Letter(v) in c.varSet
    case _ => true
  }

  predicate UnOk<F>(c: Ctx<F>, u: UnOp) {
    match u
    case Fn(k) => k < FN_N
    case Y(k) => k < NFUN && |c.on| == NFUN && c.on[k] && !c.inFn
    case _ => true
  }

  /** A tree the line can mention: its variables are set, its graphs are on and allowed. */
  predicate Sayable<F>(c: Ctx<F>, e: Expr) {
    match e
    case Leaf(l) => AtomOk(c, l)
    case Un(u, a) => UnOk(c, u) && Sayable(c, a)
    case Bin(_, a, b) => Sayable(c, a) && Sayable(c, b)
  }

  // ---- value -------------------------------------------------------------------------------

  function LitValue<F>(fl: Floats<F>, lit: string): F {
    var n := Numeral(lit);
    if n.None? then fl.nan else NumberValue(fl, n.value.0, n.value.1)
  }

  function AtomValue<F>(fl: Floats<F>, m: Memory<F>, x: F, l: Atom): F {
    match l
    case Num(lit) => LitValue(fl, lit)
    case E => fl.e
    case Pi => fl.pi
    case X => x
    case Ans => m.ans
    case Var(v) => if 'a' <= v <= 'z' && |m.vars| == 26 then m.vars[Letter(v)] else fl.nan
  }

  function UnValue<F>(fl: Floats<F>, m: Memory<F>, u: UnOp, v: F): F
    requires MemoryOk(m)
  {
    match u
    case Neg => fl.neg(v)
    case Fact => fl.fact(v)
    case Fn(k) => fl.fn(k, v)
    case Y(k) => if k < NFUN && m.fn[k].on then Run(fl, m, m.fn[k].prog, v, true) else fl.nan
  }

  function BinValue<F>(fl: Floats<F>, o: BinOp, a: F, b: F): F {
    match o
    case Add => fl.add(a, b)
    case Sub => fl.sub(a, b)
    case Mul => fl.mul(a, b)
    case Div => if fl.isZero(b) then fl.nan else fl.div(a, b)
    case Pow => fl.pow(a, b)
  }

  /** The value of a tree, straight from its shape. */
  function Eval<F>(fl: Floats<F>, m: Memory<F>, x: F, e: Expr): F
    requires MemoryOk(m)
  {
    match e
    case Leaf(l) => AtomValue(fl, m, x, l)
    case Un(u, a) => UnValue(fl, m, u, Eval(fl, m, x, a))
    case Bin(o, a, b) => BinValue(fl, o, Eval(fl, m, x, a), Eval(fl, m, x, b))
  }

  // ---- code --------------------------------------------------------------------------------

  predicate IsConst(l: Atom) { l.Num? || l.E? || l.Pi? }

  function ConstOf<F>(fl: Floats<F>, l: Atom): F {
    match l
    case Num(lit) => LitValue(fl, lit)
    case E => fl.e
    case _ => fl.pi
  }

  function AtomOp(l: Atom, base: nat): Instr {
    match l
    case X => Instr(OpX, 0)
    case Ans => Instr(OpAns, 0)
    case Var(v) => Instr(OpVar, if 'a' <= v <= 'z' then Letter(v) else 0)
    case _ => Instr(OpNum, base)
  }

  function UnInstr(u: UnOp): Instr {
    match u
    case Neg => Instr(OpNeg, 0)
    case Fact => Instr(OpFact, 0)
    case Fn(k) => Instr(OpFn, k)
    case Y(k) => Instr(OpY, k)
  }

  function BinInstr(o: BinOp): Instr {
    match o
    case Add => Instr(OpAdd, 0)
    case Sub => Instr(OpSub, 0)
    case Mul => Instr(OpMul, 0)
    case Div => Instr(OpDiv, 0)
    case Pow => Instr(OpPow, 0)
  }

  /** The constants of a tree from left to right. */
  function Consts<F>(fl: Floats<F>, e: Expr): seq<F> {
    match e
    case Leaf(l) => if IsConst(l) then [ConstOf(fl, l)] else []
    case Un(_, a) => Consts(fl, a)
    case Bin(_, a, b) => Consts(fl, a) + Consts(fl, b)
  }

  function Nums(e: Expr): nat {
    match e
    case Leaf(l) => if IsConst(l) then 1 else 0
    case Un(_, a) => Nums(a)
    case Bin(_, a, b) => Nums(a) + Nums(b)
  }

  /** Postfix code, its constants numbered from `base`. */
  function Code(e: Expr, base: nat): (c: seq<Instr>)
    ensures |c| > 0
  {
    match e
    case Leaf(l) => [AtomOp(l, base)]
    case Un(u, a) => Code(a, base) + [UnInstr(u)]
    case Bin(o, a, b) => Code(a, base) + Code(b, base + Nums(a)) + [BinInstr(o)]
  }

  function Size(e: Expr): nat {
    match e
    case Leaf(_) => 1
    case Un(_, a) => Size(a) + 1
    case Bin(_, a, b) => Size(a) + Size(b) + 1
  }

  /** The most values on the stack at once. */
  function Peak(e: Expr): (p: nat)
    ensures p >= 1
  {
    match e
    case Leaf(_) => 1
    case Un(_, a) => Peak(a)
    case Bin(_, a, b) => if Peak(a) > 1 + Peak(b) then Peak(a) else 1 + Peak(b)
  }

  predicate UsesX(e: Expr) {
    match e
    case Leaf(l) => l.X?
    case Un(_, a) => UsesX(a)
    case Bin(_, a, b) => UsesX(a) || UsesX(b)
  }

  function DoAtom<F>(c: Ctx<F>, st: PS<F>, l: Atom): PS<F> {
    if IsConst(l) then EmitNum(st, ConstOf(c.fl, l))
    else Emit(if l.X? then st.(usesX := true) else st, AtomOp(l, 0).op, AtomOp(l, 0).arg, 1)
  }

  function DoUn<F>(st: PS<F>, u: UnOp): PS<F> {
    Emit(st, UnInstr(u).op, UnInstr(u).arg, 0)
  }

  function DoBin<F>(st: PS<F>, o: BinOp): PS<F> {
    Emit(st, BinInstr(o).op, BinInstr(o).arg, -1)
  }

  /** What the parser emits for a tree, in order. */
  function Do<F>(c: Ctx<F>, st: PS<F>, e: Expr): PS<F>
    decreases e
  {
    match e
    case Leaf(l) => DoAtom(c, st, l)
    case Un(u, a) => DoUn(Do(c, st, a), u)
    case Bin(o, a, b) => DoBin(Do(c, Do(c, st, a), b), o)
  }

  /** The limits, exactly: room for the instructions, for the constants, and on the stack. */
  predicate Fits<F>(st: PS<F>, e: Expr) {
    |st.prog.code| + Size(e) <= PROG_MAX && |st.prog.k| + Nums(e) <= KONST_MAX && st.depth + Peak(e) <= STACK_MAX
  }

  lemma {:induction false} ErrorsStick<F>(c: Ctx<F>, st: PS<F>, e: Expr)
    requires st.err.Some?
    ensures Do(c, st, e).err.Some?
    decreases e
  {
    match e
    case Leaf(_) =>
    case Un(_, a) => ErrorsStick(c, st, a);
    case Bin(_, a, b) => ErrorsStick(c, st, a); ErrorsStick(c, Do(c, st, a), b);
  }

  predicate Started<F>(st: PS<F>) {
    st.err.None? && 0 <= st.depth <= st.maxd <= STACK_MAX
    && |st.prog.code| <= PROG_MAX && |st.prog.k| <= KONST_MAX
  }

  /** d is st with the code of e on the end. */
  ghost predicate Grown<F>(c: Ctx<F>, st: PS<F>, d: PS<F>, e: Expr) {
    Started(d) && d.rest == st.rest && d.depth == st.depth + 1
    && d.prog.code == st.prog.code + Code(e, |st.prog.k|)
    && d.prog.k == st.prog.k + Consts(c.fl, e)
    && d.usesX == (st.usesX || UsesX(e))
    && |Code(e, |st.prog.k|)| == Size(e) && |Consts(c.fl, e)| == Nums(e)
  }

  /** Emitting a tree succeeds exactly when it fits, and then the program has grown by its code. */
  lemma {:induction false} DoEmitsCode<F>(c: Ctx<F>, st: PS<F>, e: Expr)
    requires Started(st)
    ensures Do(c, st, e).err.None? <==> Fits(st, e)
    ensures Fits(st, e) ==> Grown(c, st, Do(c, st, e), e)
    decreases e
  {
    match e
    case Leaf(_) =>
    case Un(u, a) =>
      DoEmitsCode(c, st, a);
      if Fits(st, a) { UnGrows(c, st, Do(c, st, a), u, a); }
    case Bin(o, a, b) =>
      var d := Do(c, st, a);
      DoEmitsCode(c, st, a);
      if Fits(st, a) {
        DoEmitsCode(c, d, b);
        if Fits(d, b) { BinGrows(c, st, d, Do(c, d, b), o, a, b); }
      } else {
        ErrorsStick(c, d, b);
      }
  }

  lemma EmitRoom<F>(st: PS<F>, op: Op, arg: nat, delta: int)
    requires Started(st) && -st.depth <= delta <= 0
    ensures var r := Emit(st, op, arg, delta);
      if |st.prog.code| == PROG_MAX then r.err.Some?
      else r == st.(prog := Prog(st.prog.code + [Instr(op, arg)], st.prog.k), depth := st.depth + delta) && Started(r)
  {
  }

  lemma UnGrows<F>(c: Ctx<F>, st: PS<F>, d: PS<F>, u: UnOp, a: Expr)
    requires Started(st) && Grown(c, st, d, a)
    ensures DoUn(d, u).err.None? <==> |st.prog.code| + Size(a) + 1 <= PROG_MAX
    ensures DoUn(d, u).err.None? ==> Grown(c, st, DoUn(d, u), Un(u, a))
  {
    hide Emit;
    EmitRoom(d, UnInstr(u).op, UnInstr(u).arg, 0);
    assert st.prog.code + Code(a, |st.prog.k|) + [UnInstr(u)] == st.prog.code + (Code(a, |st.prog.k|) + [UnInstr(u)]);
  }

  lemma BinGrows<F>(c: Ctx<F>, st: PS<F>, d: PS<F>, f: PS<F>, o: BinOp, a: Expr, b: Expr)
    requires Started(st) && Grown(c, st, d, a) && Grown(c, d, f, b)
    ensures DoBin(f, o).err.None? <==> |st.prog.code| + Size(a) + Size(b) + 1 <= PROG_MAX
    ensures DoBin(f, o).err.None? ==> Grown(c, st, DoBin(f, o), Bin(o, a, b))
  {
    hide Emit, Code, Consts, Size, Nums, UsesX, BinInstr;
    EmitRoom(f, BinInstr(o).op, BinInstr(o).arg, -1);
    BinParts(c, o, a, b, |st.prog.k|);
    Joined(st.prog.code, Code(a, |st.prog.k|), Code(b, |d.prog.k|), BinInstr(o));
    JoinedConsts(st.prog.k, Consts(c.fl, a), Consts(c.fl, b));
  }

  lemma Joined(pre: seq<Instr>, a: seq<Instr>, b: seq<Instr>, i: Instr)
    ensures pre + a + b + [i] == pre + (a + b + [i]) && |a + b + [i]| == |a| + |b| + 1
  {
  }

  lemma JoinedConsts<F>(pre: seq<F>, a: seq<F>, b: seq<F>)
    ensures pre + a + b == pre + (a + b)
  {
  }

  lemma BinParts<F>(c: Ctx<F>, o: BinOp, a: Expr, b: Expr, n: nat)
    ensures Code(Bin(o, a, b), n) == Code(a, n) + Code(b, n + Nums(a)) + [BinInstr(o)]
    ensures Consts(c.fl, Bin(o, a, b)) == Consts(c.fl, a) + Consts(c.fl, b)
    ensures Size(Bin(o, a, b)) == Size(a) + Size(b) + 1 && Nums(Bin(o, a, b)) == Nums(a) + Nums(b)
    ensures UsesX(Bin(o, a, b)) <==> UsesX(a) || UsesX(b)
  {
  }

  // ---- running the code --------------------------------------------------------------------

  predicate NamesOk(e: Expr) {
    match e
    case Leaf(l) => l.Var? ==> 'a' <= l.v <= 'z'
    case Un(_, a) => NamesOk(a)
    case Bin(_, a, b) => NamesOk(a) && NamesOk(b)
  }

  lemma {:induction false} ConstsCount<F>(fl: Floats<F>, e: Expr)
    ensures |Consts(fl, e)| == Nums(e)
  {
    match e
    case Leaf(_) =>
    case Un(_, a) => ConstsCount(fl, a);
    case Bin(_, a, b) => ConstsCount(fl, a); ConstsCount(fl, b);
  }

  /** The constants of e are in k from `base` on. */
  ghost predicate HasConsts<F>(fl: Floats<F>, k: seq<F>, e: Expr, base: nat) {
    base + Nums(e) <= |k| && k[base..base + Nums(e)] == Consts(fl, e)
  }

  lemma ConstsSplit<F>(fl: Floats<F>, k: seq<F>, o: BinOp, a: Expr, b: Expr, base: nat)
    requires HasConsts(fl, k, Bin(o, a, b), base)
    ensures HasConsts(fl, k, a, base) && HasConsts(fl, k, b, base + Nums(a))
  {
    ConstsCount(fl, a);
    ConstsCount(fl, b);
    var w := k[base..base + Nums(a) + Nums(b)];
    assert w == Consts(fl, a) + Consts(fl, b);
    assert w[..Nums(a)] == k[base..base + Nums(a)];
    assert w[Nums(a)..] == k[base + Nums(a)..base + Nums(a) + Nums(b)];
  }

  lemma RunLast<F>(fl: Floats<F>, m: Memory<F>, k: seq<F>, x: F, graph: bool, pre: seq<Instr>, op: Instr)
    requires MemoryOk(m) && Safe(pre + [op], |k|, graph)
    ensures Safe(pre, |k|, graph) && ArgOk(op, |k|, graph) && Needs(op.op) <= DepthOf(pre)
    ensures RunCode(fl, m, k, x, graph, pre + [op]) == Exec(fl, m, k, x, graph, op, RunCode(fl, m, k, x, graph, pre))
  {
    hide Exec, MemoryOk;
    SafeAppend(pre, op, |k|, graph);
    assert (pre + [op])[..|pre|] == pre;
  }

  /** Running the code of a tree after any other code pushes the tree's value, and nothing else. */
  lemma {:induction false} CodeRuns<F>(fl: Floats<F>, m: Memory<F>, k: seq<F>, x: F, graph: bool,
                                       pre: seq<Instr>, e: Expr, base: nat)
    requires MemoryOk(m) && Safe(pre + Code(e, base), |k|, graph) && HasConsts(fl, k, e, base) && NamesOk(e)
    ensures Safe(pre, |k|, graph)
    ensures RunCode(fl, m, k, x, graph, pre + Code(e, base)) == RunCode(fl, m, k, x, graph, pre) + [Eval(fl, m, x, e)]
    decreases e
  {
    hide Safe, RunCode, MemoryOk, Exec, ArgOk, HasConsts;
    match e
    case Leaf(l) =>
      RunLast(fl, m, k, x, graph, pre, AtomOp(l, base));
      AtomRuns(fl, m, k, x, graph, l, base, RunCode(fl, m, k, x, graph, pre));
    case Un(u, a) =>
      var ca := Code(a, base);
      assert pre + Code(e, base) == (pre + ca) + [UnInstr(u)];
      RunLast(fl, m, k, x, graph, pre + ca, UnInstr(u));
      assert HasConsts(fl, k, a, base) by { UnConsts(fl, k, u, a, base); }
      CodeRuns(fl, m, k, x, graph, pre, a, base);
      UnRuns(fl, m, k, x, graph, u, RunCode(fl, m, k, x, graph, pre), Eval(fl, m, x, a));
    case Bin(o, a, b) =>
      var ca, cb := Code(a, base), Code(b, base + Nums(a));
      assert pre + Code(e, base) == ((pre + ca) + cb) + [BinInstr(o)];
      RunLast(fl, m, k, x, graph, (pre + ca) + cb, BinInstr(o));
      ConstsSplit(fl, k, o, a, b, base);
      CodeRuns(fl, m, k, x, graph, pre + ca, b, base + Nums(a));
      CodeRuns(fl, m, k, x, graph, pre, a, base);
      BinRuns(fl, m, k, x, graph, o, RunCode(fl, m, k, x, graph, pre), Eval(fl, m, x, a), Eval(fl, m, x, b));
  }

  lemma UnConsts<F>(fl: Floats<F>, k: seq<F>, u: UnOp, a: Expr, base: nat)
    requires HasConsts(fl, k, Un(u, a), base)
    ensures HasConsts(fl, k, a, base)
  {
  }

  lemma AtomRuns<F>(fl: Floats<F>, m: Memory<F>, k: seq<F>, x: F, graph: bool, l: Atom, base: nat, st: seq<F>)
    requires MemoryOk(m) && ArgOk(AtomOp(l, base), |k|, graph) && HasConsts(fl, k, Leaf(l), base) && NamesOk(Leaf(l))
    ensures Exec(fl, m, k, x, graph, AtomOp(l, base), st) == st + [AtomValue(fl, m, x, l)]
  {
    assert IsConst(l) ==> k[base..base + 1][0] == k[base];
  }

  lemma UnRuns<F>(fl: Floats<F>, m: Memory<F>, k: seq<F>, x: F, graph: bool, u: UnOp, st: seq<F>, v: F)
    requires MemoryOk(m) && ArgOk(UnInstr(u), |k|, graph)
    ensures Exec(fl, m, k, x, graph, UnInstr(u), st + [v]) == st + [UnValue(fl, m, u, v)]
  {
    hide Run;
  }

  lemma BinRuns<F>(fl: Floats<F>, m: Memory<F>, k: seq<F>, x: F, graph: bool, o: BinOp, st: seq<F>, a: F, b: F)
    requires MemoryOk(m) && ArgOk(BinInstr(o), |k|, graph)
    ensures Exec(fl, m, k, x, graph, BinInstr(o), st + [a] + [b]) == st + [BinValue(fl, o, a, b)]
  {
    var s := st + [a] + [b];
    assert s[..|s| - 2] == st;
  }
}
