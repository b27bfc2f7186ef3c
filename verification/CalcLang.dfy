/** The calculator's programs and what running one means: apps/calc.c, lines 377-430 and 648-675.

    Float arithmetic is left open: `Floats` holds a meaning for every operation, and everything here
    and in the parser is proved for all of them. */
module CalcLang {

  const FN_N: nat := 14
  const NFUN: nat := 4
  const PROG_MAX: nat := 64
  const KONST_MAX: nat := 16
  const STACK_MAX: nat := 16

  const FN_NAME: seq<string> := [
    "sin", "cos", "tan", "asin", "acos", "atan", "sqrt", "abs", "ln", "log", "exp", "floor", "ceil", "round"]

  /** A meaning for the float operations.  `scale(m, k)` is m times ten to the k. */
  datatype Floats<!F> = Floats(
    scale: (int, int) -> F, inf: F, nan: F, pi: F, e: F,
    isZero: F -> bool, neg: F -> F, fact: F -> F, fn: (nat, F) -> F,
    add: (F, F) -> F, sub: (F, F) -> F, mul: (F, F) -> F, div: (F, F) -> F, pow: (F, F) -> F)

  datatype Op = OpNum | OpX | OpVar | OpAns | OpNeg | OpAdd | OpSub | OpMul | OpDiv | OpPow | OpFact | OpFn | OpY

  datatype Instr = Instr(op: Op, arg: nat)

  datatype Prog<F> = Prog(code: seq<Instr>, k: seq<F>)

  /** A stored graph: whether it is on, and its program. */
  datatype Graph<F> = Graph(on: bool, prog: Prog<F>)

  /** The calculator's memory: the 26 variables and which are set, the last answer, the graphs. */
  datatype Memory<F> = Memory(vars: seq<F>, varSet: set<nat>, ans: F, fn: seq<Graph<F>>)

  // ---- stack discipline --------------------------------------------------------------------

  /** How many values an instruction takes, and how it changes the depth. */
  function Needs(op: Op): nat {
    match op
    case OpNum | OpX | OpVar | OpAns => 0
    case OpNeg | OpFact | OpFn | OpY => 1
    case _ => 2
  }

  function Delta(op: Op): int { 1 - Needs(op) as int }

  function DepthOf(code: seq<Instr>): int {
    if code == [] then 0 else DepthOf(code[..|code| - 1]) + Delta(code[|code| - 1].op)
  }

  predicate ArgOk(i: Instr, nk: nat, graph: bool) {
    match i.op
    case OpNum => i.arg < nk
    case OpVar => i.arg < 26
    case OpFn => i.arg < FN_N
    case OpY => !graph && i.arg < NFUN
    case _ => true
  }

  /** Running the code never takes from an empty stack, never holds more than STACK_MAX values and
      never reaches outside the constants, variables, functions or graphs. */
  predicate Safe(code: seq<Instr>, nk: nat, graph: bool) {
    code == []
    || var init, last := code[..|code| - 1], code[|code| - 1];
       Safe(init, nk, graph) && Needs(last.op) <= DepthOf(init) && DepthOf(code) <= STACK_MAX && ArgOk(last, nk, graph)
  }

  lemma SafeAppend(code: seq<Instr>, i: Instr, nk: nat, graph: bool)
    ensures DepthOf(code + [i]) == DepthOf(code) + Delta(i.op)
    ensures Safe(code + [i], nk, graph)
       <==> Safe(code, nk, graph) && Needs(i.op) <= DepthOf(code) && DepthOf(code + [i]) <= STACK_MAX
            && ArgOk(i, nk, graph)
  {
    assert (code + [i])[..|code|] == code;
  }

  lemma {:induction false} SafeMoreConstants(code: seq<Instr>, nk: nat, nk': nat, graph: bool)
    requires Safe(code, nk, graph) && nk <= nk'
    ensures Safe(code, nk', graph)
  {
    if code != [] {
      SafeMoreConstants(code[..|code| - 1], nk, nk', graph);
    }
  }

  lemma {:induction false} SafePrefix(code: seq<Instr>, n: nat, nk: nat, graph: bool)
    requires Safe(code, nk, graph) && n <= |code|
    ensures Safe(code[..n], nk, graph)
  {
    if n == |code| {
      assert code[..n] == code;
    } else {
      SafePrefix(code[..|code| - 1], n, nk, graph);
      assert code[..|code| - 1][..n] == code[..n];
    }
  }

  /** A whole program: safe, within the limits, and leaving exactly one value. */
  predicate ProgOk<F>(p: Prog<F>, graph: bool) {
    |p.code| <= PROG_MAX && |p.k| <= KONST_MAX && Safe(p.code, |p.k|, graph) && DepthOf(p.code) == 1
  }

  predicate MemoryOk<F>(m: Memory<F>) {
    |m.vars| == 26 && |m.fn| == NFUN && forall j :: 0 <= j < NFUN && m.fn[j].on ==> ProgOk(m.fn[j].prog, true)
  }

  // ---- running -----------------------------------------------------------------------------

  /** What an instruction leaves on the stack; `graph` says we are inside a stored graph already. */
  function Exec<F>(fl: Floats<F>, m: Memory<F>, k: seq<F>, x: F, graph: bool, i: Instr, st: seq<F>): (r: seq<F>)
    requires MemoryOk(m) && ArgOk(i, |k|, graph) && Needs(i.op) <= |st|
    ensures |r| == |st| + Delta(i.op)
    decreases !graph, 0
  {
    var n := |st|;
    match i.op
    case OpNum => st + [k[i.arg]]
    case OpX => st + [x]
    case OpVar => st + [m.vars[i.arg]]
    case OpAns => st + [m.ans]
    case OpNeg => st[n - 1 := fl.neg(st[n - 1])]
    case OpFact => st[n - 1 := fl.fact(st[n - 1])]
    case OpFn => st[n - 1 := fl.fn(i.arg, st[n - 1])]
    case OpY => st[n - 1 := if m.fn[i.arg].on then Run(fl, m, m.fn[i.arg].prog, st[n - 1], true) else fl.nan]
    case _ => st[..n - 2] + [Binary(fl, i.op, st[n - 2], st[n - 1])]
  }

  function Binary<F>(fl: Floats<F>, op: Op, a: F, b: F): F {
    match op
    case OpAdd => fl.add(a, b)
    case OpSub => fl.sub(a, b)
    case OpMul => fl.mul(a, b)
    case OpDiv => if fl.isZero(b) then fl.nan else fl.div(a, b)
    case _ => fl.pow(a, b)
  }

  function RunCode<F>(fl: Floats<F>, m: Memory<F>, k: seq<F>, x: F, graph: bool, code: seq<Instr>): (st: seq<F>)
    requires MemoryOk(m) && Safe(code, |k|, graph)
    ensures |st| == DepthOf(code)
    decreases !graph, 1, |code|
  {
    if code == [] then []
    else Exec(fl, m, k, x, graph, code[|code| - 1], RunCode(fl, m, k, x, graph, code[..|code| - 1]))
  }

  /** run: a graph's program has no OP_Y, so a program runs another at most one level down. */
  function Run<F>(fl: Floats<F>, m: Memory<F>, p: Prog<F>, x: F, graph: bool): F
    requires MemoryOk(m) && ProgOk(p, graph)
    decreases !graph, 2
  {
    RunCode(fl, m, p.k, x, graph, p.code)[0]
  }

  /** run, on the array of STACK_MAX + 1 the source keeps its values in. */
  method RunMachine<F(0)>(fl: Floats<F>, m: Memory<F>, p: Prog<F>, x: F, graph: bool) returns (v: F)
    requires MemoryOk(m) && ProgOk(p, graph)
    ensures v == Run(fl, m, p, x, graph)
    decreases !graph, 1
  {
    hide Safe, ProgOk, RunCode, Exec;
    var st := new F[STACK_MAX + 1];
    var sp := 0;
    RunStart(fl, m, p, x, graph);
    for i := 0 to |p.code|
      invariant Safe(p.code[..i], |p.k|, graph)
      invariant 0 <= sp <= STACK_MAX && st[..sp] == RunCode(fl, m, p.k, x, graph, p.code[..i])
    {
      RunNext(fl, m, p, x, graph, i);
      sp := StepMachine(fl, m, p.k, x, graph, p.code[i], st, sp);
    }
    assert p.code[..|p.code|] == p.code;
    RunEnd(fl, m, p, x, graph);
    v := if sp > 0 then st[0] else fl.nan;
  }

  /** The body of run's loop: one instruction on the array. */
  method StepMachine<F(0)>(fl: Floats<F>, m: Memory<F>, k: seq<F>, x: F, graph: bool, ins: Instr,
                           st: array<F>, sp: nat) returns (n: nat)
    requires MemoryOk(m) && ArgOk(ins, |k|, graph) && Needs(ins.op) <= sp
    requires sp + Delta(ins.op) <= STACK_MAX && sp <= STACK_MAX && st.Length == STACK_MAX + 1
    requires ins.op.OpY? && m.fn[ins.arg].on ==> ProgOk(m.fn[ins.arg].prog, true)
    modifies st
    ensures n == sp + Delta(ins.op) && st[..n] == Exec(fl, m, k, x, graph, ins, old(st[..sp]))
    decreases !graph, 0
  {
    hide ProgOk, Run, Binary, Safe;
    ghost var was := st[..sp];
    if Needs(ins.op) == 2 {
      n := sp - 1;
      var b := st[n];
      st[n - 1] := Binary(fl, ins.op, st[n - 1], b);
      assert st[..n - 1] == was[..n - 1];
      assert st[..n] == st[..n - 1] + [st[n - 1]];
    } else if ins.op.OpY? {
      n := sp;
      if m.fn[ins.arg].on {
        var y := RunMachine(fl, m, m.fn[ins.arg].prog, st[n - 1], true);
        st[n - 1] := y;
      } else {
        st[n - 1] := fl.nan;
      }
      assert st[..n - 1] == was[..n - 1];
    } else if Needs(ins.op) == 1 {
      n := sp;
      st[n - 1] := if ins.op.OpNeg? then fl.neg(st[n - 1])
                   else if ins.op.OpFact? then fl.fact(st[n - 1])
                   else fl.fn(ins.arg, st[n - 1]);
      assert st[..n - 1] == was[..n - 1];
    } else {
      st[sp] := if ins.op.OpNum? then k[ins.arg]
                else if ins.op.OpX? then x
                else if ins.op.OpVar? then m.vars[ins.arg]
                else m.ans;
      n := sp + 1;
      assert st[..n] == st[..sp] + [st[sp]];
    }
  }

  lemma RunStart<F>(fl: Floats<F>, m: Memory<F>, p: Prog<F>, x: F, graph: bool)
    requires MemoryOk(m) && ProgOk(p, graph)
    ensures Safe(p.code[..0], |p.k|, graph) && RunCode(fl, m, p.k, x, graph, p.code[..0]) == []
  {
  }

  lemma RunNext<F>(fl: Floats<F>, m: Memory<F>, p: Prog<F>, x: F, graph: bool, i: nat)
    requires MemoryOk(m) && ProgOk(p, graph) && i < |p.code|
    requires Safe(p.code[..i], |p.k|, graph)
    ensures Safe(p.code[..i + 1], |p.k|, graph)
    ensures ArgOk(p.code[i], |p.k|, graph) && Needs(p.code[i].op) <= DepthOf(p.code[..i])
    ensures DepthOf(p.code[..i]) + Delta(p.code[i].op) <= STACK_MAX
    ensures p.code[i].op.OpY? && m.fn[p.code[i].arg].on ==> ProgOk(m.fn[p.code[i].arg].prog, true)
    ensures RunCode(fl, m, p.k, x, graph, p.code[..i + 1])
         == Exec(fl, m, p.k, x, graph, p.code[i], RunCode(fl, m, p.k, x, graph, p.code[..i]))
  {
    hide Exec;
    SafePrefix(p.code, i + 1, |p.k|, graph);
    assert p.code[..i + 1][..i] == p.code[..i];
  }

  lemma RunEnd<F>(fl: Floats<F>, m: Memory<F>, p: Prog<F>, x: F, graph: bool)
    requires MemoryOk(m) && ProgOk(p, graph)
    ensures |RunCode(fl, m, p.k, x, graph, p.code)| == 1
    ensures Run(fl, m, p, x, graph) == RunCode(fl, m, p.k, x, graph, p.code)[0]
  {
  }
}
