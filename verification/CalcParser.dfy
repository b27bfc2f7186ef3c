/** The parser as the source runs it: an index into the line, a program filled in place, and loops.
    Each method leaves the state the function of the same name in CalcParse says. */
module CalcParser {
  import opened Common
  import opened CalcLang
  import P = CalcParse

  class Parser<F(0)> {
    const c: P.Ctx<F>
    const s: string
    const code: array<Instr>
    const k: array<F>
    var i: nat
    var n: nat
    var nk: nat
    var depth: int
    var maxd: int
    var err: Option<P.Error>
    var usesX: bool

    ghost predicate Valid()
      reads this
    {
      code.Length == PROG_MAX && k.Length == KONST_MAX && n <= PROG_MAX && nk <= KONST_MAX && i <= |s|
    }

    ghost function View(): P.PS<F>
      reads this, code, k
      requires Valid()
    {
      P.PS(s[i..], Prog(code[..n], k[..nk]), depth, maxd, err, usesX)
    }

    constructor (c: P.Ctx<F>, s: string)
      ensures Valid() && fresh(code) && fresh(k) && this.c == c && this.s == s && View() == P.Start(s)
    {
      this.c, this.s := c, s;
      code := new Instr[PROG_MAX](_ => Instr(OpX, 0));
      k := new F[KONST_MAX];
      i, n, nk, depth, maxd, err, usesX := 0, 0, 0, 0, 0, None, false;
    }

    function At(j: nat): char
      requires j <= |s|
    {
      if j < |s| then s[j] else NUL
    }

    method Peek() returns (h: char)
      requires Valid()
      modifies this`i
      ensures Valid() && i >= old(i) && s[i..] == P.Trim(old(s[i..])) && h == At(i) == P.Head(s[i..])
      ensures View() == old(View()).(rest := P.Trim(old(s[i..])))
    {
      while At(i) == ' '
        invariant old(i) <= i <= |s|
        invariant P.Trim(s[i..]) == P.Trim(old(s[i..]))
        decreases |s| - i
      {
        assert s[i..][1..] == s[i + 1..];
        i := i + 1;
      }
      h := At(i);
    }

    method Fail(e: P.Error)
      requires Valid()
      modifies this`err
      ensures Valid() && View() == P.Fail(old(View()), e)
    {
      if err.None? { err := Some(e); }
    }

    method Emit(op: Op, arg: nat, delta: int)
      requires Valid()
      modifies this, code
      ensures Valid() && i == old(i) && View() == P.Emit(old(View()), op, arg, delta)
    {
      if err.Some? { return; }
      if n >= PROG_MAX {
        Fail(P.TooLong);
        return;
      }
      code[n] := Instr(op, arg);
      n := n + 1;
      assert code[..n] == old(code[..n]) + [Instr(op, arg)];
      depth := depth + delta;
      if depth > maxd { maxd := depth; }
      if maxd > STACK_MAX { Fail(P.TooDeep); }
    }

    method EmitNum(v: F)
      requires Valid()
      modifies this, code, k
      ensures Valid() && i == old(i) && View() == P.EmitNum(old(View()), v)
    {
      if nk >= KONST_MAX {
        Fail(P.TooManyNumbers);
        return;
      }
      k[nk] := v;
      nk := nk + 1;
      assert k[..nk] == old(k[..nk]) + [v];
      Emit(OpNum, nk - 1, 1);
    }

    /** The digits and the point of a number, from j on. */
    method Digits(j0: nat) returns (j: nat, m: P.Scan)
      requires j0 <= |s|
      ensures j0 <= j <= |s|
      ensures P.ScanDigits(s[j0..], P.Scan(0, 0, 0, false, false)) == (m, s[j..])
    {
      j := j0;
      var mant, nd, dexp, any, dot := 0, 0, 0, false, false;
      while true
        invariant j0 <= j <= |s| && mant >= 0 && nd >= 0
        invariant P.ScanDigits(s[j..], P.Scan(mant, nd, dexp, any, dot))
               == P.ScanDigits(s[j0..], P.Scan(0, 0, 0, false, false))
        decreases |s| - j
      {
        assert j < |s| ==> s[j..][1..] == s[j + 1..];
        if IsDigit(At(j)) {
          any := true;
          if nd < 9 {
            mant := mant * 10 + DigitVal(At(j));
            if mant != 0 { nd := nd + 1; }
            if dot { dexp := dexp - 1; }
          } else if !dot {
            dexp := dexp + 1;
          }
        } else if At(j) == '.' && !dot {
          dot := true;
        } else {
          break;
        }
        j := j + 1;
      }
      m := P.Scan(mant, nd, dexp, any, dot);
    }

    method Exponent(j0: nat) returns (j: nat, x: nat)
      requires j0 <= |s|
      ensures j0 <= j <= |s| && P.ScanExp(s[j0..], 0) == (x, s[j..])
    {
      j, x := j0, 0;
      while IsDigit(At(j))
        invariant j0 <= j <= |s|
        invariant P.ScanExp(s[j..], x) == P.ScanExp(s[j0..], 0)
        decreases |s| - j
      {
        assert s[j..][1..] == s[j + 1..];
        if x < 1000 { x := x * 10 + DigitVal(At(j)); }
        j := j + 1;
      }
    }

    method PNumber()
      requires Valid() && P.Good(c, View())
      modifies this, code, k
      ensures Valid() && View() == P.PNumber(c, old(View()))
    {
      hide P.Good, P.ScanDigits, P.ScanExp, P.EmitNum;
      var j, m := Digits(i);
      if !m.any {
        Fail(P.LoneDot);
        return;
      }
      var dexp := m.dexp;
      HeadsAfter(j);
      if Lower(At(j)) == 'e' && (IsDigit(At(j + 1)) || (At(j + 1) in "+-" && IsDigit(At(j + 2)))) {
        var neg := At(j + 1) == '-';
        j := j + 1;
        if At(j) == '-' || At(j) == '+' { j := j + 1; }
        var x;
        j, x := Exponent(j);
        dexp := if neg then dexp - x else dexp + x;
      }
      i := j;
      EmitNum(P.NumberValue(c.fl, m.mant, dexp));
    }

    lemma HeadsAfter(j: nat)
      requires j <= |s|
      ensures P.Head(s[j..]) == At(j)
      ensures j < |s| ==> s[j..][1..] == s[j + 1..] && P.Head(s[j + 1..]) == At(j + 1) && At(j) == s[j]
      ensures j + 1 < |s| ==> s[j..][2..] == s[j + 2..] && P.Head(s[j + 2..]) == At(j + 2) && s[j..][1] == At(j + 1)
    {
    }

    /** Whether the letters at i are the word w; `run` is how many letters there are. */
    method IsWord(w: string, run: nat) returns (ok: bool)
      requires i <= |s| && run == P.RunLength(s[i..])
      ensures ok == P.Matches(s[i..], w)
    {
      if |w| > run { return false; }
      var j := 0;
      while j < |w| && Lower(s[i + j]) == w[j]
        invariant 0 <= j <= |w|
        invariant forall a :: 0 <= a < j ==> Lower(s[i..][a]) == w[a]
      {
        j := j + 1;
      }
      ok := j == |w|;
      assert j < |w| ==> Lower(s[i..][j]) != w[j];
    }

    method CountLetters() returns (run: nat)
      requires i <= |s|
      ensures i + run <= |s| && run == P.RunLength(s[i..])
    {
      run := 0;
      assert s[i + 0..] == s[i..];
      while P.IsAlpha(At(i + run))
        invariant i + run <= |s|
        invariant P.RunLength(s[i..]) == run + P.RunLength(s[i + run..])
        decreases |s| - i - run
      {
        assert s[i + run..][1..] == s[i + run + 1..];
        run := run + 1;
      }
    }

    /** The word at i and its length: the greedy part of p_name. */
    method Word() returns (best: nat, w: P.Word)
      requires i <= |s| && P.IsAlpha(At(i))
      ensures P.IsAlpha(P.Head(s[i..])) && (best, w) == P.FirstWord(s[i..])
    {
      hide P.RunLength;
      var run := CountLetters();
      var what := 0;
      best := 0;
      for j := 0 to FN_N
        invariant (best, what) == P.BestFn(s[i..], j)
      {
        if |FN_NAME[j]| > run || |FN_NAME[j]| <= best {
          continue;
        }
        var ok := IsWord(FN_NAME[j], run);
        if ok { best, what := |FN_NAME[j]|, j; }
      }
      var ans := IsWord("ans", run);
      var pi := IsWord("pi", run);
      if best < 3 && ans { return 3, P.WAns; }
      if best < 2 && pi { return 2, P.WPi; }
      if best == 0 { return 1, P.WLetter(Lower(s[i])); }
      return best, P.WFn(what);
    }

    /** What every method of the grammar keeps: the index only goes forward. */
    ghost predicate Ready()
      reads this, code, k
    {
      Valid() && P.Good(c, View())
    }

    method PGroup()
      requires Ready()
      modifies this, code, k
      ensures Valid() && i >= old(i) && View() == P.PGroup(c, old(View()))
      decreases |s| - i, 7
    {
      hide P.Good, P.PExpr;
      PExpr();
      if err.Some? { return; }
      var h := Peek();
      if h != ')' {
        Fail(P.MissingClose);
        return;
      }
      Next();
    }

    /** P->i++ over a character that was just peeked at. */
    method Next()
      requires Valid() && At(i) != NUL
      modifies this`i
      ensures Valid() && i == old(i) + 1 && s[i..] == old(s[i..])[1..]
      ensures View() == old(View()).(rest := old(s[i..])[1..])
    {
      i := i + 1;
    }

    method PName()
      requires Ready() && P.IsAlpha(At(i))
      modifies this, code, k
      ensures Valid() && i >= old(i) && P.IsAlpha(P.Head(old(s[i..]))) && View() == P.PName(c, old(View()))
      decreases |s| - i, 0
    {
      hide P.Good, P.PCall, P.PGroup, P.PLetter, P.Emit, P.EmitNum, P.FirstWord;
      ghost var st := View();
      GoodFacts(st);
      var best, w := Word();
      assert s[i..][best..] == s[i + best..];
      i := i + best;
      P.GoodRest(c, st, s[i..]);
      match w {
        case WFn(fn) => PCall(fn);
        case WAns => Emit(OpAns, 0, 1);
        case WPi => EmitNum(c.fl.pi);
        case WLetter(v) => PLetter(v);
      }
    }

    /** A function's name must be followed by its argument in brackets. */
    method PCall(fn: nat)
      requires Ready() && fn < FN_N
      modifies this, code, k
      ensures Valid() && i >= old(i) && View() == P.PCall(c, old(View()), fn)
      decreases |s| - i, 8
    {
      hide P.Good, P.PGroup, P.Emit;
      ghost var st := View();
      GoodFacts(st);
      var h := Peek();
      if h != '(' {
        Fail(P.NeedsBrackets(fn));
        return;
      }
      Next();
      P.GoodRest(c, st, s[i..]);
      PGroup();
      if err.None? { Emit(OpFn, fn, 0); }
    }

    lemma GoodFacts(st: P.PS<F>)
      requires P.Good(c, st)
      ensures st.err.None? && |c.on| == NFUN
    {
      hide Safe, DepthOf;
    }

    method PLetter(v: char)
      requires Ready() && 'a' <= v <= 'z'
      modifies this, code, k
      ensures Valid() && i >= old(i) && View() == P.PLetter(c, old(View()), v)
      decreases |s| - i, 8
    {
      hide P.Good, P.PGroup, P.Emit, P.EmitNum;
      ghost var st := View();
      GoodFacts(st);
      HeadsAfter(i);
      if v == 'e' {
        EmitNum(c.fl.e);
      } else if v == 'x' {
        usesX := true;
        Emit(OpX, 0, 1);
      } else if v == 'y' {
        var h := At(i);
        if '1' <= h <= '4' && At(i + 1) == '(' {
          var g := h as int - '1' as int;
          if c.inFn {
            Fail(P.GraphInGraph);
          } else if !c.on[g] {
            Fail(P.NotDefined(g));
          } else {
            assert s[i..][2..] == s[i + 2..];
            i := i + 2;
            P.GoodRest(c, st, s[i..]);
            PGroup();
            if err.None? { Emit(OpY, g, 0); }
          }
        } else {
          Fail(P.YIsForGraphs);
        }
      } else if P.Letter(v) !in c.varSet {
        Fail(P.NotSet(P.Letter(v)));
      } else {
        Emit(OpVar, P.Letter(v), 1);
      }
    }

    method PPrimary()
      requires Ready()
      modifies this, code, k
      ensures Valid() && i >= old(i) && View() == P.PPrimary(c, old(View()))
      decreases |s| - i, 1
    {
      hide P.Good, P.PGroup, P.PName, P.PNumber;
      ghost var st := View();
      GoodFacts(st);
      var h := Peek();
      P.GoodRest(c, st, s[i..]);
      if IsDigit(h) || h == '.' {
        NumberForward(View());
        PNumber();
      } else if h == '(' {
        Next();
        P.GoodRest(c, st, s[i..]);
        PGroup();
      } else if P.IsAlpha(h) {
        PName();
      } else if h == NUL {
        Fail(P.Unfinished);
      } else if h == ')' {
        Fail(P.UnexpectedClose);
      } else {
        Fail(P.Unexpected(h));
      }
    }

    lemma NumberForward(st: P.PS<F>)
      requires P.Good(c, st)
      ensures |P.PNumber(c, st).rest| <= |st.rest|
    {
    }

    method PPower()
      requires Ready()
      modifies this, code, k
      ensures Valid() && i >= old(i) && View() == P.PPower(c, old(View()))
      decreases |s| - i, 2
    {
      hide P.Good, P.PPrimary, P.PUnary, P.Emit;
      ghost var st := View();
      P.GoodDepth(c, st);
      PPrimary();
      PBangs();
      if err.Some? { return; }
      ghost var mid := View();
      var h := Peek();
      if h == '^' {
        P.GoodRest(c, mid, s[i..][1..]);
        Next();
        PUnary();
        if err.None? { Emit(OpPow, 0, -1); }
      }
    }

    /** The loop over the factorials, and the peek that ends it. */
    method PBangs()
      requires Valid() && (err.None? ==> P.Good(c, View()) && depth >= 1)
      modifies this, code, k
      ensures Valid() && i >= old(i) && View() == P.Bangs(c, old(View()))
    {
      hide P.Good, P.Emit;
      if err.Some? { return; }
      ghost var st := View();
      var h := Peek();
      P.GoodRest(c, st, s[i..]);
      while err.None? && h == '!'
        invariant Valid() && i >= old(i)
        invariant err.None? ==> P.Good(c, View()) && depth >= 1
        invariant P.Bangs(c, View()) == P.Bangs(c, st)
        invariant err.None? ==> h == At(i) && s[i..] == P.Trim(s[i..])
        decreases |s| - i
      {
        h := Bang();
      }
    }

    /** One of them, and the next character. */
    method Bang() returns (h: char)
      requires Ready() && depth >= 1 && At(i) == '!' && s[i..] == P.Trim(s[i..])
      modifies this, code, k
      ensures Valid() && i > old(i)
      ensures err.None? ==> P.Good(c, View()) && depth >= 1 && h == At(i) && s[i..] == P.Trim(s[i..])
      ensures P.Bangs(c, View()) == P.Bangs(c, old(View()))
    {
      hide P.Good, P.Emit, P.Trim;
      ghost var before := View();
      assert P.Head(before.rest) == '!';
      GoodFacts(before);
      Next();
      P.GoodRest(c, before, s[i..]);
      P.EmitGood(c, View(), OpFact, 0);
      Emit(OpFact, 0, 0);
      assert P.Bangs(c, before) == P.Bangs(c, View());
      h := '!';
      if err.None? {
        ghost var mid := View();
        h := Peek();
        P.GoodRest(c, mid, s[i..]);
        SkipIsFine(mid);
      }
    }

    /** Skipping spaces first changes nothing for the loop over the factorials. */
    lemma SkipIsFine(st: P.PS<F>)
      requires P.Good(c, st) && st.depth >= 1
      ensures P.Good(c, st.(rest := P.Trim(st.rest)))
      ensures P.Bangs(c, st.(rest := P.Trim(st.rest))) == P.Bangs(c, st)
      ensures P.Trim(P.Trim(st.rest)) == P.Trim(st.rest)
    {
      hide P.Emit, Safe, DepthOf;
    }

    method PUnary()
      requires Ready()
      modifies this, code, k
      ensures Valid() && i >= old(i) && View() == P.PUnary(c, old(View()))
      decreases |s| - i, 3
    {
      hide P.Good, P.PPower, P.Emit;
      ghost var st := View();
      var h := Peek();
      P.GoodRest(c, st, s[i..]);
      if h == '-' {
        P.GoodRest(c, st, s[i..][1..]);
        Next();
        PUnary();
        if err.None? { Emit(OpNeg, 0, 0); }
      } else if h == '+' {
        P.GoodRest(c, st, s[i..][1..]);
        Next();
        PUnary();
      } else {
        PPower();
      }
    }

    method PTerm()
      requires Ready()
      modifies this, code, k
      ensures Valid() && i >= old(i) && View() == P.PTerm(c, old(View()))
      decreases |s| - i, 5
    {
      hide P.Good, P.PUnary, P.TermRest;
      ghost var st, d := View(), depth;
      P.GoodDepth(c, st);
      PUnary();
      var more := true;
      while more && err.None?
        invariant Valid() && i >= old(i)
        invariant err.None? ==> P.Good(c, View()) && depth == d + 1
        invariant if more then P.TermRest(c, d, View()) == P.PTerm(c, st) else View() == P.PTerm(c, st)
        decreases more && err.None?, |s| - i
      {
        if i == old(i) { Forward(st); }
        more := TermStep(d);
      }
      if more { TermFailed(d, View()); }
    }

    lemma Forward(st: P.PS<F>)
      requires P.Good(c, st)
      ensures P.PUnary(c, st).err.None? ==> |P.PUnary(c, st).rest| < |st.rest|
    {
      hide P.PUnary;
    }

    lemma TermFailed(d: int, st: P.PS<F>)
      requires st.err.Some?
      ensures P.TermRest(c, d, st) == st
    {
    }

    /** One turn of p_term's loop: whether there was another factor. */
    method TermStep(ghost d: int) returns (more: bool)
      requires Ready() && depth == d + 1 && d >= 0
      modifies this, code, k
      ensures Valid() && i >= old(i) && (more && err.None? ==> i > old(i))
      ensures err.None? ==> P.Good(c, View()) && depth == d + 1
      ensures if more then P.TermRest(c, d, View()) == P.TermRest(c, d, old(View()))
              else View() == P.TermRest(c, d, old(View()))
      decreases |s| - i, 4
    {
      hide P.Good, P.PUnary, P.PPower, P.Emit, P.Trim;
      ghost var was := View();
      GoodFacts(was);
      var h := Peek();
      P.GoodRest(c, was, s[i..]);
      if h == '*' || h == '/' {
        P.GoodRest(c, was, s[i..][1..]);
        Next();
        PUnary();
        EmitBinary(if h == '*' then OpMul else OpDiv, d);
        if err.Some? { TermFailed(d, View()); }
        return true;
      }
      if IsDigit(h) || h == '.' {
        Fail(P.MissingOperator);
        return false;
      }
      if P.IsAlpha(h) || h == '(' {
        PPower();
        EmitBinary(OpMul, d);
        if err.Some? { TermFailed(d, View()); }
        return true;
      }
      return false;
    }

    /** emit of a binary operator, which does nothing after an error. */
    method EmitBinary(op: Op, ghost d: int)
      requires Valid() && Needs(op) == 2 && d >= 0 && (err.None? ==> P.Good(c, View()) && depth == d + 2)
      modifies this, code
      ensures Valid() && i == old(i)
      ensures View() == if old(err).Some? then old(View()) else P.Emit(old(View()), op, 0, -1)
      ensures err.None? ==> P.Good(c, View()) && depth == d + 1
    {
      hide P.Good, P.Emit;
      if err.None? { P.EmitGood(c, View(), op, 0); }
      ghost var was := View();
      Emit(op, 0, -1);
      StaysFailed(was, op);
    }

    lemma StaysFailed(st: P.PS<F>, op: Op)
      ensures st.err.Some? ==> P.Emit(st, op, 0, -1) == st
    {
    }

    method PExpr()
      requires Ready()
      modifies this, code, k
      ensures Valid() && i >= old(i) && View() == P.PExpr(c, old(View()))
      decreases |s| - i, 6
    {
      hide P.Good, P.PTerm, P.ExprRest;
      ghost var st, d := View(), depth;
      P.GoodDepth(c, st);
      PTerm();
      var more := true;
      while more && err.None?
        invariant Valid() && i >= old(i)
        invariant err.None? ==> P.Good(c, View()) && depth == d + 1
        invariant if more then P.ExprRest(c, d, View()) == P.PExpr(c, st) else View() == P.PExpr(c, st)
        decreases more && err.None?, |s| - i
      {
        if i == old(i) { ForwardTerm(st); }
        more := ExprStep(d);
      }
      if more { ExprFailed(d, View()); }
    }

    lemma ForwardTerm(st: P.PS<F>)
      requires P.Good(c, st)
      ensures P.PTerm(c, st).err.None? ==> |P.PTerm(c, st).rest| < |st.rest|
    {
      hide P.PTerm;
    }

    lemma ExprFailed(d: int, st: P.PS<F>)
      requires st.err.Some?
      ensures P.ExprRest(c, d, st) == st
    {
    }

    /** One turn of p_expr's loop: whether there was another term. */
    method ExprStep(ghost d: int) returns (more: bool)
      requires Ready() && depth == d + 1 && d >= 0
      modifies this, code, k
      ensures Valid() && i >= old(i) && (more && err.None? ==> i > old(i))
      ensures err.None? ==> P.Good(c, View()) && depth == d + 1
      ensures if more then P.ExprRest(c, d, View()) == P.ExprRest(c, d, old(View()))
              else View() == P.ExprRest(c, d, old(View()))
      decreases |s| - i, 5
    {
      hide P.Good, P.PTerm, P.Emit;
      ghost var was := View();
      GoodFacts(was);
      var h := Peek();
      P.GoodRest(c, was, s[i..]);
      if h != '+' && h != '-' { return false; }
      P.GoodRest(c, was, s[i..][1..]);
      Next();
      PTerm();
      EmitBinary(if h == '+' then OpAdd else OpSub, d);
      if err.Some? { ExprFailed(d, View()); }
      return true;
    }
  }

  lemma StartIsGood<F>(c: P.Ctx<F>, t: string)
    requires |c.on| == NFUN && forall v :: v in c.varSet ==> v < 26
    ensures P.Good(c, P.Start(t))
  {
  }

  /** compile. */
  method Compile<F(0)>(c: P.Ctx<F>, s: string) returns (r: P.Compiled<F>)
    requires |c.on| == NFUN && forall v :: v in c.varSet ==> v < 26
    ensures r == P.Compile(c, s)
  {
    hide P.PExpr, P.Trim, P.Good;
    var p := new Parser<F>(c, s);
    assert s[0..] == s;
    var h := p.Peek();
    StartIsGood(c, P.Trim(s));
    if h == NUL { return P.Compiled(Prog([], []), Some(P.NothingToDo), false); }
    p.PExpr();
    var prog := Prog(p.code[..p.n], p.k[..p.nk]);
    if p.err.Some? { return P.Compiled(prog, p.err, p.usesX); }
    h := p.Peek();
    if h == NUL { return P.Compiled(prog, None, p.usesX); }
    var e := if h == ')' then P.UnexpectedClose else if h == '=' then P.OnlyOneEquals else P.Unexpected(h);
    return P.Compiled(prog, Some(e), p.usesX);
  }
}
