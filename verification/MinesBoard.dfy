/** Minesweeper's boards as the source has them, and its recursive reveal: apps/mines.c, lines 48-66,
    77-106 and 141-184. */
module MinesBoard {
  import opened Mines

  class Sweeper {
    const mine: array2<bool>
    const shown: array2<bool>
    const flag: array2<bool>
    var dead: bool
    var won: bool
    var started: bool
    var flags: int

    ghost predicate Valid()
      reads {}
    {
      && mine.Length0 == H && mine.Length1 == W && shown.Length0 == H && shown.Length1 == W
      && flag.Length0 == H && flag.Length1 == W
      && mine != shown && shown != flag && mine != flag
    }

    ghost function Set(a: array2<bool>): (s: set<Cell>)
      requires a.Length0 == H && a.Length1 == W
      reads a
      ensures s <= Cells() && forall c :: c in s <==> InBoard(c) && a[c.y, c.x]
    {
      set c | c in Cells() && a[c.y, c.x]
    }

    ghost function View(): (b: Board)
      requires Valid()
      reads mine, shown, flag
      ensures OnBoard(b)
    {
      Board(Set(mine), Set(shown), Set(flag))
    }

    ghost function State(): Game
      requires Valid()
      reads this, mine, shown, flag
    {
      Game(View(), dead, won, started, flags)
    }

    /** app_open: a new game. */
    constructor ()
      ensures Valid() && fresh(mine) && fresh(shown) && fresh(flag) && State() == NEW_GAME
    {
      mine := new bool[H, W]((_, _) => false);
      shown := new bool[H, W]((_, _) => false);
      flag := new bool[H, W]((_, _) => false);
      dead, won, started, flags := false, false, false, 0;
    }

    /** The first k cells of the block round c. */
    static ghost function Block(c: Cell, k: nat): set<Cell>
      requires k <= 9
    {
      set j: nat | j < k :: Around(c, j)
    }

    static lemma BlockStep(c: Cell, k: nat)
      requires k < 9
      ensures Block(c, k + 1) == Block(c, k) + {Around(c, k)} && Around(c, k) !in Block(c, k)
    {
      forall j: nat | j < k ensures Around(c, j) != Around(c, k) {
        assert j == 3 * (j / 3) + j % 3 && k == 3 * (k / 3) + k % 3;
      }
    }

    /** neighbours: how many mines there are in the block round c. */
    method Neighbours(x: int, y: int) returns (n: nat)
      requires Valid() && InBoard(Cell(x, y))
      ensures n == |View().mine * Block(Cell(x, y), 9)|
    {
      hide Block, View;
      ghost var c, mines := Cell(x, y), View().mine;
      n := 0;
      NoBlock(c);
      var dy := -1;
      while dy <= 1
        invariant -1 <= dy <= 2 && n == |mines * Block(c, (dy + 1) * 3)|
      {
        var m := RowOfNeighbours(x, y, dy);
        n := n + m;
        dy := dy + 1;
      }
    }

    /** The inner of its two loops. */
    method RowOfNeighbours(x: int, y: int, dy: int) returns (n: nat)
      requires Valid() && InBoard(Cell(x, y)) && -1 <= dy <= 1
      ensures n == |View().mine * Block(Cell(x, y), (dy + 2) * 3)| - |View().mine * Block(Cell(x, y), (dy + 1) * 3)|
    {
      hide Block, Around, View;
      ghost var c, mines, from := Cell(x, y), View().mine, (dy + 1) * 3;
      n := 0;
      var dx := -1;
      while dx <= 1
        invariant -1 <= dx <= 2 && n == |mines * Block(c, from + dx + 1)| - |mines * Block(c, from)|
      {
        var nx, ny := x + dx, y + dy;
        BlockStep(c, from + dx + 1);
        AroundAt(c, dx, dy);
        OneMore(mines, Block(c, from + dx + 1), Cell(nx, ny));
        MineAt(Cell(nx, ny));
        dx := dx + 1;
        if nx < 0 || ny < 0 || nx >= W || ny >= H { continue; }
        if mine[ny, nx] { n := n + 1; }
      }
    }

    lemma MineAt(c: Cell)
      requires Valid()
      ensures c in View().mine <==> InBoard(c) && mine[c.y, c.x]
    {
    }

    lemma FlagAt(c: Cell)
      requires Valid()
      ensures c in View().flag <==> InBoard(c) && flag[c.y, c.x]
    {
    }

    lemma ShownAt(c: Cell)
      requires Valid()
      ensures c in View().shown <==> InBoard(c) && shown[c.y, c.x]
    {
    }

    static lemma NoBlock(c: Cell)
      ensures Block(c, 0) == {}
    {
    }

    static lemma AroundAt(c: Cell, dx: int, dy: int)
      requires -1 <= dx <= 1 && -1 <= dy <= 1
      ensures Around(c, (dy + 1) * 3 + dx + 1) == Cell(c.x + dx, c.y + dy)
    {
      var k := (dy + 1) * 3 + dx + 1;
      assert k / 3 == dy + 1 && k % 3 == dx + 1;
    }

    static lemma OneMore(s: set<Cell>, block: set<Cell>, d: Cell)
      requires d !in block
      ensures |s * (block + {d})| == |s * block| + if d in s then 1 else 0
    {
      if d in s {
        assert s * (block + {d}) == s * block + {d};
      } else {
        assert s * (block + {d}) == s * block;
      }
    }

    static lemma NoneAbout(b: Board, c: Cell)
      ensures |b.mine * Block(c, 9)| == 0 <==> IsZero(b, c)
    {
      forall d ensures d in Block(c, 9) <==> Touches(c, d) { AroundIsBlock(c, d); }
      if IsZero(b, c) {
        assert b.mine * Block(c, 9) == {};
      } else {
        var d :| d in b.mine && Touches(c, d);
        assert d in b.mine * Block(c, 9);
      }
    }

    /** A neighbour has been seen to: it is off the board, or flagged, or shown. */
    static predicate Seen(b: Board, d: Cell) { InBoard(d) && d !in b.flag ==> d in b.shown }

    /** reveal.  It ends because every call that goes on shows a cell. */
    method Reveal(x: int, y: int)
      requires Valid()
      modifies this`dead, shown
      ensures View() == old(View()).(shown := old(View()).shown + Flood(old(View()), Cell(x, y)))
      ensures dead == (old(dead) || (IsOpen(old(View()), Cell(x, y)) && Cell(x, y) in View().mine))
      decreases Hidden(View()), 0
    {
      hide Flood, IsZero, IsPath, Reaches;
      ghost var was, c := View(), Cell(x, y);
      if x < 0 || y < 0 || x >= W || y >= H {
        FloodOfClosed(was, c);
        return;
      }
      if shown[y, x] || flag[y, x] {
        FloodOfClosed(was, c);
        return;
      }
      shown[y, x] := true;
      ghost var now := View();
      assert now == was.(shown := was.shown + {c});
      assert Hidden(was) == Hidden(now) + {c};
      ReachesItself(was, c);
      if mine[y, x] {
        dead := true;
        FloodOfMine(was, c);
        return;
      }
      var n := Neighbours(x, y);
      NoneAbout(now, c);
      assert IsZero(now, c) == IsZero(was, c) by { ZeroIsOfMines(now, was, c); }
      if n == 0 {
        SpreadStart(was, c);
        Spread(x, y, was);
      } else {
        OneCell(was, now, c);
      }
      FloodedIsFlood(was, View().shown, c);
    }

    /** The nine calls reveal makes from a cell with no mine about it, but for the cell itself. */
    method Spread(x: int, y: int, ghost was: Board)
      requires Valid() && OnBoard(was) && IsOpen(was, Cell(x, y)) && IsZero(was, Cell(x, y))
      requires View() == was.(shown := was.shown + {Cell(x, y)})
      modifies this`dead, shown
      ensures View() == was.(shown := View().shown) && dead == old(dead)
      ensures Flooded(was, View().shown, Cell(x, y))
      decreases Hidden(View()), 1
    {
      hide Flood, IsZero, IsPath, Reaches, Around, Flooded, Spreading, View;
      ghost var c, first := Cell(x, y), View();
      SpreadStart(was, c);
      var dy := -1;
      while dy <= 1
        invariant -1 <= dy <= 2 && View() == was.(shown := View().shown) && dead == old(dead)
        invariant Spreading(was, View(), c, (dy + 1) * 3)
        modifies this`dead, shown
      {
        var dx := -1;
        while dx <= 1
          invariant -1 <= dx <= 2 && View() == was.(shown := View().shown) && dead == old(dead)
          invariant Spreading(was, View(), c, (dy + 1) * 3 + dx + 1)
          modifies this`dead, shown
        {
          ghost var before, d, k: nat := View(), Cell(x + dx, y + dy), (dy + 1) * 3 + dx + 1;
          AroundAt(c, dx, dy);
          if dx != 0 || dy != 0 {
            SpreadHas(was, before, c, k);
            NoMineBeside(was, c, d);
            assert Hidden(before) <= Hidden(first);
            Reveal(x + dx, y + dy);
            SpreadCall(was, before, View(), c, k);
          } else {
            SpreadSelf(was, before, c);
          }
          dx := dx + 1;
        }
        dy := dy + 1;
      }
      SpreadDone(was, View(), c);
    }

    /** Part of the way through those calls: what is shown is reached, the first k neighbours are seen
        to, and so are all those of every other cell shown since. */
    static ghost predicate Spreading(was: Board, now: Board, c: Cell, k: nat) {
      && was.shown + {c} <= now.shown
      && (forall d :: d in now.shown && d !in was.shown ==> Reaches(was, c, d))
      && (forall d, e ::
            d in now.shown && d !in was.shown && d != c && IsZero(was, d) && Touches(d, e) ==> Seen(now, e))
      && (forall j: nat :: j < k && k <= 9 ==> Seen(now, Around(c, j)))
    }

    static lemma SpreadStart(was: Board, c: Cell)
      requires IsOpen(was, c)
      ensures Spreading(was, was.(shown := was.shown + {c}), c, 0)
    {
      hide Reaches, Around;
      ReachesItself(was, c);
    }

    static lemma SpreadHas(was: Board, now: Board, c: Cell, k: nat)
      requires Spreading(was, now, c, k)
      ensures was.shown + {c} <= now.shown
    {
    }

    static lemma NoMineBeside(b: Board, c: Cell, d: Cell)
      requires IsZero(b, c) && Touches(c, d)
      ensures d !in b.mine
    {
    }

    static lemma SpreadSelf(was: Board, now: Board, c: Cell)
      requires Spreading(was, now, c, 4)
      ensures Spreading(was, now, c, 5)
    {
      hide Reaches, IsZero;
      assert Around(c, 4) == c;
    }

    static lemma SpreadCall(was: Board, before: Board, now: Board, c: Cell, k: nat)
      requires k < 9 && Spreading(was, before, c, k) && OnBoard(was) && before == was.(shown := before.shown)
      requires IsOpen(was, c) && IsZero(was, c) && Touches(c, Around(c, k))
      requires now == before.(shown := before.shown + Flood(before, Around(c, k)))
      ensures Spreading(was, now, c, k + 1)
    {
      hide IsPath, IsZero, Around, Reaches, Flood;
      var d := Around(c, k);
      FloodReaches(was, before, c, d);
      FloodIsClosed(before, d);
      forall e, f | e in now.shown && e !in was.shown && e != c && IsZero(was, e) && Touches(e, f)
        ensures Seen(now, f)
      {
        if e in before.shown {
          assert Seen(before, f);
        } else {
          ZeroIsOfMines(was, before, e);
        }
      }
      forall j: nat | j < k + 1 ensures Seen(now, Around(c, j)) {
        if j < k { assert Seen(before, Around(c, j)); }
      }
    }

    static lemma ZeroIsOfMines(a: Board, b: Board, c: Cell)
      requires a.mine == b.mine
      ensures IsZero(a, c) == IsZero(b, c)
    {
    }

    static lemma FloodReaches(was: Board, before: Board, c: Cell, d: Cell)
      requires IsOpen(was, c) && IsZero(was, c) && Touches(c, d)
      requires before == was.(shown := before.shown) && was.shown <= before.shown
      ensures forall e :: e in Flood(before, d) ==> Reaches(was, c, e)
    {
      hide Reaches, IsZero;
      forall e | e in Flood(before, d) ensures Reaches(was, c, e) {
        ReachesFrom(was, before, c, d, e);
      }
    }

    /** A flood has the cell it starts from, if that is open, and with a cell with no mine about it
        all its neighbours. */
    static lemma FloodIsClosed(b: Board, c: Cell)
      ensures var after := b.(shown := b.shown + Flood(b, c));
        Seen(after, c)
        && forall e, f :: e in Flood(b, c) && IsZero(b, e) && Touches(e, f) ==> Seen(after, f)
    {
      hide IsZero, IsPath, Reaches;
      if IsOpen(b, c) { ReachesItself(b, c); }
      forall e, f | e in Flood(b, c) && IsZero(b, e) && Touches(e, f) && IsOpen(b, f) ensures f in Flood(b, c) {
        Onward(b, c, e, f);
      }
    }

    static lemma Onward(b: Board, c: Cell, e: Cell, f: Cell)
      requires Reaches(b, c, e) && IsZero(b, e) && Touches(e, f) && IsOpen(b, f)
      ensures Reaches(b, c, f)
    {
      hide IsZero;
      var p :| IsPath(b, p) && p[0] == c && p[|p| - 1] == e;
      var q := p + [f];
      assert IsPath(b, q) && q[0] == c && q[|q| - 1] == f;
    }

    static lemma SpreadDone(was: Board, now: Board, c: Cell)
      requires Spreading(was, now, c, 9) && now == was.(shown := now.shown)
      ensures Flooded(was, now.shown, c)
    {
      hide IsZero, Around, Reaches;
      forall d, e | d in now.shown && d !in was.shown && IsZero(was, d) && Touches(d, e) ensures Seen(now, e) {
        if d == c {
          AroundIsBlock(c, e);
          var k: nat :| k < 9 && Around(c, k) == e;
          assert Seen(now, Around(c, k));
        }
      }
    }

    static lemma OneCell(was: Board, now: Board, c: Cell)
      requires IsOpen(was, c) && !IsZero(was, c) && now == was.(shown := was.shown + {c})
      ensures Flooded(was, now.shown, c)
    {
      hide IsZero, Reaches;
      ReachesItself(was, c);
    }

    /** check_won. */
    method CheckWon()
      requires Valid()
      modifies this`won
      ensures won == (old(won) || |Hidden(View())| == MINES)
    {
      hide Rows, View;
      ghost var s := View().shown;
      var hidden := 0;
      RowsEmpty();
      var y := 0;
      while y < H
        invariant 0 <= y <= H && won == old(won) && hidden == |Rows(y, 0) - s|
      {
        var m := HiddenInRow(y);
        RowsNext(y);
        hidden := hidden + m;
        y := y + 1;
      }
      RowsAll();
      ghost var b := View();
      assert Rows(H, 0) - s == Hidden(b);
      if hidden == MINES { won := true; }
      assert View() == b;
    }

    method HiddenInRow(y: nat) returns (n: nat)
      requires Valid() && y < H
      ensures n == |Rows(y, W) - View().shown| - |Rows(y, 0) - View().shown|
    {
      hide Rows, View;
      ghost var s := View().shown;
      n := 0;
      var x := 0;
      while x < W
        invariant 0 <= x <= W && n == |Rows(y, x) - s| - |Rows(y, 0) - s|
      {
        RowsStep(y, x);
        HiddenStep(Rows(y, x), s, Cell(x, y));
        ShownAt(Cell(x, y));
        if !shown[y, x] { n := n + 1; }
        x := x + 1;
      }
    }

    /** The cells before column x of row y. */
    static ghost function Rows(y: nat, x: nat): set<Cell> {
      set c | c in Cells() && (c.y < y || (c.y == y && c.x < x))
    }

    static lemma RowsEmpty()
      ensures Rows(0, 0) == {}
    {
    }

    static lemma RowsStep(y: nat, x: nat)
      requires y < H && x < W
      ensures Rows(y, x + 1) == Rows(y, x) + {Cell(x, y)} && Cell(x, y) !in Rows(y, x)
    {
    }

    static lemma RowsNext(y: nat)
      ensures Rows(y, W) == Rows(y + 1, 0)
    {
    }

    static lemma RowsAll()
      ensures Rows(H, 0) == Cells()
    {
    }

    static lemma HiddenStep(r: set<Cell>, s: set<Cell>, c: Cell)
      requires c !in r
      ensures |(r + {c}) - s| == |r - s| + if c in s then 0 else 1
    {
      if c in s {
        assert (r + {c}) - s == r - s;
      } else {
        assert (r + {c}) - s == (r - s) + {c};
      }
    }

    static ghost function SetOf(s: seq<Cell>): set<Cell> { set c | c in s }

    /** dig; `laid` says where lay puts the mines, should it be called. */
    method DigAt(x: int, y: int, laid: seq<Cell>)
      requires Valid() && (!started ==> View().mine == {})
      requires Laid(SetOf(laid), Cell(x, y))
      modifies this, mine, shown
      ensures State() == Dig(old(State()), Cell(x, y), SetOf(laid))
    {
      hide Flood, IsOpen, View, Laid;
      ghost var c := Cell(x, y);
      if dead || won { return; }
      if x < 0 || y < 0 || x >= W || y >= H { return; }
      FlagAt(c);
      if flag[y, x] { return; }
      if !started {
        LaidOnBoard(laid, c);
        Lay(laid);
      }
      Reveal(x, y);
      if !dead { CheckWon(); }
    }

    static lemma LaidOnBoard(laid: seq<Cell>, c: Cell)
      requires Laid(SetOf(laid), c)
      ensures forall d :: d in laid ==> InBoard(d)
    {
      forall d | d in laid ensures InBoard(d) { assert d in SetOf(laid) && d in Cells(); }
    }

    method Lay(laid: seq<Cell>)
      requires Valid() && View().mine == {} && forall c :: c in laid ==> InBoard(c)
      modifies this`started, mine
      ensures started && View() == old(View()).(mine := SetOf(laid))
    {
      for i := 0 to |laid|
        invariant View() == old(View()).(mine := SetOf(laid[..i]))
        modifies mine
      {
        assert laid[i] in laid;
        mine[laid[i].y, laid[i].x] := true;
        assert laid[..i + 1] == laid[..i] + [laid[i]];
      }
      assert laid[..|laid|] == laid;
      started := true;
    }

    method ToggleFlagAt(x: int, y: int)
      requires Valid()
      modifies this`flags, flag
      ensures State() == ToggleFlag(old(State()), Cell(x, y))
    {
      if dead || won { return; }
      if x < 0 || y < 0 || x >= W || y >= H { return; }
      if shown[y, x] { return; }
      flag[y, x] := !flag[y, x];
      flags := flags + if flag[y, x] then 1 else -1;
    }
  }
}
