/** Minesweeper's flood and its game: apps/mines.c, lines 77-106 and 141-184. */
module Mines {

  const W: nat := 9
  const H: nat := 9
  const MINES: nat := 10

  datatype Cell = Cell(x: int, y: int)

  predicate InBoard(c: Cell) { 0 <= c.x < W && 0 <= c.y < H }

  function Cells(): set<Cell> {
    set x, y | 0 <= x < W && 0 <= y < H :: Cell(x, y)
  }

  lemma CellsAreBoard(c: Cell)
    ensures c in Cells() <==> InBoard(c)
  {
  }

  /** The board is nine cells by nine. */
  lemma NineByNine()
    ensures |Cells()| == 81
  {
    RowsOf(9);
    assert Cells() == Rows(9);
  }

  function Row(y: int, n: nat): set<Cell> { set x: int | 0 <= x < n :: Cell(x, y) }
  function Rows(n: nat): set<Cell> { set x: int, y: int | 0 <= x < 9 && 0 <= y < n :: Cell(x, y) }

  lemma {:induction false} RowOf(y: int, n: nat)
    ensures |Row(y, n)| == n
  {
    if n == 0 {
      assert Row(y, 0) == {};
    } else {
      RowOf(y, n - 1);
      assert Row(y, n) == Row(y, n - 1) + {Cell(n - 1, y)};
    }
  }

  lemma {:induction false} RowsOf(n: nat)
    ensures |Rows(n)| == 9 * n
  {
    if n == 0 {
      assert Rows(0) == {};
    } else {
      RowsOf(n - 1);
      RowOf(n - 1, 9);
      assert Rows(n) == Rows(n - 1) + Row(n - 1, 9) && Rows(n - 1) !! Row(n - 1, 9);
    }
  }

  /** The kth of the nine cells of the block round c, row by row; the fourth is c itself. */
  function Around(c: Cell, k: nat): Cell {
    Cell(c.x + k % 3 - 1, c.y + k / 3 - 1)
  }

  predicate Touches(c: Cell, d: Cell) { -1 <= d.x - c.x <= 1 && -1 <= d.y - c.y <= 1 }

  lemma AroundIsBlock(c: Cell, d: Cell)
    ensures Touches(c, d) <==> exists k: nat :: k < 9 && Around(c, k) == d
  {
    if Touches(c, d) {
      var k: nat := (d.y - c.y + 1) * 3 + (d.x - c.x + 1);
      assert Around(c, k) == d;
    }
  }

  /** A position: where the mines are, what is shown, what is flagged. */
  datatype Board = Board(mine: set<Cell>, shown: set<Cell>, flag: set<Cell>)

  predicate OnBoard(b: Board) { b.mine <= Cells() && b.shown <= Cells() && b.flag <= Cells() }

  function Hidden(b: Board): set<Cell> { Cells() - b.shown }

  predicate IsOpen(b: Board, c: Cell) { InBoard(c) && c !in b.shown && c !in b.flag }

  /** No mine in the block round c, nor on c. */
  predicate IsZero(b: Board, c: Cell) {
    forall d :: d in b.mine ==> !Touches(c, d)
  }

  /** A way from one cell to another over cells neither shown nor flagged, leaving only cells with
      no mine about them. */
  predicate IsPath(b: Board, p: seq<Cell>) {
    && |p| > 0
    && (forall i :: 0 <= i < |p| ==> IsOpen(b, p[i]))
    && (forall i :: 0 <= i < |p| - 1 ==> IsZero(b, p[i]) && Touches(p[i], p[i + 1]))
  }

  ghost predicate Reaches(b: Board, c: Cell, d: Cell) {
    exists p :: IsPath(b, p) && p[0] == c && p[|p| - 1] == d
  }

  /** What a dig at c shows. */
  ghost function Flood(b: Board, c: Cell): set<Cell> {
    set d | d in Cells() && Reaches(b, c, d)
  }

  /** What a call of reveal has shown between two positions: cells reached from c and no others, c
      among them, and every neighbour of a cell with no mine about it. */
  ghost predicate Flooded(b: Board, after: set<Cell>, c: Cell) {
    && b.shown <= after
    && (forall d :: d in after && d !in b.shown ==> Reaches(b, c, d))
    && (IsOpen(b, c) ==> c in after)
    && (forall d, e ::
          d in after && d !in b.shown && IsZero(b, d) && Touches(d, e) && InBoard(e) && e !in b.flag ==> e in after)
  }

  lemma {:induction false} PathIsShown(b: Board, after: set<Cell>, p: seq<Cell>, i: nat)
    requires IsPath(b, p) && i < |p| && Flooded(b, after, p[0])
    ensures p[i] in after
  {
    hide Reaches;
    if i > 0 {
      PathIsShown(b, after, p, i - 1);
      assert IsOpen(b, p[i - 1]) && IsOpen(b, p[i]);
    }
  }

  /** So it is the flood, exactly. */
  lemma FloodedIsFlood(b: Board, after: set<Cell>, c: Cell)
    requires Flooded(b, after, c) && after <= Cells()
    ensures after == b.shown + Flood(b, c)
  {
    forall d | d in Flood(b, c) ensures d in after {
      var p :| IsPath(b, p) && p[0] == c && p[|p| - 1] == d;
      PathIsShown(b, after, p, |p| - 1);
    }
  }

  /** A cell reached from a neighbour is reached from c, and a path past cells since shown is one
      before they were. */
  lemma ReachesFrom(b: Board, v: Board, c: Cell, d: Cell, e: Cell)
    requires IsOpen(b, c) && IsZero(b, c) && Touches(c, d)
    requires v.mine == b.mine && v.flag == b.flag && b.shown <= v.shown && Reaches(v, d, e)
    ensures Reaches(b, c, e)
  {
    var p :| IsPath(v, p) && p[0] == d && p[|p| - 1] == e;
    var q := [c] + p;
    forall i | 0 <= i < |q| ensures IsOpen(b, q[i]) {
      if i > 0 { assert q[i] == p[i - 1] && IsOpen(v, p[i - 1]); }
    }
    forall i | 0 <= i < |q| - 1 ensures IsZero(b, q[i]) && Touches(q[i], q[i + 1]) {
      assert q[i + 1] == p[i];
      if i > 0 { assert q[i] == p[i - 1] && IsZero(v, p[i - 1]); }
    }
    assert IsPath(b, q) && q[|q| - 1] == e;
  }

  lemma ReachesItself(b: Board, c: Cell)
    requires IsOpen(b, c)
    ensures Reaches(b, c, c)
  {
    assert IsPath(b, [c]);
  }

  /** Digging a cell with no mine on it shows none. */
  lemma FloodHasNoMine(b: Board, c: Cell)
    requires c !in b.mine
    ensures Flood(b, c) !! b.mine
  {
    forall d | d in Flood(b, c) ensures d !in b.mine {
      var p :| IsPath(b, p) && p[0] == c && p[|p| - 1] == d;
      if |p| > 1 {
        var i := |p| - 2;
        assert IsZero(b, p[i]) && Touches(p[i], p[i + 1]);
      }
    }
  }

  lemma LeavesZero(b: Board, p: seq<Cell>)
    requires IsPath(b, p)
    ensures |p| > 1 ==> IsZero(b, p[0])
  {
  }

  /** Digging a mine shows it and nothing else. */
  lemma FloodOfMine(b: Board, c: Cell)
    requires c in b.mine && IsOpen(b, c)
    ensures Flood(b, c) == {c}
  {
    ReachesItself(b, c);
    assert Touches(c, c) && !IsZero(b, c);
    forall d | d in Flood(b, c) ensures d == c {
      var p :| IsPath(b, p) && p[0] == c && p[|p| - 1] == d;
      LeavesZero(b, p);
    }
  }

  /** Nothing is shown by digging what is shown or flagged. */
  lemma FloodOfClosed(b: Board, c: Cell)
    requires !IsOpen(b, c)
    ensures Flood(b, c) == {}
  {
    hide IsOpen, Reaches;
    forall d | d !in Flood(b, c) || Reaches(b, c, d) ensures d !in Flood(b, c) {
      if Reaches(b, c, d) { StartsOpen(b, c, d); }
    }
  }

  lemma StartsOpen(b: Board, c: Cell, d: Cell)
    requires Reaches(b, c, d)
    ensures IsOpen(b, c)
  {
    var p :| IsPath(b, p) && p[0] == c && p[|p| - 1] == d;
    assert IsOpen(b, p[0]);
  }

  // ---- the game ----------------------------------------------------------------------------

  datatype Game = Game(board: Board, dead: bool, won: bool, started: bool, flags: int)

  const NEW_GAME: Game := Game(Board({}, {}, {}), false, false, false, 0)

  /** What lay may lay: ten mines, none on the first cell dug. */
  predicate Laid(mines: set<Cell>, c: Cell) { mines <= Cells() && |mines| == MINES && c !in mines }

  /** dig; `mines` is what lay lays, should it be called. */
  ghost function Dig(g: Game, c: Cell, mines: set<Cell>): Game {
    if g.dead || g.won || !InBoard(c) || c in g.board.flag then g
    else
      var b := if g.started then g.board else g.board.(mine := mines);
      var after := b.(shown := b.shown + Flood(b, c));
      var dead := IsOpen(b, c) && c in b.mine;
      Game(after, dead, !dead && |Hidden(after)| == MINES, true, g.flags)
  }

  /** toggle_flag. */
  function ToggleFlag(g: Game, c: Cell): Game {
    if g.dead || g.won || !InBoard(c) || c in g.board.shown then g
    else if c in g.board.flag then g.(board := g.board.(flag := g.board.flag - {c}), flags := g.flags - 1)
    else g.(board := g.board.(flag := g.board.flag + {c}), flags := g.flags + 1)
  }

  datatype Move = Dug(c: Cell, mines: set<Cell>) | Flagged(c: Cell)

  ghost function Play(g: Game, m: Move): Game {
    match m
    case Dug(c, mines) => Dig(g, c, mines)
    case Flagged(c) => ToggleFlag(g, c)
  }

  ghost function PlayAll(g: Game, ms: seq<Move>): Game {
    if ms == [] then g else Play(PlayAll(g, ms[..|ms| - 1]), ms[|ms| - 1])
  }

  predicate FairMoves(ms: seq<Move>) {
    forall i :: 0 <= i < |ms| && ms[i].Dug? ==> Laid(ms[i].mines, ms[i].c)
  }

  predicate Inv(g: Game) {
    var b := g.board;
    && OnBoard(b)
    && b.flag !! b.shown
    && g.flags == |b.flag|
    && (if g.started then |b.mine| == MINES else b.mine == {} && b.shown == {} && !g.dead && !g.won)
    && (!g.dead ==> b.shown !! b.mine)
    && (g.dead ==> !g.won && |b.shown * b.mine| == 1)
    && (g.won ==> Hidden(b) == b.mine)
  }

  /** A flag goes on a hidden cell of a game that is on, and comes off again at the second time; what it does
      to no other cell, nor to anything but the flags, and a flagged cell cannot be dug. */
  lemma FlagGoesOnAndOff(g: Game, c: Cell, mines: set<Cell>)
    requires Inv(g)
    ensures var h := ToggleFlag(g, c);
      (h != g <==> !g.dead && !g.won && InBoard(c) && c !in g.board.shown)
      && (h != g ==> (c in h.board.flag <==> c !in g.board.flag) && ToggleFlag(h, c) == g)
      && (h != g ==> h.flags - g.flags == if c in h.board.flag then 1 else -1)
      && (forall d :: d != c ==> (d in h.board.flag <==> d in g.board.flag))
      && h.board.mine == g.board.mine && h.board.shown == g.board.shown
      && h.dead == g.dead && h.won == g.won && h.started == g.started
      && (c in h.board.flag ==> Dig(h, c, mines) == h)
  {
    var h := ToggleFlag(g, c);
    if h != g {
      assert c in g.board.flag ==> g.board.flag - {c} + {c} == g.board.flag;
      assert c !in g.board.flag ==> g.board.flag + {c} - {c} == g.board.flag;
    }
  }

  lemma OpenFlood(b: Board, c: Cell)
    ensures Flood(b, c) !! b.flag && Flood(b, c) !! b.shown
  {
    forall d | d in Flood(b, c) ensures IsOpen(b, d) {
      var p :| IsPath(b, p) && p[0] == c && p[|p| - 1] == d;
    }
  }

  /** Ten hidden cells, when none of the mines is shown, are the mines. */
  lemma TenHidden(b: Board)
    requires OnBoard(b) && |b.mine| == MINES && b.shown !! b.mine
    ensures |Hidden(b)| == MINES <==> Hidden(b) == b.mine
  {
    var hidden := Hidden(b);
    assert b.mine <= hidden;
    if |hidden| == MINES {
      assert hidden == b.mine + (hidden - b.mine);
      assert |hidden| == |b.mine| + |hidden - b.mine|;
    }
  }

  /** A dig, for a player who has not lost: it is fatal exactly on a hidden, unflagged mine, and it
      wins exactly when the cells then shown are those without a mine. */
  lemma DigDecides(g: Game, c: Cell, mines: set<Cell>)
    requires Inv(g) && !g.dead && !g.won && mines <= Cells() && |mines| == 10 && c !in mines
    ensures var h := Dig(g, c, mines);
      (h.dead <==> g.started && IsOpen(g.board, c) && c in g.board.mine)
      && (InBoard(c) && c !in g.board.flag ==>
            (h.won <==> !h.dead && forall d :: InBoard(d) ==> (d in h.board.shown <==> d !in h.board.mine)))
      && Inv(h)
  {
    hide Flood;
    if InBoard(c) && c !in g.board.flag {
      var b := if g.started then g.board else g.board.(mine := mines);
      OpenFlood(b, c);
      FloodOnBoard(b, c);
      var h := Dig(g, c, mines);
      if h.dead {
        FloodOfMine(b, c);
        assert h.board.shown * h.board.mine == {c};
      } else {
        assert Flood(b, c) !! b.mine by {
          if c in b.mine { FloodOfClosed(b, c); } else { FloodHasNoMine(b, c); }
        }
        TenHidden(h.board);
      }
      HiddenAreMines(h.board);
    }
  }

  lemma HiddenAreMines(b: Board)
    requires OnBoard(b)
    ensures Hidden(b) == b.mine <==> forall d :: InBoard(d) ==> (d in b.shown <==> d !in b.mine)
  {
    if forall d :: InBoard(d) ==> (d in b.shown <==> d !in b.mine) {
      forall d ensures d in Hidden(b) <==> d in b.mine { CellsAreBoard(d); }
    }
    forall d | InBoard(d) && Hidden(b) == b.mine ensures d in b.shown <==> d !in b.mine { CellsAreBoard(d); }
  }

  lemma FloodOnBoard(b: Board, c: Cell)
    ensures Flood(b, c) <= Cells()
  {
  }

  lemma PlayKeeps(g: Game, m: Move)
    requires Inv(g) && (m.Dug? ==> Laid(m.mines, m.c))
    ensures Inv(Play(g, m))
  {
    hide Dig;
    if m.Dug? && !g.dead && !g.won {
      DigDecides(g, m.c, m.mines);
    } else if m.Dug? {
      OverIsOver(g, m.c, m.mines);
    }
  }

  lemma OverIsOver(g: Game, c: Cell, mines: set<Cell>)
    requires g.dead || g.won
    ensures Dig(g, c, mines) == g && ToggleFlag(g, c) == g
  {
  }

  /** Over every game: while alive no mine is shown; the counter is the number of flags on the board,
      and no flag is on a cell shown; a lost game shows one mine; a won one hides the mines exactly. */
  lemma {:induction false} GameIsFair(ms: seq<Move>)
    requires FairMoves(ms)
    ensures Inv(PlayAll(NEW_GAME, ms))
  {
    hide Inv, Play;
    if ms == [] {
      NewIsFair();
    } else {
      GameIsFair(ms[..|ms| - 1]);
      PlayKeeps(PlayAll(NEW_GAME, ms[..|ms| - 1]), ms[|ms| - 1]);
    }
  }

  lemma NewIsFair()
    ensures Inv(NEW_GAME)
  {
  }

  /** The first dig is never fatal. */
  lemma FirstDigIsSafe(g: Game, c: Cell, mines: set<Cell>)
    requires Inv(g) && !g.started && Laid(mines, c)
    ensures !Dig(g, c, mines).dead
  {
    hide Dig;
    DigDecides(g, c, mines);
  }
}
