/** The editor's document: apps/edit.c, lines 101-177 and 265-379 and the keys of 1054-1082.

    The source holds a document as pieces of at most MAXCOL characters; a piece whose `cont` is set
    runs on into the next with no newline between them.  Here the pieces are a sequence, the functions
    say what each key makes of them, and the lemmas say that whatever splitting and joining goes on,
    every key is the plain edit on the flat text around the cursor. */
module EditDoc {

  const MAXLINES: nat := 96
  const MAXCOL: nat := 64

  datatype Piece = Piece(text: string, cont: bool)

  /** The pieces and the cursor: column cx of piece cy. */
  datatype Doc = Doc(ps: seq<Piece>, cy: nat, cx: nat)

  predicate Fits(ps: seq<Piece>) {
    1 <= |ps| <= MAXLINES && forall i :: 0 <= i < |ps| ==> |ps[i].text| <= MAXCOL
  }

  /** What every key keeps. */
  predicate Ok(d: Doc) {
    Fits(d.ps) && !d.ps[|d.ps| - 1].cont && d.cy < |d.ps| && d.cx <= |d.ps[d.cy].text|
  }

  // ---- the flat text -----------------------------------------------------------------------

  function Sep(p: Piece): string { if p.cont then "" else "\n" }

  /** Every piece with what stands between it and the next. */
  function Glue(ps: seq<Piece>): string {
    if ps == [] then "" else Glue(ps[..|ps| - 1]) + ps[|ps| - 1].text + Sep(ps[|ps| - 1])
  }

  /** What follows piece p when the pieces after it are `rest`. */
  function Tail(p: Piece, rest: seq<Piece>): string
    decreases |rest|
  {
    if rest == [] then "" else Sep(p) + rest[0].text + Tail(rest[0], rest[1..])
  }

  /** The document as a file holds it: what a save writes. */
  function Flat(ps: seq<Piece>): string {
    if ps == [] then "" else ps[0].text + Tail(ps[0], ps[1..])
  }

  function Before(d: Doc): string
    requires Ok(d)
  {
    Glue(d.ps[..d.cy]) + d.ps[d.cy].text[..d.cx]
  }

  function After(d: Doc): string
    requires Ok(d)
  {
    d.ps[d.cy].text[d.cx..] + Tail(d.ps[d.cy], d.ps[d.cy + 1..])
  }

  lemma {:induction false} FlatOfParts(a: seq<Piece>, p: Piece, b: seq<Piece>)
    ensures Flat(a + [p] + b) == Glue(a) + p.text + Tail(p, b)
    decreases |a|
  {
    if a == [] {
      assert a + [p] + b == [p] + b;
      assert ([p] + b)[1..] == b;
    } else {
      var a', q := a[..|a| - 1], a[|a| - 1];
      FlatOfParts(a', q, [p] + b);
      assert a + [p] + b == a' + [q] + ([p] + b);
      assert ([p] + b)[1..] == b;
      assert Tail(q, [p] + b) == Sep(q) + p.text + Tail(p, b);
      assert Glue(a') + q.text + (Sep(q) + p.text + Tail(p, b))
          == (Glue(a') + q.text + Sep(q)) + p.text + Tail(p, b);
    }
  }

  /** The text before the cursor and the text after it are the document. */
  lemma FlatIsBeforeAfter(d: Doc)
    requires Ok(d)
    ensures Flat(d.ps) == Before(d) + After(d)
  {
    hide Flat, Glue, Tail;
    var a, p, b := d.ps[..d.cy], d.ps[d.cy], d.ps[d.cy + 1..];
    assert d.ps == a + [p] + b;
    FlatOfParts(a, p, b);
    assert p.text == p.text[..d.cx] + p.text[d.cx..];
  }

  lemma GlueAppend(ps: seq<Piece>, p: Piece)
    ensures Glue(ps + [p]) == Glue(ps) + p.text + Sep(p)
  {
    assert (ps + [p])[..|ps|] == ps;
  }

  lemma TailCons(q: Piece, p: Piece, rest: seq<Piece>)
    ensures Tail(q, [p] + rest) == Sep(q) + p.text + Tail(p, rest)
  {
    assert ([p] + rest)[1..] == rest;
  }

  /** The cursor in a document given as the pieces around it. */
  lemma AroundCursor(d: Doc, a: seq<Piece>, p: Piece, b: seq<Piece>)
    requires Ok(d) && d.ps == a + [p] + b && d.cy == |a|
    ensures Before(d) == Glue(a) + p.text[..d.cx]
    ensures After(d) == p.text[d.cx..] + Tail(p, b)
  {
    assert d.ps[..d.cy] == a && d.ps[d.cy + 1..] == b;
  }

  // ---- soft splits: soft_split -------------------------------------------------------------

  /** Where a full piece is cut: after its last space between columns 1 and s, or before its last
      column. */
  function CutAt(text: string, s: int): (at: nat)
    requires |text| == MAXCOL && s <= |text| - 2
    ensures 2 <= at <= MAXCOL - 1
  {
    if s < 1 then MAXCOL - 1
    else if text[s] == ' ' then s + 1
    else CutAt(text, s - 1)
  }

  function SoftCut(text: string): (at: nat)
    requires |text| == MAXCOL
    ensures 2 <= at <= MAXCOL - 1
  {
    CutAt(text, MAXCOL - 2)
  }

  /** After the last blank that neither starts nor ends the full line; with none, before its last
      character. */
  predicate IsCut(text: string, at: nat)
    requires |text| == 64
  {
    (2 <= at <= 63 && text[at - 1] == ' ' && forall i :: at <= i <= 62 ==> text[i] != ' ')
    || (at == 63 && forall i :: 1 <= i <= 62 ==> text[i] != ' ')
  }

  lemma {:induction false} CutAtIs(text: string, s: int)
    requires |text| == MAXCOL && 0 <= s <= MAXCOL - 2 && forall i :: s < i <= MAXCOL - 2 ==> text[i] != ' '
    ensures IsCut(text, CutAt(text, s))
  {
    if s >= 1 && text[s] != ' ' { CutAtIs(text, s - 1); }
  }

  /** Where a full line is cut, which is one place. */
  lemma CutsAtTheLastBlank(text: string, at: nat)
    requires |text| == MAXCOL
    ensures SoftCut(text) == at <==> IsCut(text, at)
  {
    CutAtIs(text, MAXCOL - 2);
  }

  function Split(ps: seq<Piece>, y: nat, at: nat): seq<Piece>
    requires y < |ps| && at <= |ps[y].text|
  {
    ps[..y] + [Piece(ps[y].text[..at], true), Piece(ps[y].text[at..], ps[y].cont)] + ps[y + 1..]
  }

  lemma SplitParts(ps: seq<Piece>, y: nat, at: nat)
    requires y < |ps| && at <= |ps[y].text|
    ensures var p := ps[y];
      Split(ps, y, at) == (ps[..y] + [Piece(p.text[..at], true)]) + [Piece(p.text[at..], p.cont)] + ps[y + 1..]
      && Split(ps, y, at) == ps[..y] + [Piece(p.text[..at], true)] + ([Piece(p.text[at..], p.cont)] + ps[y + 1..])
  {
  }

  /** A soft split adds and removes nothing. */
  lemma SplitIsFlat(ps: seq<Piece>, y: nat, at: nat)
    requires y < |ps| && at <= |ps[y].text|
    ensures Flat(Split(ps, y, at)) == Flat(ps)
  {
    hide Flat, Glue, Tail, Split;
    var a, p, b := ps[..y], ps[y], ps[y + 1..];
    var p1, p2 := Piece(p.text[..at], true), Piece(p.text[at..], p.cont);
    assert ps == a + [p] + b;
    FlatOfParts(a, p, b);
    SplitParts(ps, y, at);
    FlatOfParts(a, p1, [p2] + b);
    TailCons(p1, p2, b);
    SameTail(p, p2, b);
    assert Glue(a) + p1.text + ("" + p2.text + Tail(p2, b)) == Glue(a) + (p1.text + p2.text) + Tail(p2, b);
    assert p1.text + p2.text == p.text;
  }

  lemma SameTail(p: Piece, q: Piece, rest: seq<Piece>)
    requires p.cont == q.cont
    ensures Tail(p, rest) == Tail(q, rest)
  {
  }

  /** The document with its cursor after the soft split that insert_char makes. */
  function SplitAtCursor(d: Doc): Doc
    requires Ok(d) && |d.ps[d.cy].text| == MAXCOL
  {
    var at := SoftCut(d.ps[d.cy].text);
    if d.cx > at then Doc(Split(d.ps, d.cy, at), d.cy + 1, d.cx - at)
    else Doc(Split(d.ps, d.cy, at), d.cy, d.cx)
  }

  lemma SplitAtCursorFlat(d: Doc)
    requires Ok(d) && |d.ps[d.cy].text| == MAXCOL && |d.ps| < MAXLINES
    ensures var s := SplitAtCursor(d);
      Ok(s) && |s.ps[s.cy].text| < MAXCOL && Before(s) == Before(d) && After(s) == After(d)
  {
    hide Glue, Tail, Before, After, SoftCut, Split, Fits;
    var a, p, b := d.ps[..d.cy], d.ps[d.cy], d.ps[d.cy + 1..];
    var at := SoftCut(p.text);
    var p1, p2 := Piece(p.text[..at], true), Piece(p.text[at..], p.cont);
    assert d.ps == a + [p] + b;
    AroundCursor(d, a, p, b);
    SplitParts(d.ps, d.cy, at);
    SplitKeeps(d.ps, d.cy, at);
    if d.cx > at { AroundSecond(SplitAtCursor(d), a, p, at, b); } else { AroundFirst(SplitAtCursor(d), a, p, at, b); }
  }

  lemma AroundFirst(s: Doc, a: seq<Piece>, p: Piece, at: nat, b: seq<Piece>)
    requires Ok(s) && at <= |p.text| && s.cy == |a| && s.cx <= at
    requires s.ps == a + [Piece(p.text[..at], true)] + ([Piece(p.text[at..], p.cont)] + b)
    ensures Before(s) == Glue(a) + p.text[..s.cx] && After(s) == p.text[s.cx..] + Tail(p, b)
  {
    hide Glue, Tail, Before, After, Ok;
    var p1, p2 := Piece(p.text[..at], true), Piece(p.text[at..], p.cont);
    AroundCursor(s, a, p1, [p2] + b);
    TailCons(p1, p2, b);
    SameTail(p, p2, b);
    assert p1.text[..s.cx] == p.text[..s.cx];
    assert p1.text[s.cx..] + p2.text == p.text[s.cx..];
    assert p1.text[s.cx..] + ("" + p2.text + Tail(p2, b)) == (p1.text[s.cx..] + p2.text) + Tail(p2, b);
  }

  lemma AroundSecond(s: Doc, a: seq<Piece>, p: Piece, at: nat, b: seq<Piece>)
    requires Ok(s) && at <= |p.text| && s.cy == |a| + 1 && at + s.cx <= |p.text|
    requires s.ps == (a + [Piece(p.text[..at], true)]) + [Piece(p.text[at..], p.cont)] + b
    ensures Before(s) == Glue(a) + p.text[..at + s.cx] && After(s) == p.text[at + s.cx..] + Tail(p, b)
  {
    hide Glue, Tail, Before, After, Ok;
    var p1, p2 := Piece(p.text[..at], true), Piece(p.text[at..], p.cont);
    AroundCursor(s, a + [p1], p2, b);
    GlueAppend(a, p1);
    SameTail(p, p2, b);
    assert p1.text + p2.text[..s.cx] == p.text[..at + s.cx];
    assert p2.text[s.cx..] == p.text[at + s.cx..];
    assert Glue(a) + p1.text + "" + p2.text[..s.cx] == Glue(a) + (p1.text + p2.text[..s.cx]);
  }

  lemma SplitKeeps(ps: seq<Piece>, y: nat, at: nat)
    requires Fits(ps) && y < |ps| < MAXLINES && at <= |ps[y].text| && !ps[|ps| - 1].cont
    ensures var s := Split(ps, y, at);
      Fits(s) && |s| == |ps| + 1 && !s[|s| - 1].cont
      && s[y] == Piece(ps[y].text[..at], true) && s[y + 1] == Piece(ps[y].text[at..], ps[y].cont)
  {
  }

  // ---- the keys ----------------------------------------------------------------------------

  function InsertIn(p: Piece, x: nat, c: char): Piece
    requires x <= |p.text|
  {
    p.(text := p.text[..x] + [c] + p.text[x..])
  }

  /** insert_char: None when there is no room for another piece. */
  function InsertChar(d: Doc, c: char): Doc
    requires Ok(d)
  {
    if |d.ps[d.cy].text| < MAXCOL then PutChar(d, c)
    else if |d.ps| >= MAXLINES then d
    else
      SplitAtCursorFlat(d);
      PutChar(SplitAtCursor(d), c)
  }

  function PutChar(d: Doc, c: char): Doc
    requires Ok(d)
  {
    Doc(d.ps[d.cy := InsertIn(d.ps[d.cy], d.cx, c)], d.cy, d.cx + 1)
  }

  predicate NoRoom(d: Doc)
    requires Ok(d)
  {
    |d.ps[d.cy].text| == MAXCOL && |d.ps| == MAXLINES
  }

  lemma PutCharIsInsert(d: Doc, c: char)
    requires Ok(d) && |d.ps[d.cy].text| < MAXCOL
    ensures var e := PutChar(d, c); Ok(e) && Before(e) == Before(d) + [c] && After(e) == After(d)
  {
    hide Glue, Tail, Before, After;
    var a, p, b := d.ps[..d.cy], d.ps[d.cy], d.ps[d.cy + 1..];
    var e := PutChar(d, c);
    var q := InsertIn(p, d.cx, c);
    AroundCursor(d, a, p, b);
    assert e.ps == a + [q] + b;
    AroundCursor(e, a, q, b);
    SameTail(p, q, b);
    assert q.text[..d.cx + 1] == p.text[..d.cx] + [c];
    assert q.text[d.cx + 1..] == p.text[d.cx..];
  }

  /** Typing puts one character before the cursor; only when the piece is full and there is no
      further piece to be had does it do nothing at all. */
  lemma TypingInserts(d: Doc, c: char)
    requires Ok(d)
    ensures var e := InsertChar(d, c);
      Ok(e)
      && (if NoRoom(d) then e == d else Before(e) == Before(d) + [c] && After(e) == After(d))
  {
    if |d.ps[d.cy].text| < MAXCOL {
      PutCharIsInsert(d, c);
    } else if |d.ps| < MAXLINES {
      SplitAtCursorFlat(d);
      PutCharIsInsert(SplitAtCursor(d), c);
    }
  }

  /** A character typed into a full line: the line is cut, `at` being the place, the part after the cut
      goes on as a piece of its own, and the character goes into the part the cursor is in. */
  lemma TypingCuts(d: Doc, c: char, at: nat)
    requires Ok(d) && |d.ps[d.cy].text| == MAXCOL && |d.ps| < MAXLINES && IsCut(d.ps[d.cy].text, at)
    ensures at <= MAXCOL
    ensures var e, x, p := InsertChar(d, c), d.cx, d.ps[d.cy];
      var one, two := p.text[..at], p.text[at..];
      e.ps == d.ps[..d.cy]
              + (if x <= at then [Piece(one[..x] + [c] + one[x..], true), Piece(two, p.cont)]
                 else [Piece(one, true), Piece(two[..x - at] + [c] + two[x - at..], p.cont)])
              + d.ps[d.cy + 1..]
      && (if x <= at then e.cy == d.cy && e.cx == x + 1 else e.cy == d.cy + 1 && e.cx == x - at + 1)
  {
    hide SoftCut, Fits, Before, After, IsCut;
    CutsAtTheLastBlank(d.ps[d.cy].text, at);
    SplitAtCursorFlat(d);
    var a, p, b := d.ps[..d.cy], d.ps[d.cy], d.ps[d.cy + 1..];
    var one, two := Piece(p.text[..at], true), Piece(p.text[at..], p.cont);
    var s := SplitAtCursor(d);
    assert s.ps == a + [one, two] + b;
    if d.cx <= at {
      assert s.ps[d.cy := InsertIn(one, d.cx, c)] == a + [InsertIn(one, d.cx, c), two] + b;
    } else {
      var x := d.cx - at;
      assert s.ps[d.cy + 1 := InsertIn(two, x, c)] == a + [one, InsertIn(two, x, c)] + b;
    }
  }

  function LeadingSpaces(s: string): (n: nat)
    ensures n <= |s| && (forall i :: 0 <= i < n ==> s[i] == ' ') && (n < |s| ==> s[n] != ' ')
  {
    if s == "" || s[0] != ' ' then 0 else 1 + LeadingSpaces(s[1..])
  }

  function Spaces(n: nat): (s: string)
    ensures |s| == n && forall i :: 0 <= i < n ==> s[i] == ' '
  {
    seq(n, i => ' ')
  }

  /** The indent Enter gives the new line: that of the text before the cursor on its piece, when the
      text after it still fits. */
  function Indent(d: Doc): nat
    requires Ok(d)
  {
    var p := d.ps[d.cy];
    var ind := LeadingSpaces(p.text[..d.cx]);
    if |p.text| - d.cx + ind <= MAXCOL then ind else 0
  }

  /** split_line. */
  function SplitLine(d: Doc): Doc
    requires Ok(d)
  {
    if |d.ps| >= MAXLINES then d
    else
      var p, ind := d.ps[d.cy], Indent(d);
      Doc(d.ps[..d.cy] + [Piece(p.text[..d.cx], false), Piece(Spaces(ind) + p.text[d.cx..], p.cont)]
            + d.ps[d.cy + 1..],
          d.cy + 1, ind)
  }

  /** k is how many blanks the cursor's piece starts with, as far as the cursor. */
  predicate StartsWith(d: Doc, k: nat)
    requires Ok(d)
  {
    k <= d.cx && (forall i :: 0 <= i < k ==> d.ps[d.cy].text[i] == ' ')
    && (k == d.cx || d.ps[d.cy].text[k] != ' ')
  }

  /** The source's test for room never fails: the blanks and the text after the cursor are parts of a piece
      that fits. */
  lemma IndentIs(d: Doc, k: nat)
    requires Ok(d) && StartsWith(d, k)
    ensures Indent(d) == k
  {
    var n := LeadingSpaces(d.ps[d.cy].text[..d.cx]);
    assert n == k;
  }

  /** Enter does nothing when every piece is taken.  Otherwise it ends the line at the cursor and puts the
      text after it on a line of its own, with as many blanks as the line that was split starts with before
      it, and the cursor after them. */
  lemma EnterSplits(d: Doc, k: nat)
    requires Ok(d) && StartsWith(d, k)
    ensures var e, p := SplitLine(d), d.ps[d.cy];
      Ok(e)
      && (if |d.ps| >= MAXLINES then e == d
          else Before(e) == Before(d) + "\n" + seq(k, _ => ' ') && After(e) == After(d)
               && e.cy == d.cy + 1 && e.cx == k
               && e.ps == d.ps[..d.cy] + [Piece(p.text[..d.cx], false),
                                          Piece(seq(k, _ => ' ') + p.text[d.cx..], p.cont)] + d.ps[d.cy + 1..])
  {
    hide Glue, Tail, Before, After, LeadingSpaces, Indent;
    IndentIs(d, k);
    if |d.ps| < MAXLINES {
      var a, p, b := d.ps[..d.cy], d.ps[d.cy], d.ps[d.cy + 1..];
      var e := SplitLine(d);
      assert Spaces(k) == seq(k, _ => ' ');
      var p1, p2 := Piece(p.text[..d.cx], false), Piece(Spaces(k) + p.text[d.cx..], p.cont);
      assert e.ps == (a + [p1]) + [p2] + b;
      assert Ok(e);
      AroundCursor(d, a, p, b);
      AroundCursor(e, a + [p1], p2, b);
      GlueAppend(a, p1);
      SameTail(p, p2, b);
      assert p2.text[..k] == Spaces(k) && p2.text[k..] == p.text[d.cx..];
    }
  }

  /** Enter at the end of a line that starts with two blanks. */
  lemma EnterKeepsTheIndent()
    ensures SplitLine(Doc([Piece("  ab", false)], 0, 4)) == Doc([Piece("  ab", false), Piece("  ", false)], 1, 2)
  {
    var d := Doc([Piece("  ab", false)], 0, 4);
    IndentIs(d, 2);
    assert "  ab"[..4] == "  ab" && "  ab"[4..] == "" && d.ps[..0] == [] && d.ps[1..] == [];
    assert Spaces(2) + "" == "  ";
  }

  /** join_prev. */
  function JoinPrev(d: Doc): Doc
    requires Ok(d)
  {
    if d.cy == 0 then d
    else
      var q := d.ps[d.cy - 1];
      var short := q.cont && |q.text| > 0;
      var q' := if short then q.(text := q.text[..|q.text| - 1]) else q;
      if |q'.text| + |d.ps[d.cy].text| > MAXCOL then d.(ps := d.ps[d.cy - 1 := q'])
      else
        Doc(d.ps[..d.cy - 1] + [Piece(q'.text + d.ps[d.cy].text, d.ps[d.cy].cont)] + d.ps[d.cy + 1..],
            d.cy - 1, |q'.text|)
  }

  /** backspace. */
  function Backspace(d: Doc): Doc
    requires Ok(d)
  {
    if d.cx == 0 then JoinPrev(d)
    else
      var p := d.ps[d.cy];
      Doc(d.ps[d.cy := p.(text := p.text[..d.cx - 1] + p.text[d.cx..])], d.cy, d.cx - 1)
  }

  /** When Backspace deletes a character: inside a piece; at the start of one that a non-empty piece
      runs on into; or at the start of a line that fits on the end of the line before. */
  predicate Deletes(d: Doc)
    requires Ok(d)
  {
    d.cx > 0
    || (d.cy > 0
        && var q := d.ps[d.cy - 1];
           if q.cont then q.text != "" else |q.text| + |d.ps[d.cy].text| <= MAXCOL)
  }

  lemma BackspaceInPiece(d: Doc)
    requires Ok(d) && d.cx > 0
    ensures var e := Backspace(d);
      Ok(e) && Before(d) == Before(e) + [d.ps[d.cy].text[d.cx - 1]] && After(e) == After(d)
  {
    hide Glue, Tail, Before, After;
    var a, p, b := d.ps[..d.cy], d.ps[d.cy], d.ps[d.cy + 1..];
    var e := Backspace(d);
    assert Ok(e);
    var q := e.ps[d.cy];
    AroundCursor(d, a, p, b);
    assert e.ps == a + [q] + b;
    AroundCursor(e, a, q, b);
    SameTail(p, q, b);
    assert q.text[..e.cx] == p.text[..e.cx];
    assert p.text[..d.cx] == p.text[..e.cx] + [p.text[e.cx]];
    assert q.text[e.cx..] == p.text[d.cx..];
  }

  /** The pieces before and at a cursor at column 0. */
  lemma AtStart(d: Doc, a: seq<Piece>, q: Piece, p: Piece, b: seq<Piece>)
    requires Ok(d) && d.cx == 0 && d.ps == a + [q, p] + b && d.cy == |a| + 1
    ensures Before(d) == Glue(a) + q.text + Sep(q) && After(d) == p.text + Tail(p, b)
  {
    assert d.ps == (a + [q]) + [p] + b;
    AroundCursor(d, a + [q], p, b);
    GlueAppend(a, q);
  }

  lemma JoinKeeps(d: Doc)
    requires Ok(d)
    ensures Ok(JoinPrev(d))
  {
  }

  /** One piece gives way to q' before the cursor's, or the two become one. */
  lemma JoinText(d: Doc, q': Piece)
    requires Ok(d) && d.cx == 0 && d.cy > 0 && q'.cont == d.ps[d.cy - 1].cont
    ensures var e := d.(ps := d.ps[d.cy - 1 := q']);
      Ok(e) ==> After(e) == After(d) && Before(e) == Glue(d.ps[..d.cy - 1]) + q'.text + Sep(q')
    ensures var p := d.ps[d.cy];
      var e := Doc(d.ps[..d.cy - 1] + [Piece(q'.text + p.text, p.cont)] + d.ps[d.cy + 1..], d.cy - 1, |q'.text|);
      Ok(e) ==> After(e) == After(d) && Before(e) == Glue(d.ps[..d.cy - 1]) + q'.text
  {
    hide Glue, Tail, Before, After, Fits;
    var a, q, p, b := d.ps[..d.cy - 1], d.ps[d.cy - 1], d.ps[d.cy], d.ps[d.cy + 1..];
    assert d.ps == a + [q, p] + b;
    AtStart(d, a, q, p, b);
    var r := Piece(q'.text + p.text, p.cont);
    var e1, e2 := d.(ps := d.ps[d.cy - 1 := q']), Doc(a + [r] + b, d.cy - 1, |q'.text|);
    assert e1.ps == a + [q', p] + b;
    if Ok(e1) { AtStart(e1, a, q', p, b); }
    if Ok(e2) {
      AroundCursor(e2, a, r, b);
      SameTail(p, r, b);
      assert r.text[..e2.cx] == q'.text && r.text[e2.cx..] == p.text;
    }
  }

  lemma JoinShortens(d: Doc)
    requires Ok(d) && d.cx == 0 && d.cy > 0
    ensures var e, q := JoinPrev(d), d.ps[d.cy - 1];
      Ok(e) && After(e) == After(d)
      && (if q.cont && q.text != "" then Before(d) == Before(e) + [q.text[|q.text| - 1]]
          else if !q.cont && |q.text| + |d.ps[d.cy].text| <= MAXCOL then Before(d) == Before(e) + "\n"
          else Before(e) == Before(d))
  {
    hide Glue, Tail, Before, After, Ok;
    assert d.ps[..d.cy - 1] + [d.ps[d.cy - 1], d.ps[d.cy]] + d.ps[d.cy + 1..] == d.ps by { InRange(d); }
    var a, q, p := d.ps[..d.cy - 1], d.ps[d.cy - 1], d.ps[d.cy];
    AtStart(d, a, q, p, d.ps[d.cy + 1..]);
    JoinKeeps(d);
    var q' := if q.cont && q.text != "" then q.(text := q.text[..|q.text| - 1]) else q;
    JoinText(d, q');
    if q.cont && q.text != "" {
      var c := q.text[|q.text| - 1];
      assert q.text == q'.text + [c];
      assert Glue(a) + q.text + "" == Glue(a) + q'.text + "" + [c];
      assert Glue(a) + q'.text + "" == Glue(a) + q'.text;
    } else if q.cont {
      assert Glue(a) + q'.text + "" == Glue(a) + q'.text;
    } else {
      assert q.text == q'.text;
      if |q.text| + |p.text| > MAXCOL { assert d.ps[d.cy - 1 := q'] == d.ps; }
    }
  }

  lemma InRange(d: Doc)
    requires Ok(d)
    ensures d.cy < |d.ps| && d.cx <= |d.ps[d.cy].text|
  {
  }

  /** Backspace deletes exactly the character or newline before the cursor when `Deletes` holds, and
      leaves the document's text alone otherwise: at the very start, where the joined line would be
      too long, and after an empty continuation piece, where the two pieces are joined and nothing
      goes.  (That last one is the only case with text before the cursor that a plain editor would
      have deleted and that has room.) */
  lemma BackspaceDeletes(d: Doc)
    requires Ok(d)
    ensures var e := Backspace(d);
      Ok(e) && After(e) == After(d)
      && (Deletes(d) <==> Before(e) != Before(d))
      && (Deletes(d) ==> Before(d) != "" && Before(e) == Before(d)[..|Before(d)| - 1])
  {
    var e := Backspace(d);
    if d.cx > 0 {
      BackspaceInPiece(d);
    } else if d.cy > 0 {
      JoinShortens(d);
    }
    if Deletes(d) {
      var c :| Before(d) == Before(e) + [c];
      assert Before(d)[..|Before(d)| - 1] == Before(e);
    }
  }

  // ---- every key ---------------------------------------------------------------------------

  datatype Key = Left | Right | Up | Down | Home | End | Back | Enter | Char(c: char)

  function Min(a: nat, b: nat): nat { if a < b then a else b }

  /** key_edit. */
  function Press(d: Doc, k: Key): Doc
    requires Ok(d)
  {
    match k
    case Left =>
      if d.cx > 0 then d.(cx := d.cx - 1)
      else if d.cy > 0 then d.(cy := d.cy - 1, cx := |d.ps[d.cy - 1].text|)
      else d
    case Right =>
      if d.cx < |d.ps[d.cy].text| then d.(cx := d.cx + 1)
      else if d.cy + 1 < |d.ps| then d.(cy := d.cy + 1, cx := 0)
      else d
    case Up => if d.cy > 0 then d.(cy := d.cy - 1, cx := Min(d.cx, |d.ps[d.cy - 1].text|)) else d
    case Down => if d.cy + 1 < |d.ps| then d.(cy := d.cy + 1, cx := Min(d.cx, |d.ps[d.cy + 1].text|)) else d
    case Home => d.(cx := 0)
    case End => d.(cx := |d.ps[d.cy].text|)
    case Back => Backspace(d)
    case Enter => SplitLine(d)
    case Char(c) => if ' ' <= c <= '~' then InsertChar(d, c) else d
  }

  lemma PressKeeps(d: Doc, k: Key)
    requires Ok(d)
    ensures Ok(Press(d, k))
    ensures !k.Back? && !k.Enter? && !k.Char? ==> Press(d, k).ps == d.ps
  {
    match k
    case Back => BackspaceDeletes(d);
    case Enter => var k := StartOf(d); EnterSplits(d, k);
    case Char(c) => TypingInserts(d, c);
    case _ =>
  }

  lemma StartOf(d: Doc) returns (k: nat)
    requires Ok(d)
    ensures StartsWith(d, k)
  {
    k := LeadingSpaces(d.ps[d.cy].text[..d.cx]);
  }

  /** What a key does to the flat text, given where the cursor splits it.  `room` is what the pieces
      allow: false leaves the text alone. */
  function PlainKey(before: string, after: string, k: Key, room: bool, indent: nat): string {
    match k
    case Back => if room && before != "" then before[..|before| - 1] + after else before + after
    case Enter => if room then before + "\n" + seq(indent, _ => ' ') + after else before + after
    case Char(c) => if room && ' ' <= c <= '~' then before + [c] + after else before + after
    case _ => before + after
  }

  predicate Room(d: Doc, k: Key)
    requires Ok(d)
  {
    match k
    case Back => Deletes(d)
    case Enter => |d.ps| < MAXLINES
    case Char(_) => !NoRoom(d)
    case _ => true
  }

  function Keys(d: Doc, ks: seq<Key>): Doc
    requires Ok(d)
    ensures Ok(Keys(d, ks))
  {
    if ks == [] then d
    else
      var e := Keys(d, ks[..|ks| - 1]);
      PressKeeps(e, ks[|ks| - 1]);
      Press(e, ks[|ks| - 1])
  }

  /** After any run of keys, the next key is the plain edit of the flat document at the cursor; k is how
      many blanks the cursor's piece starts with before it. */
  lemma EveryKeyIsThePlainEdit(d: Doc, ks: seq<Key>, key: Key, k: nat)
    requires Ok(d) && StartsWith(Keys(d, ks), k)
    ensures var e, f := Keys(d, ks), Keys(d, ks + [key]);
      Flat(e.ps) == Before(e) + After(e)
      && Flat(f.ps) == PlainKey(Before(e), After(e), key, Room(e, key), k)
  {
    assert (ks + [key])[..|ks|] == ks;
    PressIsPlain(Keys(d, ks), key, k);
  }

  lemma PressIsPlain(e: Doc, key: Key, k: nat)
    requires Ok(e) && StartsWith(e, k)
    ensures Ok(Press(e, key))
    ensures Flat(e.ps) == Before(e) + After(e)
    ensures Flat(Press(e, key).ps) == PlainKey(Before(e), After(e), key, Room(e, key), k)
  {
    hide Flat, Before, After, InsertChar, SplitLine, Backspace, Spaces, Indent;
    PressKeeps(e, key);
    FlatIsBeforeAfter(e);
    FlatIsBeforeAfter(Press(e, key));
    match key
    case Back => BackspaceDeletes(e);
    case Enter => EnterSplits(e, k);
    case Char(c) => TypingInserts(e, c);
    case _ =>
  }

  // ---- the keys that move ----------------------------------------------------------------------

  /** Left and right go one character back and on in the text, over a newline too; only between a piece
      and the one it runs on into do they change the piece and not the place in the text. */
  lemma LeftAndRight(d: Doc)
    requires Ok(d)
    ensures var e, y, x := Press(d, Left), d.cy, d.cx;
      Ok(e) && e.ps == d.ps
      && (x > 0 ==> Before(d) == Before(e) + [d.ps[y].text[x - 1]])
      && (x == 0 && y == 0 ==> e == d && Before(d) == "")
      && (x == 0 && y > 0 && !d.ps[y - 1].cont ==> Before(d) == Before(e) + "\n")
      && (x == 0 && y > 0 && d.ps[y - 1].cont ==> Before(d) == Before(e) && e.cy == y - 1)
    ensures var e, y, x := Press(d, Right), d.cy, d.cx; var len := |d.ps[y].text|;
      Ok(e) && e.ps == d.ps
      && (x < len ==> After(d) == [d.ps[y].text[x]] + After(e))
      && (x == len && y == |d.ps| - 1 ==> e == d && After(d) == "")
      && (x == len && y < |d.ps| - 1 && !d.ps[y].cont ==> After(d) == "\n" + After(e))
      && (x == len && y < |d.ps| - 1 && d.ps[y].cont ==> After(d) == After(e) && e.cy == y + 1)
  {
    hide Before, After, Fits, InsertChar, SplitLine, Backspace;
    AtTheEnds(d);
    if d.cx > 0 { LeftInside(d); } else if d.cy > 0 { LeftOver(d); }
    if d.cx < |d.ps[d.cy].text| { RightInside(d); } else if d.cy < |d.ps| - 1 { RightOver(d); }
  }

  lemma LeftInside(d: Doc)
    requires Ok(d) && d.cx > 0
    ensures var e := d.(cx := d.cx - 1); Ok(e) && Before(d) == Before(e) + [d.ps[d.cy].text[d.cx - 1]]
  {
    hide Glue, Fits;
    var t := d.ps[d.cy].text;
    assert t[..d.cx] == t[..d.cx - 1] + [t[d.cx - 1]];
  }

  lemma LeftOver(d: Doc)
    requires Ok(d) && d.cx == 0 && d.cy > 0
    ensures var q := d.ps[d.cy - 1]; var e := d.(cy := d.cy - 1, cx := |q.text|);
      Ok(e) && Before(d) == Before(e) + Sep(q)
  {
    hide Glue, Fits;
    var a, q := d.ps[..d.cy - 1], d.ps[d.cy - 1];
    assert d.ps[..d.cy] == a + [q];
    GlueAppend(a, q);
    assert q.text[..|q.text|] == q.text;
  }

  lemma RightInside(d: Doc)
    requires Ok(d) && d.cx < |d.ps[d.cy].text|
    ensures var e := d.(cx := d.cx + 1); Ok(e) && After(d) == [d.ps[d.cy].text[d.cx]] + After(e)
  {
    hide Tail, Fits;
    var t := d.ps[d.cy].text;
    assert t[d.cx..] == [t[d.cx]] + t[d.cx + 1..];
  }

  lemma RightOver(d: Doc)
    requires Ok(d) && d.cx == |d.ps[d.cy].text| && d.cy < |d.ps| - 1
    ensures var e := d.(cy := d.cy + 1, cx := 0); Ok(e) && After(d) == Sep(d.ps[d.cy]) + After(e)
  {
    hide Tail, Fits;
    var q, b := d.ps[d.cy + 1], d.ps[d.cy + 2..];
    assert d.ps[d.cy + 1..] == [q] + b;
    TailCons(d.ps[d.cy], q, b);
    assert q.text[0..] == q.text;
  }

  lemma AtTheEnds(d: Doc)
    requires Ok(d)
    ensures d.cx == 0 && d.cy == 0 ==> Before(d) == ""
    ensures d.cy == |d.ps| - 1 && d.cx == |d.ps[d.cy].text| ==> After(d) == ""
  {
    hide Fits;
  }

  /** Left then right comes back, from anywhere but the very start, and right then left from anywhere but
      the very end. */
  lemma ThereAndBack(d: Doc)
    requires Ok(d)
    ensures var e := Press(d, Left); Ok(e) && (e != d ==> Press(e, Right) == d)
    ensures var e := Press(d, Right); Ok(e) && (e != d ==> Press(e, Left) == d)
  {
    hide Fits, InsertChar, SplitLine, Backspace;
  }

  /** Up then down comes back exactly when the line above reaches the cursor's column, and down then up
      when the line below does. */
  lemma UpAndDown(d: Doc)
    requires Ok(d)
    ensures var e := Press(d, Up); Ok(e) && (d.cy > 0 ==> (Press(e, Down) == d <==> d.cx <= |d.ps[d.cy - 1].text|))
    ensures var e := Press(d, Down);
      Ok(e) && (d.cy < |d.ps| - 1 ==> (Press(e, Up) == d <==> d.cx <= |d.ps[d.cy + 1].text|))
  {
    hide Fits, InsertChar, SplitLine, Backspace;
  }

  /** Up and down keep the column as far as the line goes, home and end stay on the line, and what is
      before the cursor there is the lines above and this line's beginning. */
  lemma RowsAndEnds(d: Doc, key: Key)
    requires Ok(d) && key in {Up, Down, Home, End}
    ensures var e := Press(d, key); var y := e.cy; var len := |e.ps[y].text|;
      Ok(e) && e.ps == d.ps && Before(e) == Glue(d.ps[..y]) + d.ps[y].text[..e.cx]
      && (key.Up? ==> y == (if d.cy == 0 then 0 else d.cy - 1))
      && (key.Down? ==> y == (if d.cy == |d.ps| - 1 then d.cy else d.cy + 1))
      && (key.Up? || key.Down? ==> e.cx == d.cx || (e.cx < d.cx && e.cx == len))
      && (key.Home? || key.End? ==> y == d.cy)
      && (key.Home? ==> e.cx == 0) && (key.End? ==> e.cx == len)
  {
  }

  // ---- the key that deletes nothing ----------------------------------------------------------

  function Bees(n: nat): string { seq(n, _ => 'b') }

  /** A line "x", then a longer one of two words, and n letters of its second word. */
  function Typed(n: nat): seq<Key> {
    [Char('x'), Enter, Char('a'), Char(' ')] + seq(n, _ => Char('b'))
  }

  lemma KeysAppend(d: Doc, ks: seq<Key>, k: Key)
    requires Ok(d)
    ensures Keys(d, ks + [k]) == Press(Keys(d, ks), k)
  {
    assert (ks + [k])[..|ks|] == ks;
  }

  /** The end of the last piece. */
  function AtEnd(a: seq<Piece>, t: string): Doc {
    Doc(a + [Piece(t, false)], |a|, |t|)
  }

  lemma TypeAtEnd(a: seq<Piece>, t: string, c: char)
    requires Ok(AtEnd(a, t)) && |t| < MAXCOL && ' ' <= c <= '~'
    ensures Press(AtEnd(a, t), Char(c)) == AtEnd(a, t + [c])
  {
    assert InsertIn(Piece(t, false), |t|, c).text == t + [c];
  }

  lemma EnterAtEnd(t: string)
    requires t != "" && t[0] != ' ' && |t| <= MAXCOL
    ensures Press(AtEnd([], t), Enter) == AtEnd([Piece(t, false)], "")
  {
    var d := AtEnd([], t);
    assert t[..|t|] == t && LeadingSpaces(t) == 0;
    assert d.ps[..0] == [] && d.ps[1..] == [];
    assert Spaces(0) + t[|t|..] == "";
  }

  lemma BlankOk()
    ensures Ok(Doc(BLANK, 0, 0))
  {
  }

  lemma NoKeys(d: Doc)
    requires Ok(d)
    ensures Keys(d, []) == d
  {
  }

  lemma TypedFirst()
    ensures Keys(Doc(BLANK, 0, 0), [Char('x'), Enter]) == AtEnd([Piece("x", false)], "")
  {
    hide Press, Ok, Keys;
    var d := Doc(BLANK, 0, 0);
    BlankOk();
    NoKeys(d);
    assert d == AtEnd([], "");
    KeysAppend(d, [], Char('x'));
    TypeAtEnd([], "", 'x');
    assert [] + [Char('x')] == [Char('x')] && "" + ['x'] == "x";
    KeysAppend(d, [Char('x')], Enter);
    EnterAtEnd("x");
    assert [Char('x')] + [Enter] == [Char('x'), Enter];
  }

  lemma TypedNone()
    ensures Keys(Doc(BLANK, 0, 0), Typed(0)) == AtEnd([Piece("x", false)], "a ")
  {
    hide Press, Keys;
    var d, x, ks := Doc(BLANK, 0, 0), [Piece("x", false)], [Char('x'), Enter];
    TypedFirst();
    KeysAppend(d, ks, Char('a'));
    TypeAtEnd(x, "", 'a');
    assert "" + ['a'] == "a";
    KeysAppend(d, ks + [Char('a')], Char(' '));
    TypeAtEnd(x, "a", ' ');
    assert Typed(0) == ks + [Char('a')] + [Char(' ')] && "a" + [' '] == "a ";
  }

  lemma {:induction false} TypedFits(n: nat)
    requires n <= MAXCOL - 2
    ensures Keys(Doc(BLANK, 0, 0), Typed(n)) == AtEnd([Piece("x", false)], "a " + Bees(n))
  {
    hide Keys, Press;
    if n == 0 {
      TypedNone();
      assert "a " + Bees(0) == "a ";
    } else {
      TypedFits(n - 1);
      assert Typed(n) == Typed(n - 1) + [Char('b')];
      KeysAppend(Doc(BLANK, 0, 0), Typed(n - 1), Char('b'));
      TypeAtEnd([Piece("x", false)], "a " + Bees(n - 1), 'b');
      assert "a " + Bees(n) == "a " + Bees(n - 1) + ['b'];
    }
  }

  /** One letter more than the piece holds: it is split after "a ", and the cursor goes with the
      second word. */
  lemma TypedSplits()
    ensures Keys(Doc(BLANK, 0, 0), Typed(MAXCOL - 1))
         == AtEnd([Piece("x", false), Piece("a ", true)], Bees(MAXCOL - 1))
  {
    hide Keys, SoftCut, Press;
    var n := MAXCOL - 2;
    TypedFits(n);
    assert Typed(n + 1) == Typed(n) + [Char('b')];
    KeysAppend(Doc(BLANK, 0, 0), Typed(n), Char('b'));
    FullIsCut(n);
    SplitTyped();
  }

  lemma FullIsCut(n: nat)
    requires n == MAXCOL - 2
    ensures SoftCut("a " + Bees(n)) == 2
  {
    CutsAtTheLastBlank("a " + Bees(n), 2);
  }

  lemma SplitTyped()
    requires SoftCut("a " + Bees(MAXCOL - 2)) == 2
    ensures Press(AtEnd([Piece("x", false)], "a " + Bees(MAXCOL - 2)), Char('b'))
         == AtEnd([Piece("x", false), Piece("a ", true)], Bees(MAXCOL - 1))
  {
    hide SoftCut;
    var t, bs := "a " + Bees(MAXCOL - 2), Bees(MAXCOL - 2);
    var d := AtEnd([Piece("x", false)], t);
    var two := [Piece("x", false), Piece("a ", true)];
    assert t[2..] == bs && t[..2] == "a ";
    assert Split(d.ps, 1, 2) == two + [Piece(bs, false)];
    assert SplitAtCursor(d) == AtEnd(two, bs);
    assert InsertIn(Piece(bs, false), |bs|, 'b').text == Bees(MAXCOL - 1);
  }

  /** The keys that lead into the trap: up to the first word's piece, both its characters deleted, and
      right onto the start of the second word. */
  function TrapKeys(): seq<Key> {
    Typed(MAXCOL - 1) + [Up] + [Back] + [Back] + [Right]
  }

  function Trapped(): Doc {
    Doc([Piece("x", false), Piece("", true), Piece(Bees(MAXCOL - 1), false)], 2, 0)
  }

  lemma EmptiesTheFirstWord(p: Piece)
    requires |p.text| == MAXCOL - 1 && !p.cont
    ensures var d := Doc([Piece("x", false), Piece("a ", true), p], 2, MAXCOL - 1);
      Press(d, Up) == Doc(d.ps, 1, 2)
      && Press(Doc(d.ps, 1, 2), Back) == Doc([Piece("x", false), Piece("a", true), p], 1, 1)
      && Press(Doc([Piece("x", false), Piece("a", true), p], 1, 1), Back)
         == Doc([Piece("x", false), Piece("", true), p], 1, 0)
      && Press(Doc([Piece("x", false), Piece("", true), p], 1, 0), Right)
         == Doc([Piece("x", false), Piece("", true), p], 2, 0)
  {
    assert "a "[..1] + "a "[2..] == "a" && "a"[..0] + "a"[1..] == "";
  }

  lemma TrapIsReached()
    ensures Keys(Doc(BLANK, 0, 0), TrapKeys()) == Trapped()
  {
    hide Typed, Press, Keys, Ok;
    var d, ks := Doc(BLANK, 0, 0), Typed(MAXCOL - 1);
    var p := Piece(Bees(MAXCOL - 1), false);
    BlankOk();
    TypedSplits();
    EmptiesTheFirstWord(p);
    assert AtEnd([Piece("x", false), Piece("a ", true)], p.text)
        == Doc([Piece("x", false), Piece("a ", true), p], 2, MAXCOL - 1);
    KeysAppend(d, ks, Up);
    KeysAppend(d, ks + [Up], Back);
    KeysAppend(d, ks + [Up] + [Back], Back);
    KeysAppend(d, ks + [Up] + [Back] + [Back], Right);
  }

  /** In a document that keys make of the blank one, Backspace at the start of the second word finds a
      newline before the cursor and deletes nothing. */
  lemma EmptyContinuationKeepsAll()
    ensures Keys(Doc(BLANK, 0, 0), TrapKeys()) == Trapped()
    ensures Ok(Trapped()) && Before(Trapped()) == "x\n" && !Deletes(Trapped())
    ensures var e := Press(Trapped(), Back);
      e != Trapped() && Ok(e) && Before(e) == Before(Trapped()) && After(e) == After(Trapped())
  {
    hide TrapKeys, Keys, Before, After;
    TrapIsReached();
    var d, p := Trapped(), Piece(Bees(MAXCOL - 1), false);
    assert d.ps == [Piece("x", false)] + [Piece("", true), p] + [];
    AtStart(d, [Piece("x", false)], Piece("", true), p, []);
    JoinShortens(d);
    GlueAppend([], Piece("x", false));
    assert [] + [Piece("x", false)] == [Piece("x", false)];
  }

  // ---- loading and saving: load_put, load, save --------------------------------------------

  const BLANK: seq<Piece> := [Piece("", false)]

  function AppendLast(ps: seq<Piece>, c: char): seq<Piece>
    requires ps != []
  {
    var y := |ps| - 1;
    ps[y := ps[y].(text := ps[y].text + [c])]
  }

  /** load_put: the pieces with c on the end, and whether there was room. */
  function LoadPut(ps: seq<Piece>, c: char): (seq<Piece>, bool)
    requires Fits(ps)
  {
    var y := |ps| - 1;
    if |ps[y].text| < MAXCOL then (AppendLast(ps, c), true)
    else if |ps| >= MAXLINES then (ps, false)
    else (AppendLast(Split(ps, y, SoftCut(ps[y].text)), c), true)
  }

  /** How a load ended: whole, no more room, or not a text file. */
  datatype Cut = Whole | Truncated | NotText

  datatype Loading = Loading(ps: seq<Piece>, cut: Cut)

  predicate LoadOk(l: Loading) {
    Fits(l.ps) && !l.ps[|l.ps| - 1].cont
  }

  /** One byte of the file. */
  function LoadChar(l: Loading, c: char): (m: Loading)
    requires LoadOk(l)
    ensures LoadOk(m)
  {
    hide LoadPut, Flat;
    if l.cut != Whole || c == '\r' then l
    else if c == '\n' then
      if |l.ps| >= MAXLINES then l.(cut := Truncated) else l.(ps := l.ps + BLANK)
    else if c == '\t' then
      LoadPutKeeps(l.ps, ' ');
      var (once, ok1) := LoadPut(l.ps, ' ');
      if !ok1 then l.(cut := Truncated)
      else
        LoadPutKeeps(once, ' ');
        var (twice, ok2) := LoadPut(once, ' ');
        Loading(twice, if ok2 then Whole else Truncated)
    else if c < ' ' || c > '~' then l.(cut := NotText)
    else
      LoadPutKeeps(l.ps, c);
      var (put, ok) := LoadPut(l.ps, c);
      Loading(put, if ok then Whole else Truncated)
  }

  lemma LoadPutKeeps(ps: seq<Piece>, c: char)
    requires Fits(ps) && !ps[|ps| - 1].cont
    ensures var (qs, ok) := LoadPut(ps, c);
      Fits(qs) && !qs[|qs| - 1].cont && Flat(qs) == Flat(ps) + if ok then [c] else ""
  {
    hide Flat, SoftCut, Split;
    var y := |ps| - 1;
    if |ps[y].text| < MAXCOL {
      AppendLastFlat(ps, c);
    } else if |ps| < MAXLINES {
      var at := SoftCut(ps[y].text);
      SplitKeeps(ps, y, at);
      SplitIsFlat(ps, y, at);
      AppendLastFlat(Split(ps, y, at), c);
    }
  }

  lemma AppendLastFlat(ps: seq<Piece>, c: char)
    requires ps != []
    ensures Flat(AppendLast(ps, c)) == Flat(ps) + [c]
  {
    hide Flat, Glue;
    var a, p := ps[..|ps| - 1], ps[|ps| - 1];
    var q := p.(text := p.text + [c]);
    assert ps == a + [p] + [] && AppendLast(ps, c) == a + [q] + [];
    FlatOfParts(a, p, []);
    FlatOfParts(a, q, []);
  }

  lemma NewLineFlat(ps: seq<Piece>)
    requires ps != [] && !ps[|ps| - 1].cont
    ensures Flat(ps + BLANK) == Flat(ps) + "\n"
  {
    hide Flat, Glue;
    var a, p := ps[..|ps| - 1], ps[|ps| - 1];
    assert ps == a + [p] + [] && ps + BLANK == a + [p] + BLANK;
    FlatOfParts(a, p, []);
    FlatOfParts(a, p, BLANK);
  }

  function LoadText(text: string): (l: Loading)
    ensures LoadOk(l)
  {
    if text == "" then Loading(BLANK, Whole) else LoadChar(LoadText(text[..|text| - 1]), text[|text| - 1])
  }

  /** The document a load leaves on screen: blank when the file was not text. */
  function Loaded(text: string): seq<Piece> {
    if LoadText(text).cut.NotText? then BLANK else LoadText(text).ps
  }

  /** The text with its CRs dropped and each tab two spaces. */
  function Norm(text: string): string {
    if text == "" then ""
    else
      var c := text[|text| - 1];
      Norm(text[..|text| - 1]) + if c == '\r' then "" else if c == '\t' then "  " else [c]
  }

  predicate TextByte(c: char) {
    ' ' <= c <= '~' || c in "\r\n\t"
  }

  predicate IsText(text: string) {
    forall i :: 0 <= i < |text| ==> TextByte(text[i])
  }

  // ---- how much room a text needs ------------------------------------------------------------

  /** The lines between the newlines, the last of them after the last newline. */
  function Lines(text: string): (ls: seq<string>)
    ensures ls != []
  {
    if text == "" then [""]
    else
      var ls := Lines(text[..|text| - 1]);
      var c := text[|text| - 1];
      if c == '\n' then ls + [""] else ls[|ls| - 1 := ls[|ls| - 1] + [c]]
  }

  function LastLine(text: string): string {
    Lines(text)[|Lines(text)| - 1]
  }

  /** How many pieces one line takes: a line too long for one is cut as a full piece is, and what
      follows the cut is a line again. */
  function Pieces(line: string): (n: nat)
    ensures n >= 1
  {
    if |line| <= MAXCOL then 1 else 1 + Pieces(line[SoftCut(line[..MAXCOL])..])
  }

  /** The last of those pieces. */
  function LastPiece(line: string): (s: string)
    ensures |s| <= MAXCOL
  {
    if |line| <= MAXCOL then line else LastPiece(line[SoftCut(line[..MAXCOL])..])
  }

  function Needed(ls: seq<string>): nat {
    if ls == [] then 0 else Needed(ls[..|ls| - 1]) + Pieces(ls[|ls| - 1])
  }

  /** The file's text, as the editor holds it, takes no more pieces than there are. */
  predicate HasRoom(text: string) {
    Needed(Lines(Norm(text))) <= MAXLINES
  }

  lemma {:induction false} OneMore(line: string, c: char)
    ensures |LastPiece(line)| < MAXCOL ==>
      Pieces(line + [c]) == Pieces(line) && LastPiece(line + [c]) == LastPiece(line) + [c]
    ensures |LastPiece(line)| == MAXCOL ==>
      Pieces(line + [c]) == Pieces(line) + 1
      && LastPiece(line + [c]) == LastPiece(line)[SoftCut(LastPiece(line))..] + [c]
    decreases |line|
  {
    hide CutAt;
    if |line| == MAXCOL {
      assert (line + [c])[..MAXCOL] == line;
      assert line[..MAXCOL] == line;
      assert (line + [c])[SoftCut(line)..] == line[SoftCut(line)..] + [c];
    } else if |line| > MAXCOL {
      var at := SoftCut(line[..MAXCOL]);
      assert (line + [c])[..MAXCOL] == line[..MAXCOL];
      assert (line + [c])[at..] == line[at..] + [c];
      OneMore(line[at..], c);
    }
  }

  lemma NeededLast(ls: seq<string>, line: string)
    requires ls != []
    ensures Needed(ls + [line]) == Needed(ls) + Pieces(line)
    ensures Needed(ls[|ls| - 1 := line]) == Needed(ls) - Pieces(ls[|ls| - 1]) + Pieces(line)
  {
    assert (ls + [line])[..|ls|] == ls;
    assert ls[|ls| - 1 := line][..|ls| - 1] == ls[..|ls| - 1];
  }

  /** The pieces are those the lines need, and the last piece is the last of them. */
  predicate Holds(ps: seq<Piece>, text: string) {
    ps != [] && |ps| == Needed(Lines(text)) && ps[|ps| - 1].text == LastPiece(LastLine(text))
  }

  lemma HeldFits(ps: seq<Piece>, text: string)
    requires Fits(ps) && Holds(ps, text)
    ensures Needed(Lines(text)) <= MAXLINES
  {
  }

  /** A character of a line counts a piece more exactly when the last piece is full. */
  lemma CharNeeds(text: string, c: char)
    requires c != '\n'
    ensures LastLine(text + [c]) == LastLine(text) + [c]
    ensures Needed(Lines(text + [c]))
        == Needed(Lines(text)) + if |LastPiece(LastLine(text))| < MAXCOL then 0 else 1
  {
    hide Needed, Pieces, LastPiece, SoftCut;
    var ls, line := Lines(text), LastLine(text);
    assert (text + [c])[..|text|] == text;
    assert Lines(text + [c]) == ls[|ls| - 1 := line + [c]];
    NeededLast(ls, line + [c]);
    OneMore(line, c);
  }

  lemma LoadPutShape(ps: seq<Piece>, c: char)
    requires Fits(ps)
    ensures var (qs, ok) := LoadPut(ps, c);
      var p := ps[|ps| - 1].text;
      (ok <==> |p| < MAXCOL || |ps| < MAXLINES)
      && (ok ==> qs != [])
      && (ok ==> |qs| == |ps| + if |p| < MAXCOL then 0 else 1)
      && (ok ==> qs[|qs| - 1].text == if |p| < MAXCOL then p + [c] else p[SoftCut(p)..] + [c])
  {
    hide SoftCut;
  }

  /** A character of a line: there is room for it exactly when there is room for the line with it. */
  lemma LoadPutHolds(ps: seq<Piece>, c: char, text: string)
    requires Fits(ps) && c != '\n' && Holds(ps, text)
    ensures var (qs, ok) := LoadPut(ps, c);
      (ok <==> Needed(Lines(text + [c])) <= MAXLINES) && (ok ==> Holds(qs, text + [c]))
  {
    hide Needed, Pieces, LastPiece, SoftCut, Lines, LoadPut;
    CharNeeds(text, c);
    OneMore(LastLine(text), c);
    LoadPutShape(ps, c);
  }

  lemma NewLineHolds(ps: seq<Piece>, text: string)
    requires Fits(ps) && Holds(ps, text)
    ensures Needed(Lines(text + "\n")) == |ps| + 1 && Holds(ps + BLANK, text + "\n")
  {
    hide Needed;
    var ls := Lines(text);
    assert (text + "\n")[..|text|] == text;
    assert Lines(text + "\n") == ls + [""];
    NeededLast(ls, "");
  }

  /** No text needs less room than its beginning. */
  lemma RoomGrows(text: string, c: char)
    ensures Needed(Lines(text)) <= Needed(Lines(text + [c]))
  {
    hide Needed, Pieces, LastPiece;
    var ls := Lines(text);
    assert (text + [c])[..|text|] == text;
    NeededLast(ls, if c == '\n' then "" else ls[|ls| - 1] + [c]);
    OneMore(ls[|ls| - 1], c);
  }

  function Added(c: char): string {
    if c == '\r' then "" else if c == '\t' then "  " else [c]
  }

  lemma NormAppend(text: string, c: char)
    ensures Norm(text + [c]) == Norm(text) + Added(c)
    ensures IsText(text + [c]) <==> IsText(text) && TextByte(c)
  {
    assert (text + [c])[..|text|] == text;
    assert (text + [c])[|text|] == c;
    if IsText(text + [c]) {
      forall i | 0 <= i < |text| ensures TextByte(text[i]) { assert (text + [c])[i] == text[i]; }
    }
  }

  lemma AddedGrows(text: string, c: char)
    ensures Needed(Lines(text)) <= Needed(Lines(text + Added(c)))
  {
    hide Needed, Lines;
    if c == '\r' {
      assert text + "" == text;
    } else if c == '\t' {
      RoomGrows(text, ' ');
      RoomGrows(text + " ", ' ');
      assert text + " " + " " == text + "  ";
    } else {
      RoomGrows(text, c);
    }
  }

  /** One byte, from a load that is whole so far: it stays whole exactly when the byte is text and
      there is room for what it stands for, and it stops as not text only at a byte that is not. */
  lemma LoadCharHolds(l: Loading, c: char, text: string)
    requires LoadOk(l) && l.cut == Whole && Holds(l.ps, text)
    ensures var m := LoadChar(l, c);
      (m.cut == Whole <==> TextByte(c) && Needed(Lines(text + Added(c))) <= MAXLINES)
      && (m.cut == Whole ==> Holds(m.ps, text + Added(c)))
      && (m.cut == NotText <==> !TextByte(c))
  {
    hide Holds, LoadPut, Needed, Lines;
    if c == '\r' {
      assert text + "" == text;
      HeldFits(l.ps, text);
    } else if c == '\n' {
      NewLineHolds(l.ps, text);
    } else if c == '\t' {
      LoadPutKeeps(l.ps, ' ');
      LoadPutHolds(l.ps, ' ', text);
      var (once, ok) := LoadPut(l.ps, ' ');
      RoomGrows(text + " ", ' ');
      assert text + " " + " " == text + "  ";
      if ok { LoadPutHolds(once, ' ', text + " "); }
    } else if TextByte(c) {
      LoadPutHolds(l.ps, c, text);
    }
  }

  /** A load says it is whole of exactly the texts there is room for, and then holds all of the text;
      otherwise it holds the beginning of it, and less than all. */
  lemma {:induction false} LoadKeepsText(text: string)
    ensures var l := LoadText(text);
      (l.cut == Whole <==> IsText(text) && HasRoom(text))
      && (l.cut == Whole ==> Holds(l.ps, Norm(text)))
      && Flat(l.ps) <= Norm(text)
      && (l.cut == Whole <==> Flat(l.ps) == Norm(text))
  {
    hide Flat, Holds, LoadChar, Needed, Lines, Norm, IsText;
    if text == "" {
      BlankIsWhole();
    } else {
      var init, c := text[..|text| - 1], text[|text| - 1];
      LoadKeepsText(init);
      LoadCharText(LoadText(init), c);
      NormAppend(init, c);
      AddedGrows(Norm(init), c);
      assert text == init + [c];
      if LoadText(init).cut == Whole { LoadCharHolds(LoadText(init), c, Norm(init)); }
    }
  }

  lemma BlankIsWhole()
    ensures Flat(BLANK) == "" && Norm("") == "" && IsText("") && Holds(BLANK, "") && HasRoom("")
  {
    assert Lines("") == [""];
    assert Needed([""]) == Needed([]) + Pieces("");
  }

  lemma LoadCharText(l: Loading, c: char)
    requires LoadOk(l)
    ensures var m := LoadChar(l, c);
      (l.cut != Whole ==> m == l)
      && (l.cut == Whole ==> Flat(m.ps) <= Flat(l.ps) + Added(c))
      && (l.cut == Whole ==> (m.cut == Whole <==> Flat(m.ps) == Flat(l.ps) + Added(c)))
  {
    hide Flat, LoadPut;
    if l.cut == Whole {
      if c == '\n' {
        if |l.ps| < MAXLINES { NewLineFlat(l.ps); }
      } else if c == '\t' {
        LoadPutKeeps(l.ps, ' ');
        var (once, ok1) := LoadPut(l.ps, ' ');
        LoadPutKeeps(once, ' ');
      } else if ' ' <= c <= '~' {
        LoadPutKeeps(l.ps, c);
      }
    }
  }

  /** Byte i is not text, and all before it is and has room. */
  predicate StopsAt(text: string, i: nat) {
    i < |text| && !TextByte(text[i]) && IsText(text[..i]) && HasRoom(text[..i])
  }

  lemma StopsInside(text: string, i: nat)
    ensures i >= |text| ==> !StopsAt(text, i)
  {
  }

  lemma StopsLater(text: string, c: char, i: nat)
    ensures i < |text| ==> (StopsAt(text + [c], i) <==> StopsAt(text, i))
    ensures StopsAt(text + [c], |text|) <==> !TextByte(c) && IsText(text) && HasRoom(text)
    ensures i > |text| ==> !StopsAt(text + [c], i)
  {
    hide TextByte, IsText, HasRoom;
    if i < |text| { assert (text + [c])[..i] == text[..i]; }
    assert (text + [c])[..|text|] == text;
  }

  /** Which loads stop as not text: those that reach a byte that is not. */
  lemma {:induction false} NotTextExactly(text: string)
    ensures LoadText(text).cut == NotText <==> exists i: nat :: StopsAt(text, i)
  {
    hide LoadChar, StopsAt, IsText, HasRoom, TextByte;
    if text == "" {
      forall i: nat ensures !StopsAt(text, i) { StopsInside(text, i); }
    } else {
      var n := |text| - 1;
      var init, c := text[..n], text[n];
      assert text == init + [c];
      NotTextExactly(init);
      LoadKeepsText(init);
      LoadCharText(LoadText(init), c);
      forall i: nat
        ensures i < n ==> (StopsAt(text, i) <==> StopsAt(init, i))
        ensures StopsAt(text, n) <==> !TextByte(c) && IsText(init) && HasRoom(init)
        ensures i > n ==> !StopsAt(text, i)
        ensures i >= n ==> !StopsAt(init, i)
      {
        StopsLater(init, c, i);
        StopsInside(init, i);
      }
      assert StopsAt(text, n) <==> !TextByte(c) && LoadText(init).cut == Whole;
      if LoadText(init).cut == Whole {
        LoadCharHolds(LoadText(init), c, Norm(init));
      } else if LoadText(init).cut == NotText {
        var i: nat :| StopsAt(init, i);
        assert StopsAt(text, i);
      }
    }
  }

  lemma {:induction false} NormIsPlain(text: string)
    ensures forall i :: 0 <= i < |Norm(text)| ==> Norm(text)[i] != '\r' && Norm(text)[i] != '\t'
    ensures (forall i :: 0 <= i < |text| ==> text[i] != '\r' && text[i] != '\t') ==> Norm(text) == text
  {
    if text != "" {
      NormIsPlain(text[..|text| - 1]);
      assert text == text[..|text| - 1] + [text[|text| - 1]];
    }
  }

  /** Opening a file and saving it writes back the text, CRs dropped and tabs as two spaces, of exactly
      the texts there is room for, and the very bytes of exactly those among them with no CR and no tab.
      Of any other the save writes the beginning of that text, or nothing. */
  lemma LoadThenSave(text: string)
    ensures Flat(Loaded(text)) == Norm(text) <==> IsText(text) && HasRoom(text)
    ensures Flat(Loaded(text)) == text <==> IsText(text) && HasRoom(text) && '\r' !in text && '\t' !in text
    ensures Flat(Loaded(text)) <= Norm(text)
    ensures LoadText(text).cut == NotText ==> Flat(Loaded(text)) == ""
    ensures Ok(Doc(Loaded(text), 0, 0))
  {
    hide Flat, Norm, LoadText, HasRoom, IsText;
    LoadKeepsText(text);
    BlankIsWhole();
    NormIsPlain(text);
  }

  lemma {:induction false} NeededOfShort(ls: seq<string>)
    requires forall i :: 0 <= i < |ls| ==> |ls[i]| <= MAXCOL
    ensures Needed(ls) == |ls|
  {
    if ls != [] { NeededOfShort(ls[..|ls| - 1]); }
  }

  /** So a text of at most MAXLINES lines, none of them longer than MAXCOL, loads whole and is saved as
      it was. */
  lemma ShortLinesComeBack(text: string)
    requires IsText(text) && |Lines(Norm(text))| <= 96
    requires forall i :: 0 <= i < |Lines(Norm(text))| ==> |Lines(Norm(text))[i]| <= 64
    ensures LoadText(text).cut == Whole && Flat(Loaded(text)) == Norm(text)
  {
    hide Flat, Norm, LoadText, IsText, Lines, Needed, Pieces;
    NeededOfShort(Lines(Norm(text)));
    LoadThenSave(text);
    LoadKeepsText(text);
  }

  function Newlines(n: nat): string { seq(n, _ => '\n') }

  lemma {:induction false} LinesOfNewlines(n: nat)
    ensures Lines(Newlines(n)) == seq(n + 1, _ => "")
  {
    if n > 0 {
      LinesOfNewlines(n - 1);
      assert Newlines(n)[..n - 1] == Newlines(n - 1);
    }
  }

  /** A file of 96 newlines has 97 lines, and is cut. */
  lemma OneLineTooMany()
    ensures var text := Newlines(96);
      IsText(text) && !HasRoom(text) && Flat(Loaded(text)) != Norm(text)
  {
    hide Flat, Norm, Loaded, Lines, Needed;
    var text := Newlines(MAXLINES);
    NormIsPlain(text);
    LinesOfNewlines(MAXLINES);
    NeededOfShort(Lines(text));
    LoadThenSave(text);
  }
}
