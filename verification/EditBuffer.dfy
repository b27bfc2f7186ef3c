/** The editor's buffer as the source holds it: fixed-width rows of characters, lengths and flags in
    arrays that every key shifts in place.  `pieces` is the document they stand for, and each method
    makes of it what the function in EditDoc says. */
module EditBuffer {
  import opened Common
  import opened EditDoc

  class Editor {
    const line: array2<char>
    const len: array<int>
    const cont: array<bool>
    var nlines: nat
    var cx: nat
    var cy: nat
    var dirty: bool
    ghost var pieces: seq<Piece>

    predicate Dims() {
      line.Length0 == MAXLINES && line.Length1 == MAXCOL + 1 && len.Length == MAXLINES && cont.Length == MAXLINES
    }

    /** Row y of the arrays holds piece p. */
    ghost predicate Holds(y: nat, p: Piece)
      reads line, len, cont
      requires Dims() && y < MAXLINES
    {
      len[y] == |p.text| <= MAXCOL && cont[y] == p.cont
      && forall i :: 0 <= i < |p.text| ==> line[y, i] == p.text[i]
    }

    ghost predicate Rows()
      reads this`nlines, this`pieces, line, len, cont
    {
      Dims() && 1 <= nlines <= MAXLINES && |pieces| == nlines
      && forall y :: 0 <= y < nlines ==> Holds(y, pieces[y])
    }

    /** The rows past the last are as `blank` left them. */
    ghost predicate Unused()
      reads this`nlines, len, cont
      requires Dims()
    {
      forall k :: nlines <= k < MAXLINES ==> len[k] == 0 && !cont[k]
    }

    ghost predicate Valid()
      reads this, line, len, cont
    {
      Rows() && Ok(Doc(pieces, cy, cx))
    }

    ghost function View(): Doc
      reads this
    {
      Doc(pieces, cy, cx)
    }

    /** mem_cpy of a whole row. */
    method CopyRow(to: nat, from: nat)
      requires Dims() && to < MAXLINES && from < MAXLINES
      modifies line, len, cont
      ensures forall y, i :: 0 <= y < MAXLINES && 0 <= i <= MAXCOL ==>
        line[y, i] == if y == to then old(line[from, i]) else old(line[y, i])
      ensures forall y :: 0 <= y < MAXLINES ==> len[y] == if y == to then old(len[from]) else old(len[y])
      ensures forall y :: 0 <= y < MAXLINES ==> cont[y] == if y == to then old(cont[from]) else old(cont[y])
    {
      forall i | 0 <= i <= MAXCOL { line[to, i] := line[from, i]; }
      len[to] := len[from];
      cont[to] := cont[from];
    }

    /** mem_cpy of n characters between two rows. */
    method MemCpy(to: nat, toCol: nat, from: nat, fromCol: nat, n: nat)
      requires Dims() && to < MAXLINES && from < MAXLINES && to != from
      requires toCol + n <= MAXCOL + 1 && fromCol + n <= MAXCOL + 1
      modifies line
      ensures forall y, i :: 0 <= y < MAXLINES && 0 <= i <= MAXCOL ==>
        line[y, i]
        == if y == to && toCol <= i < toCol + n then old(line[from, fromCol + i - toCol]) else old(line[y, i])
    {
      for k := 0 to n
        invariant forall y, i :: 0 <= y < MAXLINES && 0 <= i <= MAXCOL ==>
          line[y, i]
          == if y == to && toCol <= i < toCol + k then old(line[from, fromCol + i - toCol]) else old(line[y, i])
      {
        line[to, toCol + k] := line[from, fromCol + k];
      }
    }

    /** open_line: room for an empty row at y, the rest moved down. */
    method OpenLine(y: nat) returns (ok: bool)
      requires Rows() && y <= nlines
      modifies this`nlines, this`pieces, line, len, cont
      ensures Rows()
      ensures old(Unused()) ==> Unused()
      ensures ok == (old(nlines) < MAXLINES)
      ensures pieces == if ok then old(pieces)[..y] + [Piece("", false)] + old(pieces)[y..] else old(pieces)
    {
      if nlines >= MAXLINES { return false; }
      ghost var ps := pieces[..y] + [Piece("", false)] + pieces[y..];
      var i := nlines;
      while i > y
        invariant y <= i <= nlines
        invariant forall k :: 0 <= k < i ==> Holds(k, pieces[k])
        invariant forall k :: i < k <= nlines ==> Holds(k, ps[k])
        invariant forall k :: nlines < k < MAXLINES ==> len[k] == old(len[k]) && cont[k] == old(cont[k])
        modifies line, len, cont
      {
        assert Holds(i - 1, pieces[i - 1]) && ps[i] == pieces[i - 1];
        CopyRow(i, i - 1);
        i := i - 1;
      }
      len[y], cont[y] := 0, false;
      forall k | 0 <= k < y ensures Holds(k, ps[k]) {
        assert ps[k] == pieces[k];
      }
      pieces := ps;
      nlines := nlines + 1;
      return true;
    }

    /** close_line: row y goes, the rest move up. */
    method CloseLine(y: nat)
      requires Rows() && y < nlines && nlines > 1
      modifies this`nlines, this`pieces, line, len, cont
      ensures Rows() && nlines == old(nlines) - 1 && pieces == old(pieces)[..y] + old(pieces)[y + 1..]
    {
      ghost var ps := pieces[..y] + pieces[y + 1..];
      var i := y;
      while i + 1 < nlines
        invariant y <= i < nlines
        invariant forall k :: 0 <= k < i ==> Holds(k, ps[k])
        invariant forall k :: i < k < nlines ==> Holds(k, pieces[k])
        modifies line, len, cont
      {
        assert Holds(i + 1, pieces[i + 1]) && ps[i] == pieces[i + 1];
        CopyRow(i, i + 1);
        i := i + 1;
      }
      pieces := ps;
      nlines := nlines - 1;
    }

    /** Where soft_split cuts: after the last space, or before the last character. */
    method FindCut(y: nat) returns (at: int)
      requires Rows() && y < nlines && |pieces[y].text| == MAXCOL
      ensures at == SoftCut(pieces[y].text)
    {
      ghost var p := pieces[y];
      assert Holds(y, p);
      at := MAXCOL - 1;
      var s := len[y] - 2;
      while s >= 1
        invariant 0 <= s <= MAXCOL - 2
        invariant SoftCut(p.text) == CutAt(p.text, s)
      {
        if line[y, s] == ' ' { return s + 1; }
        s := s - 1;
      }
    }

    /** soft_split: a full row carries what follows its last space onto a new one; -1 when there is no
        room for it. */
    method SoftSplit(y: nat) returns (at: int)
      requires Rows() && y < nlines && |pieces[y].text| == MAXCOL
      modifies this`nlines, this`pieces, line, len, cont
      ensures Rows()
      ensures old(Unused()) ==> Unused()
      ensures if old(nlines) >= MAXLINES then at == -1 && pieces == old(pieces) && nlines == old(nlines)
              else at == SoftCut(old(pieces[y].text)) && pieces == EditDoc.Split(old(pieces), y, at)
    {
      ghost var ps := pieces;
      at := FindCut(y);
      var ok := OpenLine(y + 1);
      if !ok { return -1; }
      assert pieces == ps[..y + 1] + [Piece("", false)] + ps[y + 1..];
      CutRow(y, at, true);
      assert pieces == EditDoc.Split(ps, y, at);
    }

    /** The empty row after y takes what follows column `at`, and y's flag; y is left with flag c. */
    method CutRow(y: nat, at: nat, c: bool)
      requires Rows() && y + 1 < nlines && pieces[y + 1] == Piece("", false) && at <= |pieces[y].text|
      modifies this`pieces, line, len, cont
      ensures Rows()
      ensures old(Unused()) ==> Unused()
      ensures var p := old(pieces[y]);
        pieces == old(pieces)[y := Piece(p.text[..at], c)][y + 1 := Piece(p.text[at..], p.cont)]
    {
      ghost var p := pieces[y];
      assert Holds(y, p) && Holds(y + 1, pieces[y + 1]);
      var tail := len[y] - at;
      MemCpy(y + 1, 0, y, at, tail);
      len[y + 1], len[y] := tail, at;
      cont[y + 1] := cont[y];
      cont[y] := c;
      ghost var ps := pieces;
      pieces := pieces[y := Piece(p.text[..at], c)][y + 1 := Piece(p.text[at..], p.cont)];
      forall k | 0 <= k < nlines ensures Holds(k, pieces[k]) {
        if k != y && k != y + 1 { assert old(Holds(k, ps[k])); }
      }
    }

    /** load_put: one character onto the last row; false when there are no more rows. */
    method LoadPut(c: char) returns (ok: bool)
      requires Rows()
      modifies this`nlines, this`pieces, line, len, cont
      ensures Rows()
      ensures old(Unused()) ==> Unused()
      ensures (pieces, ok) == EditDoc.LoadPut(old(pieces), c)
    {
      assert Holds(nlines - 1, pieces[nlines - 1]);
      var y := nlines - 1;
      if len[y] >= MAXCOL {
        var at := SoftSplit(y);
        if at < 0 { return false; }
        y := y + 1;
        assert y == nlines - 1 && Holds(y, pieces[y]);
      }
      ghost var p := pieces[y];
      PutAt(y, len[y], c);
      assert InsertIn(p, |p.text|, c).text == p.text + [c];
      return true;
    }

    /** The characters of row y from x on move right by one. */
    method MakeRoom(y: nat, x: nat)
      requires Dims() && y < MAXLINES && x <= len[y] < MAXCOL
      modifies line
      ensures forall k :: 0 <= k < x ==> line[y, k] == old(line[y, k])
      ensures forall k :: x < k <= len[y] ==> line[y, k] == old(line[y, k - 1])
      ensures forall r, k :: 0 <= r < MAXLINES && r != y && 0 <= k <= MAXCOL ==> line[r, k] == old(line[r, k])
    {
      var i := len[y];
      while i > x
        invariant x <= i <= len[y]
        invariant forall k :: 0 <= k < i ==> line[y, k] == old(line[y, k])
        invariant forall k :: i < k <= len[y] ==> line[y, k] == old(line[y, k - 1])
        invariant forall r, k :: 0 <= r < MAXLINES && r != y && 0 <= k <= MAXCOL ==> line[r, k] == old(line[r, k])
      {
        line[y, i] := line[y, i - 1];
        i := i - 1;
      }
    }

    /** The characters of row y from x on move right by one and c goes in. */
    method PutAt(y: nat, x: nat, c: char)
      requires Rows() && y < nlines && x <= |pieces[y].text| < MAXCOL
      modifies this`pieces, line, len
      ensures old(Unused()) ==> Unused()
      ensures Rows() && pieces == old(pieces)[y := InsertIn(old(pieces[y]), x, c)]
    {
      ghost var ps, p := pieces, pieces[y];
      assert Holds(y, p);
      MakeRoom(y, x);
      line[y, x] := c;
      len[y] := len[y] + 1;
      pieces := ps[y := InsertIn(p, x, c)];
      forall k | 0 <= k < nlines ensures Holds(k, pieces[k]) {
        if k != y { assert old(Holds(k, ps[k])); }
      }
    }

    /** insert_char. */
    method InsertChar(c: char)
      requires Valid()
      modifies this, line, len, cont
      ensures Valid() && View() == EditDoc.InsertChar(old(View()), c)
    {
      hide EditDoc.SplitAtCursor, SoftCut, EditDoc.Split, InsertIn, Ok, Before, After;
      ghost var d := View();
      InRange(d);
      TypingInserts(d, c);
      assert Holds(cy, pieces[cy]);
      if len[cy] >= MAXCOL {
        var at := SoftSplit(cy);
        if at < 0 { return; }
        SplitAtCursorFlat(d);
        SplitCursor(d);
        if cx > at { cy, cx := cy + 1, cx - at; }
        InRange(View());
      }
      PutAt(cy, cx, c);
      cx := cx + 1;
      dirty := true;
    }

    static lemma SplitCursor(d: Doc)
      requires Ok(d) && |d.ps[d.cy].text| == MAXCOL
      ensures var at := SoftCut(d.ps[d.cy].text);
        EditDoc.SplitAtCursor(d)
        == Doc(EditDoc.Split(d.ps, d.cy, at),
               if d.cx > at then d.cy + 1 else d.cy, if d.cx > at then d.cx - at else d.cx)
    {
    }

    /** split_line. */
    method SplitLine()
      requires Valid()
      modifies this, line, len, cont
      ensures Valid() && View() == EditDoc.SplitLine(old(View()))
    {
      hide Ok, Before, After, LeadingSpaces, Spaces, Holds, EditDoc.SplitLine, Fits, StartsWith;
      ghost var d := View();
      InRange(d);
      ghost var k := StartOf(d);
      EnterSplits(d, k);
      var ok := BreakLine();
      if !ok { return; }
      cx := IndentLine(cy + 1);
      SplitLineParts(d);
      cy := cy + 1;
      dirty := true;
    }

    static lemma SplitLineParts(d: Doc)
      requires Ok(d) && |d.ps| < MAXLINES
      ensures var p1, p2 := Piece(d.ps[d.cy].text[..d.cx], false), Piece(d.ps[d.cy].text[d.cx..], d.ps[d.cy].cont);
        var broken := d.ps[..d.cy] + [p1, p2] + d.ps[d.cy + 1..];
        EditDoc.SplitLine(d)
        == Doc(broken[d.cy + 1 := p2.(text := Spaces(Indent(d)) + p2.text)], d.cy + 1, Indent(d))
    {
    }

    /** A real newline at the cursor: the rest of the row goes to a new one. */
    method BreakLine() returns (ok: bool)
      requires Rows() && cy < nlines && cx <= |pieces[cy].text|
      modifies this`nlines, this`pieces, line, len, cont
      ensures Rows() && ok == (|old(pieces)| < MAXLINES)
      ensures var ps, p := old(pieces), old(pieces)[cy];
        pieces == if !ok then ps
                  else ps[..cy] + [Piece(p.text[..cx], false), Piece(p.text[cx..], p.cont)] + ps[cy + 1..]
    {
      hide Holds;
      ghost var ps := pieces;
      ok := OpenLine(cy + 1);
      if !ok { return; }
      assert pieces == ps[..cy + 1] + [Piece("", false)] + ps[cy + 1..];
      CutRow(cy, cx, false);
    }

    /** Row y takes the indent of the row before it, when there is room; the column after it. */
    method IndentLine(y: nat) returns (x: nat)
      requires Rows() && 0 < y < nlines
      modifies this`pieces, line, len
      ensures Rows()
      ensures var ind := LeadingSpaces(old(pieces)[y - 1].text);
        x == (if |old(pieces)[y].text| + ind <= MAXCOL then ind else 0)
        && pieces == old(pieces)[y := old(pieces)[y].(text := Spaces(x) + old(pieces)[y].text)]
    {
      assert Holds(y, pieces[y]);
      var ind := CountIndent(y - 1);
      if ind > 0 && len[y] + ind <= MAXCOL {
        ShiftIn(y, ind);
        x := ind;
      } else {
        NoSpaces(pieces[y].text);
        x := 0;
      }
    }

    static lemma NoSpaces(t: string)
      ensures Spaces(0) + t == t
    {
    }

    method CountIndent(y: nat) returns (ind: nat)
      requires Rows() && y < nlines
      ensures ind == LeadingSpaces(pieces[y].text)
    {
      ghost var t := pieces[y].text;
      assert Holds(y, pieces[y]);
      ind := 0;
      while ind < len[y] && line[y, ind] == ' '
        invariant 0 <= ind <= |t|
        invariant LeadingSpaces(t) == ind + LeadingSpaces(t[ind..])
      {
        assert t[ind..][1..] == t[ind + 1..];
        ind := ind + 1;
      }
    }

    /** The new line moves right by the indent, its NUL with it, and spaces go in front. */
    method ShiftIn(y: nat, ind: nat)
      requires Rows() && y < nlines && |pieces[y].text| + ind <= MAXCOL && ind > 0
      modifies this`pieces, line, len
      ensures Rows()
      ensures pieces == old(pieces)[y := old(pieces[y]).(text := Spaces(ind) + old(pieces[y]).text)]
    {
      ghost var ps, q := pieces, pieces[y].(text := Spaces(ind) + pieces[y].text);
      assert Holds(y, ps[y]);
      ShiftRow(y, ind, pieces[y]);
      pieces := ps[y := q];
      forall k | 0 <= k < nlines ensures Holds(k, pieces[k]) {
        if k != y { assert old(Holds(k, ps[k])); }
      }
    }

    method ShiftRow(y: nat, ind: nat, ghost p: Piece)
      requires Dims() && y < MAXLINES && Holds(y, p) && |p.text| + ind <= MAXCOL && ind > 0
      modifies line, len
      ensures Holds(y, p.(text := Spaces(ind) + p.text))
      ensures forall r, k :: 0 <= r < MAXLINES && r != y && 0 <= k <= MAXCOL ==> line[r, k] == old(line[r, k])
      ensures forall r :: 0 <= r < MAXLINES && r != y ==> len[r] == old(len[r])
    {
      hide Spaces;
      MoveRight(y, ind, p);
      FillSpaces(y, ind);
      Spaced(ind, p.text);
      len[y] := len[y] + ind;
    }

    static lemma Spaced(ind: nat, text: string)
      ensures var t := Spaces(ind) + text;
        |t| == ind + |text| && forall i :: 0 <= i < |t| ==> t[i] == if i < ind then ' ' else text[i - ind]
    {
    }

    method FillSpaces(y: nat, ind: nat)
      requires Dims() && y < MAXLINES && ind <= MAXCOL
      modifies line
      ensures forall k :: 0 <= k < ind ==> line[y, k] == ' '
      ensures forall k :: ind <= k <= MAXCOL ==> line[y, k] == old(line[y, k])
      ensures forall r, k :: 0 <= r < MAXLINES && r != y && 0 <= k <= MAXCOL ==> line[r, k] == old(line[r, k])
    {
      for j := 0 to ind
        invariant forall k :: 0 <= k < j ==> line[y, k] == ' '
        invariant forall k :: j <= k <= MAXCOL ==> line[y, k] == old(line[y, k])
        invariant forall r, k :: 0 <= r < MAXLINES && r != y && 0 <= k <= MAXCOL ==> line[r, k] == old(line[r, k])
      {
        line[y, j] := ' ';
      }
    }

    method MoveRight(y: nat, ind: nat, ghost p: Piece)
      requires Dims() && y < MAXLINES && Holds(y, p) && |p.text| + ind <= MAXCOL && ind > 0
      modifies line
      ensures forall k :: ind <= k < ind + |p.text| ==> line[y, k] == p.text[k - ind]
      ensures forall r, k :: 0 <= r < MAXLINES && r != y && 0 <= k <= MAXCOL ==> line[r, k] == old(line[r, k])
    {
      var i := len[y];
      while i >= 0
        invariant -1 <= i <= |p.text|
        invariant forall k :: 0 <= k <= i && k < |p.text| ==> line[y, k] == p.text[k]
        invariant forall k :: i + ind < k < ind + |p.text| ==> line[y, k] == p.text[k - ind]
        invariant forall r, k :: 0 <= r < MAXLINES && r != y && 0 <= k <= MAXCOL ==> line[r, k] == old(line[r, k])
      {
        line[y, i + ind] := line[y, i];
        i := i - 1;
      }
    }

    /** join_prev. */
    method JoinPrev()
      requires Valid() && cx == 0
      modifies this, line, len, cont
      ensures Valid() && View() == EditDoc.JoinPrev(old(View()))
    {
      hide Ok, Holds;
      ghost var d := View();
      InRange(d);
      if cy == 0 { return; }
      JoinKeeps(d);
      var short := DropLast(cy - 1);
      if short { dirty := true; }
      var prev := JoinRows(cy - 1);
      if prev < 0 {
        assert pieces == d.ps || short;
        return;
      }
      cy := cy - 1;
      cx := prev;
      dirty := true;
    }

    /** Rows y and y + 1 become one when they fit; the column where they meet, or -1. */
    method JoinRows(y: nat) returns (at: int)
      requires Rows() && y + 1 < nlines
      modifies this`nlines, this`pieces, line, len, cont
      ensures Rows()
      ensures var ps := old(pieces);
        if |ps[y].text| + |ps[y + 1].text| > MAXCOL then at == -1 && pieces == ps
        else at == |ps[y].text|
             && pieces == ps[..y] + [Piece(ps[y].text + ps[y + 1].text, ps[y + 1].cont)] + ps[y + 2..]
    {
      assert Holds(y, pieces[y]) && Holds(y + 1, pieces[y + 1]);
      at := len[y];
      if at + len[y + 1] > MAXCOL { return -1; }
      Append(y);
      CloseLine(y + 1);
    }

    /** A row that runs on into the next loses its last character. */
    method DropLast(y: nat) returns (short: bool)
      requires Rows() && y < nlines
      modifies this`pieces, len
      ensures Rows()
      ensures var q := old(pieces[y]);
        short == (q.cont && |q.text| > 0)
        && pieces == old(pieces)[y := if short then q.(text := q.text[..|q.text| - 1]) else q]
    {
      ghost var ps, p := pieces, pieces[y];
      assert Holds(y, p);
      short := cont[y] && len[y] > 0;
      if !short { return; }
      len[y] := len[y] - 1;
      pieces := pieces[y := p.(text := p.text[..|p.text| - 1])];
      forall k | 0 <= k < nlines ensures Holds(k, pieces[k]) {
        if k != y { assert old(Holds(k, ps[k])); }
      }
    }

    /** Row y takes the characters and the flag of the row after it. */
    method Append(y: nat)
      requires Rows() && y + 1 < nlines && |pieces[y].text| + |pieces[y + 1].text| <= MAXCOL
      modifies this`pieces, line, len, cont
      ensures Rows()
      ensures pieces == old(pieces)[y := Piece(old(pieces[y]).text + old(pieces[y + 1]).text, old(pieces[y + 1]).cont)]
    {
      ghost var q, p := pieces[y], pieces[y + 1];
      assert Holds(y, q) && Holds(y + 1, p);
      var prev := len[y];
      MemCpy(y, prev, y + 1, 0, len[y + 1]);
      len[y] := prev + len[y + 1];
      cont[y] := cont[y + 1];
      ghost var ps := pieces;
      pieces := pieces[y := Piece(q.text + p.text, p.cont)];
      forall k | 0 <= k < nlines ensures Holds(k, pieces[k]) {
        if k != y { assert old(Holds(k, ps[k])); }
      }
    }

    /** backspace. */
    method Backspace()
      requires Valid()
      modifies this, line, len, cont
      ensures Valid() && View() == EditDoc.Backspace(old(View()))
    {
      if cx == 0 {
        JoinPrev();
        return;
      }
      hide Ok, Before, After;
      ghost var d := View();
      InRange(d);
      BackspaceInPiece(d);
      RemoveAt(cy, cx - 1);
      cx := cx - 1;
      dirty := true;
    }

    /** The characters of row y after x move left by one over it. */
    method RemoveAt(y: nat, x: nat)
      requires Rows() && y < nlines && x < |pieces[y].text|
      modifies this`pieces, line, len
      ensures Rows()
      ensures var p := old(pieces[y]); pieces == old(pieces)[y := p.(text := p.text[..x] + p.text[x + 1..])]
    {
      ghost var p := pieces[y];
      assert Holds(y, p);
      var i := x;
      while i + 1 < len[y]
        invariant x <= i < |p.text|
        invariant forall k :: 0 <= k < x ==> line[y, k] == p.text[k]
        invariant forall k :: x <= k < i ==> line[y, k] == p.text[k + 1]
        invariant forall k :: i < k < |p.text| ==> line[y, k] == p.text[k]
        invariant forall r, k :: 0 <= r < MAXLINES && r != y && 0 <= k <= MAXCOL ==> line[r, k] == old(line[r, k])
        modifies line
      {
        line[y, i] := line[y, i + 1];
        i := i + 1;
      }
      len[y] := len[y] - 1;
      ghost var ps := pieces;
      pieces := pieces[y := p.(text := p.text[..x] + p.text[x + 1..])];
      forall k | 0 <= k < nlines ensures Holds(k, pieces[k]) {
        if k != y { assert old(Holds(k, ps[k])); }
      }
    }

    constructor ()
      ensures Valid() && fresh(line) && fresh(len) && fresh(cont)
      ensures View() == Doc(BLANK, 0, 0)
    {
      line := new char[MAXLINES, MAXCOL + 1]((_, _) => '\0');
      len := new int[MAXLINES](_ => 0);
      cont := new bool[MAXLINES](_ => false);
      nlines, cx, cy, dirty := 1, 0, 0, false;
      pieces := BLANK;
    }

    /** blank: an empty document. */
    method Blank()
      requires Dims()
      modifies this, line, len, cont
      ensures Valid() && Unused() && View() == Doc(BLANK, 0, 0) && !dirty
    {
      forall y, i | 0 <= y < MAXLINES && 0 <= i <= MAXCOL { line[y, i] := '\0'; }
      forall y | 0 <= y < MAXLINES { len[y] := 0; }
      forall y | 0 <= y < MAXLINES { cont[y] := false; }
      nlines, cx, cy, dirty := 1, 0, 0, false;
      pieces := BLANK;
    }

    static lemma LoadOfNothing()
      ensures LoadText("") == Loading(EditDoc.BLANK, Whole)
    {
    }

    static lemma LoadStep(text: string, i: nat)
      requires i < |text|
      ensures LoadText(text[..i + 1]) == LoadChar(LoadText(text[..i]), text[i])
    {
      assert text[..i + 1][..i] == text[..i];
    }

    /** load, of the bytes of a file; the 512-byte reads are not visible. */
    method Load(text: string) returns (cut: Cut)
      requires Dims()
      modifies this, line, len, cont
      ensures Valid() && View() == Doc(Loaded(text), 0, 0)
      ensures cut == LoadText(text).cut
    {
      hide EditDoc.LoadChar, LoadText, Holds;
      Blank();
      cut := Whole;
      assert text[..0] == "";
      LoadOfNothing();
      for i := 0 to |text|
        invariant Valid() && Unused() && cx == 0 && cy == 0 && cut == Whole
        invariant Loading(pieces, cut) == LoadText(text[..i])
        invariant LoadText(text[..i]).cut == Whole
      {
        LoadStep(text, i);
        cut := LoadByte(text[i]);
        LoadedSoFar(text, i + 1);
        if cut != Whole {
          if cut == NotText { Blank(); }
          return;
        }
      }
      assert text[..|text|] == text;
    }

    /** Once a load is cut short, the rest of the file changes nothing. */
    static lemma {:induction false} LoadedSoFar(text: string, i: nat)
      requires i <= |text|
      ensures LoadText(text[..i]).cut != Whole ==> LoadText(text) == LoadText(text[..i])
    {
      hide EditDoc.LoadPut;
      if i == |text| {
        assert text[..i] == text;
      } else {
        var init := text[..|text| - 1];
        LoadedSoFar(init, i);
        assert init[..i] == text[..i];
      }
    }

    /** One byte of a file being loaded, onto the last row. */
    method LoadByte(c: char) returns (cut: Cut)
      requires Rows() && Unused() && !pieces[nlines - 1].cont
      modifies this`nlines, this`pieces, line, len, cont
      ensures Rows() && Unused() && !pieces[nlines - 1].cont
      ensures Loading(pieces, cut) == LoadChar(Loading(old(pieces), Whole), c)
    {
      hide EditDoc.LoadPut, Holds;
      RowsFit();
      ghost var ps := pieces;
      if c == '\r' { return Whole; }
      if c == '\n' {
        if nlines >= MAXLINES { return Truncated; }
        OneMore();
        return Whole;
      }
      if c == '\t' {
        LoadPutKeeps(pieces, ' ');
        var ok := LoadPut(' ');
        if !ok {
          NoRoomNoChange(ps, ' ');
          return Truncated;
        }
        LoadPutKeeps(pieces, ' ');
        ok := LoadPut(' ');
        return if ok then Whole else Truncated;
      }
      if c < ' ' || c > '~' { return NotText; }
      LoadPutKeeps(pieces, c);
      var ok := LoadPut(c);
      return if ok then Whole else Truncated;
    }

    lemma RowsFit()
      requires Rows()
      ensures Fits(pieces)
    {
      forall y | 0 <= y < nlines ensures |pieces[y].text| <= MAXCOL { assert Holds(y, pieces[y]); }
    }

    static lemma NoRoomNoChange(ps: seq<Piece>, c: char)
      requires Fits(ps)
      ensures !EditDoc.LoadPut(ps, c).1 ==> EditDoc.LoadPut(ps, c).0 == ps
    {
    }

    /** A newline while loading: the next row is already blank. */
    method OneMore()
      requires Rows() && Unused() && nlines < MAXLINES
      modifies this`nlines, this`pieces
      ensures Rows() && Unused() && pieces == old(pieces) + BLANK
    {
      assert len[nlines] == 0 && !cont[nlines];
      nlines := nlines + 1;
      pieces := pieces + BLANK;
    }

    /** The bytes a save writes. */
    method Save() returns (text: string)
      requires Valid()
      ensures text == Flat(pieces)
    {
      hide Flat;
      text := "";
      assert pieces[..0] == [];
      for i := 0 to nlines
        invariant text == if i < nlines then Glue(pieces[..i]) else Flat(pieces)
      {
        ghost var p := pieces[i];
        assert Holds(i, p);
        var row := Row(i);
        text := text + row;
        if i + 1 < nlines && !cont[i] { text := text + "\n"; }
        SaveStep(pieces, i);
      }
    }

    method Row(y: nat) returns (row: string)
      requires Rows() && y < nlines
      ensures row == pieces[y].text
    {
      assert Holds(y, pieces[y]);
      row := "";
      for i := 0 to len[y]
        invariant |row| == i && forall k :: 0 <= k < i ==> row[k] == pieces[y].text[k]
      {
        row := row + [line[y, i]];
      }
    }

    static lemma SaveStep(ps: seq<Piece>, i: nat)
      requires i < |ps|
      ensures if i + 1 < |ps| then Glue(ps[..i + 1]) == Glue(ps[..i]) + ps[i].text + Sep(ps[i])
              else Flat(ps) == Glue(ps[..i]) + ps[i].text
    {
      assert ps[..i + 1] == ps[..i] + [ps[i]];
      GlueAppend(ps[..i], ps[i]);
      if i + 1 == |ps| {
        assert ps == ps[..i] + [ps[i]] + [];
        FlatOfParts(ps[..i], ps[i], []);
      }
    }
  }
}
