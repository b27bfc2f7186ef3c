/** The terminal log and its word wrap: apps/termlog.h, lines 32-111. */
module TermLog {

  const LINES: nat := 100
  const COLS: nat := 40
  const THIRD: nat := 13

  datatype Entry = Entry(text: string, tag: nat)

  /** The last n of a sequence. */
  function Last(s: seq<Entry>, n: nat): (r: seq<Entry>)
    ensures |r| <= n
  {
    if |s| <= n then s else s[|s| - n..]
  }

  /** What api->fmt leaves of s in a line of the log, and a tag in sixteen bits. */
  function Logged(s: string, tag: int): Entry {
    Entry(if |s| <= COLS then s else s[..COLS], tag % 0x1_0000)
  }

  // ---- the wrap, as a function -------------------------------------------------------------

  /** The characters of a line as they are shown: no carriage returns, tabs as blanks. */
  function Shown(line: string): string {
    if line == "" then ""
    else if line[0] == '\r' then Shown(line[1..])
    else [if line[0] == '\t' then ' ' else line[0]] + Shown(line[1..])
  }

  /** A line is shown character by character: a tab as a blank, a carriage return not at all. */
  lemma {:induction false} ShownByCharacter(a: string, c: char)
    ensures Shown("") == "" && Shown(a + [c]) == Shown(a) + if c == '\r' then "" else if c == '\t' then " " else [c]
  {
    if a == "" {
      assert a + [c] == [c] && [c][1..] == "" && Shown("") == "";
    } else {
      ShownByCharacter(a[1..], c);
      assert (a + [c])[1..] == a[1..] + [c];
    }
  }

  /** Past the last blank of s, or 0. */
  function AfterBlank(s: string): (b: nat)
    ensures b <= |s| && (b > 0 ==> s[b - 1] == ' ') && forall i :: b <= i < |s| ==> s[i] != ' '
  {
    if s == "" || s[|s| - 1] == ' ' then |s| else AfterBlank(s[..|s| - 1])
  }

  /** Where a full line is broken: what is kept of it, and where what goes on to the next starts. */
  function CutAt(out: string): (nat, nat)
    requires |out| == COLS
  {
    var b := AfterBlank(out);
    if b > THIRD then (b - 1, b) else (COLS, COLS)
  }

  function Blanks(n: nat): (s: string)
    ensures |s| == n
  {
    seq(n, _ => ' ')
  }

  /** How far continuation lines are indented. */
  function Indent(indent: int): (n: nat)
    ensures n <= THIRD
    ensures if indent <= 0 then n == 0 else if indent >= 13 then n == 13 else n == indent
  {
    if indent < 0 then 0 else if indent > THIRD then THIRD else indent
  }

  /** The lines made of a line, `out` being the one under way. */
  function Wrap(out: string, rest: string, indent: nat): (lines: seq<string>)
    requires |out| <= COLS && indent <= THIRD
    ensures |lines| > 0
    decreases |rest|, |out|
  {
    if rest == "" then [out]
    else if |out| == COLS then
      var (cut, brk) := CutAt(out);
      [out[..cut]] + Wrap(Blanks(indent) + out[brk..], rest, indent)
    else Wrap(out + [rest[0]], rest[1..], indent)
  }

  /** What each break drops: the blank it is at, or nothing. */
  function Drops(out: string, rest: string, indent: nat): (gaps: seq<string>)
    requires |out| <= COLS && indent <= THIRD
    ensures |gaps| == |Wrap(out, rest, indent)| - 1
    decreases |rest|, |out|
  {
    if rest == "" then []
    else if |out| == COLS then
      var (cut, brk) := CutAt(out);
      [if cut < brk then " " else ""] + Drops(Blanks(indent) + out[brk..], rest, indent)
    else Drops(out + [rest[0]], rest[1..], indent)
  }

  function WrapLine(line: string, indent: int): seq<string> { Wrap("", Shown(line), Indent(indent)) }

  /** The lines put together again: continuation lines without their indent, and between lines what
      the break dropped. */
  function Unwrap(lines: seq<string>, gaps: seq<string>, indent: nat): string
    requires |lines| == |gaps| + 1 && forall i :: 1 <= i < |lines| ==> |lines[i]| >= indent
    decreases |gaps|
  {
    if gaps == [] then lines[0]
    else lines[0] + gaps[0] + Unwrap([lines[1][indent..]] + lines[2..], gaps[1..], indent)
  }

  // ---- what is promised of it --------------------------------------------------------------

  predicate Indented(lines: seq<string>, indent: nat) {
    forall i :: 1 <= i < |lines| ==> |lines[i]| >= indent && lines[i][..indent] == Blanks(indent)
  }

  /** No line is too long, and every continuation has its indent. */
  lemma {:induction false} LinesFit(out: string, rest: string, indent: nat)
    requires |out| <= COLS && indent <= THIRD
    ensures var lines := Wrap(out, rest, indent);
      (forall i :: 0 <= i < |lines| ==> |lines[i]| <= COLS) && Indented(lines, indent)
      && (indent <= |out| && out[..indent] == Blanks(indent) ==>
            |lines[0]| >= indent && lines[0][..indent] == Blanks(indent))
    decreases |rest|, |out|
  {
    if rest == "" {
    } else if |out| == COLS {
      var (cut, brk) := CutAt(out);
      var next := Blanks(indent) + out[brk..];
      LinesFit(next, rest, indent);
      assert next[..indent] == Blanks(indent);
      if indent <= |out| && out[..indent] == Blanks(indent) {
        assert out[..cut][..indent] == out[..indent];
      }
    } else {
      LinesFit(out + [rest[0]], rest[1..], indent);
      if indent <= |out| { assert (out + [rest[0]])[..indent] == out[..indent]; }
    }
  }

  /** So no line is over forty columns, and every one after the first starts with the blanks of its indent, 13 at
      most. */
  lemma FitsForty(line: string, indent: int, i: nat, k: nat)
    requires i < |WrapLine(line, indent)|
    ensures var l := WrapLine(line, indent)[i];
      |l| <= 40 && (i > 0 && (k < indent <= 13 || k < 13 <= indent) ==> k < |l| && l[k] == ' ')
  {
    hide Wrap;
    LinesFit("", Shown(line), Indent(indent));
    assert k < Indent(indent) ==> Blanks(Indent(indent))[k] == ' ';
    if i > 0 && k < Indent(indent) {
      var l := WrapLine(line, indent)[i];
      assert l[..Indent(indent)][k] == l[k];
    }
  }

  /** Unwrapping with the start of the first line, whatever it is, taken as it is. */
  lemma {:induction false} WrapUnwraps(out: string, rest: string, indent: nat)
    requires |out| <= COLS && indent <= THIRD
    ensures Indented(Wrap(out, rest, indent), indent)
    ensures Unwrap(Wrap(out, rest, indent), Drops(out, rest, indent), indent) == out + rest
    decreases |rest|, |out|
  {
    hide AfterBlank, Unwrap, Indented;
    LinesFit(out, rest, indent);
    UnwrapOne(out, indent);
    IndentedHas(Wrap(out, rest, indent), indent);
    if rest == "" {
      assert out + rest == out;
    } else if |out| == COLS {
      var (cut, brk) := CutAt(out);
      var next := Blanks(indent) + out[brk..];
      WrapUnwraps(next, rest, indent);
      LinesFit(next, rest, indent);
      IndentedHas(Wrap(next, rest, indent), indent);
      assert next[..indent] == Blanks(indent);
      BreakUnwraps(out, rest, Wrap(next, rest, indent), Drops(next, rest, indent), indent);
    } else {
      WrapUnwraps(out + [rest[0]], rest[1..], indent);
      assert out + [rest[0]] + rest[1..] == out + rest;
    }
  }

  lemma UnwrapOne(line: string, indent: nat)
    ensures Unwrap([line], [], indent) == line
  {
  }

  lemma IndentedHas(lines: seq<string>, indent: nat)
    requires Indented(lines, indent)
    ensures forall i :: 1 <= i < |lines| ==> |lines[i]| >= indent
  {
  }

  lemma BreakUnwraps(out: string, rest: string, lines: seq<string>, gaps: seq<string>, indent: nat)
    requires |out| == COLS && |lines| == |gaps| + 1
    requires forall i :: 0 <= i < |lines| ==> |lines[i]| >= indent
    requires var (cut, brk) := CutAt(out); Unwrap(lines, gaps, indent) == Blanks(indent) + out[brk..] + rest
    ensures var (cut, brk) := CutAt(out);
      Unwrap([out[..cut]] + lines, [if cut < brk then " " else ""] + gaps, indent) == out + rest
  {
    hide Unwrap, CutAt;
    var (cut, brk) := CutAt(out);
    CutKeeps(out);
    var gap := if cut < brk then " " else "";
    var all, drops := [out[..cut]] + lines, [gap] + gaps;
    UnwrapFirst(lines, gaps, indent);
    assert all[2..] == lines[1..] && drops[1..] == gaps && all[1] == lines[0];
    UnwrapStep(all, drops, indent);
    Rejoined(out[..cut], gap, out[brk..], rest, out, Blanks(indent));
  }

  lemma CutKeeps(out: string)
    requires |out| == COLS
    ensures var (cut, brk) := CutAt(out);
      cut <= brk <= COLS && out[..cut] + (if cut < brk then " " else "") + out[brk..] == out
  {
    hide AfterBlank;
  }

  lemma Rejoined(a: string, gap: string, b: string, rest: string, out: string, blanks: string)
    requires a + gap + b == out
    ensures a + gap + (blanks + b + rest)[|blanks|..] == out + rest
  {
    assert blanks + b + rest == blanks + (b + rest);
    assert a + gap + (b + rest) == (a + gap + b) + rest;
  }

  lemma UnwrapStep(lines: seq<string>, gaps: seq<string>, indent: nat)
    requires |lines| == |gaps| + 1 && gaps != [] && forall i :: 1 <= i < |lines| ==> |lines[i]| >= indent
    ensures Unwrap(lines, gaps, indent)
         == lines[0] + gaps[0] + Unwrap([lines[1][indent..]] + lines[2..], gaps[1..], indent)
  {
  }

  /** Taking the indent off the first line takes it off the whole. */
  lemma UnwrapFirst(lines: seq<string>, gaps: seq<string>, indent: nat)
    requires |lines| == |gaps| + 1 && forall i :: 0 <= i < |lines| ==> |lines[i]| >= indent
    ensures Unwrap([lines[0][indent..]] + lines[1..], gaps, indent) == Unwrap(lines, gaps, indent)[indent..]
    ensures |Unwrap(lines, gaps, indent)| >= indent
  {
    if gaps != [] {
      assert ([lines[0][indent..]] + lines[1..])[2..] == lines[2..];
    }
  }

  /** A break is inside a word only when the last 27 characters of the line have no blank among them,
      and only a full line is broken so. */
  lemma {:induction false} WordsAreKept(out: string, rest: string, indent: nat, i: nat)
    requires |out| <= COLS && indent <= THIRD && i < |Drops(out, rest, indent)|
    ensures var line, gap := Wrap(out, rest, indent)[i], Drops(out, rest, indent)[i];
      gap == " " || (gap == "" && |line| == COLS && forall k :: THIRD <= k < COLS ==> line[k] != ' ')
    decreases |rest|, |out|
  {
    if rest == "" {
    } else if |out| == COLS {
      var (cut, brk) := CutAt(out);
      if i > 0 { WordsAreKept(Blanks(indent) + out[brk..], rest, indent, i - 1); }
    } else {
      WordsAreKept(out + [rest[0]], rest[1..], indent, i);
    }
  }

  lemma {:induction false} StartsWithWord(out: string, rest: string, indent: nat, m: nat)
    requires |out| <= COLS && indent <= THIRD && m <= |out| && forall k :: indent <= k < m ==> out[k] != ' '
    ensures var first := Wrap(out, rest, indent)[0]; |first| >= m && first[..m] == out[..m]
    decreases |rest|, |out|
  {
    if rest != "" {
      if |out| == COLS {
        var (cut, brk) := CutAt(out);
        assert cut >= m;
      } else {
        StartsWithWord(out + [rest[0]], rest[1..], indent, m);
      }
    }
  }

  lemma FirstBreak(out: string, rest: string, indent: nat)
    requires |out| == COLS && indent <= THIRD
    ensures var (cut, brk) := CutAt(out);
      var first := Wrap(Blanks(indent) + out[brk..], rest, indent)[0];
      if cut < brk then
        13 <= cut < 40 && brk == cut + 1 && |first| >= indent + (39 - cut)
        && forall k :: indent <= k < indent + (39 - cut) ==> first[k] != ' '
      else cut == brk == 40 && forall k :: 13 <= k < 40 ==> out[k] != ' '
  {
    hide Wrap;
    var (cut, brk) := CutAt(out);
    var next := Blanks(indent) + out[brk..];
    if cut < brk {
      forall k | indent <= k < |next| ensures next[k] != ' ' { assert next[k] == out[brk + (k - indent)]; }
      StartsWithWord(next, rest, indent, |next|);
      var first := Wrap(next, rest, indent)[0];
      forall k | indent <= k < |next| ensures first[k] != ' ' { assert first[..|next|][k] == first[k]; }
    }
  }

  /** Where a line is broken at a blank it is the last blank of forty columns, and not among the first
      thirteen: the line, the blank and what follows on the next line up to the fortieth column, in which
      there is no blank. */
  lemma {:induction false} BreaksAtTheLastBlank(out: string, rest: string, indent: nat, i: nat)
    requires |out| <= COLS && indent <= THIRD && i < |Drops(out, rest, indent)|
    ensures var lines := Wrap(out, rest, indent); var n := |lines[i]|;
      var next := if i + 1 < |lines| then lines[i + 1] else "";
      if Drops(out, rest, indent)[i] == " " then
        13 <= n < 40 && |next| >= indent + (39 - n) && forall k :: indent <= k < indent + (39 - n) ==> next[k] != ' '
      else n == 40 && forall k :: 13 <= k < 40 ==> lines[i][k] != ' '
    decreases |rest|, |out|
  {
    hide AfterBlank;
    if rest == "" {
    } else if |out| == COLS {
      var (cut, brk) := CutAt(out);
      var next := Blanks(indent) + out[brk..];
      if i > 0 {
        BreaksAtTheLastBlank(next, rest, indent, i - 1);
      } else {
        FirstBreak(out, rest, indent);
      }
    } else {
      BreaksAtTheLastBlank(out + [rest[0]], rest[1..], indent, i);
    }
  }

  /** A line is broken only when it has more than forty columns. */
  lemma {:induction false} ShortIsWhole(out: string, rest: string, indent: nat)
    requires |out| <= COLS && indent <= THIRD
    ensures |Wrap(out, rest, indent)| == 1 <==> |out| + |rest| <= 40
    ensures |out| + |rest| <= 40 ==> Wrap(out, rest, indent) == [out + rest]
    decreases |rest|, |out|
  {
    if rest == "" {
      assert out + rest == out;
    } else if |out| < COLS {
      ShortIsWhole(out + [rest[0]], rest[1..], indent);
      assert out + [rest[0]] + rest[1..] == out + rest;
    }
  }

  /** The wrap of any line, with any indent: no line over 40 columns; continuations indented; and with
      the indents taken off and the dropped blanks put back, at most one a break, the line again. */
  lemma WrapLosesNothing(line: string, indent: int)
    ensures var n, lines, gaps := Indent(indent), WrapLine(line, indent), Drops("", Shown(line), Indent(indent));
      (forall i :: 0 <= i < |lines| ==> |lines[i]| <= COLS)
      && Indented(lines, n)
      && (forall i :: 0 <= i < |gaps| ==> gaps[i] == "" || gaps[i] == " ")
      && Unwrap(lines, gaps, n) == Shown(line)
  {
    var n, rest := Indent(indent), Shown(line);
    LinesFit("", rest, n);
    WrapUnwraps("", rest, n);
    var gaps := Drops("", rest, n);
    forall i | 0 <= i < |gaps| ensures gaps[i] == "" || gaps[i] == " " { WordsAreKept("", rest, n, i); }
    assert "" + rest == rest;
  }

  // ---- a whole text ------------------------------------------------------------------------

  /** The lines of a text: as many as it has newlines, and one more. */
  function TextLines(text: string): (r: seq<string>)
    ensures |r| > 0
  {
    if text == "" then [""]
    else if text[0] == '\n' then [""] + TextLines(text[1..])
    else var r := TextLines(text[1..]); [[text[0]] + r[0]] + r[1..]
  }

  function WithNewlines(lines: seq<string>): string {
    if lines == [] then "" else if |lines| == 1 then lines[0] else lines[0] + ("\n" + WithNewlines(lines[1..]))
  }

  /** They have no newline in them and with one between them are the text. */
  lemma {:induction false} TextLinesAre(text: string)
    ensures WithNewlines(TextLines(text)) == text
    ensures forall l :: l in TextLines(text) ==> '\n' !in l
  {
    if text != "" {
      var r := TextLines(text[1..]);
      TextLinesAre(text[1..]);
      if text[0] == '\n' {
        assert ([""] + r)[1..] == r;
        assert "" + ("\n" + text[1..]) == text;
      } else {
        var first := [text[0]] + r[0];
        assert ([first] + r[1..])[1..] == r[1..];
        if |r| == 1 {
          assert first == text;
        } else {
          assert first + ("\n" + WithNewlines(r[1..])) == [text[0]] + (r[0] + ("\n" + WithNewlines(r[1..])));
        }
      }
    }
  }

  /** What a line adds to the log. */
  function Entries(lines: seq<string>, tag: int): (r: seq<Entry>)
    ensures |r| == |lines|
  {
    seq(|lines|, i requires 0 <= i < |lines| => Logged(lines[i], tag))
  }

  function TextEntries(lines: seq<string>, tag: int, indent: int): seq<Entry> {
    if lines == [] then [] else Entries(WrapLine(lines[0], indent), tag) + TextEntries(lines[1..], tag, indent)
  }

  /** Of a sequence grown at its end only the last n are kept, whenever the rest are dropped. */
  lemma LastOfLast(a: seq<Entry>, b: seq<Entry>, n: nat)
    ensures Last(Last(a, n) + b, n) == Last(a + b, n)
  {
  }

  // ---- the log -----------------------------------------------------------------------------

  class Log {
    const line: array<string>
    const tags: array<nat>
    var n: nat

    ghost predicate Valid()
      reads this
    {
      line.Length == LINES && tags.Length == LINES && n <= LINES
    }

    ghost function View(): (s: seq<Entry>)
      reads this, line, tags
      requires Valid()
      ensures |s| == n
    {
      seq(n, i requires 0 <= i < n reads this, line, tags requires Valid() => Entry(line[i], tags[i]))
    }

    constructor ()
      ensures Valid() && fresh(line) && fresh(tags) && View() == []
    {
      line := new string[LINES](_ => "");
      tags := new nat[LINES](_ => 0);
      n := 0;
    }

    /** tl_push: the oldest falls out when the log is full. */
    method Push(text: string, tag: int)
      requires Valid()
      modifies this, line, tags
      ensures Valid() && View() == Last(old(View()) + [Logged(text, tag)], 100)
    {
      ghost var was := View();
      if n == LINES { DropOldest(); }
      line[n] := if |text| <= COLS then text else text[..COLS];
      tags[n] := tag % 0x1_0000;
      n := n + 1;
    }

    method DropOldest()
      requires Valid() && n == LINES
      modifies this, line, tags
      ensures Valid() && View() == old(View())[1..]
    {
      ghost var was := View();
      var i := 1;
      while i < LINES
        invariant 1 <= i <= LINES && n == LINES
        invariant forall k :: 0 <= k < i - 1 ==> Entry(line[k], tags[k]) == was[k + 1]
        invariant forall k :: i - 1 <= k < LINES ==> Entry(line[k], tags[k]) == was[k]
      {
        line[i - 1] := line[i];
        tags[i - 1] := tags[i];
        i := i + 1;
      }
      n := n - 1;
    }

    /** tl_wrap_line, from `at`: every line it makes is pushed, and it returns where the next line
        starts, or None at the end of the text.  The working line never overflows. */
    method WrapAt(text: string, at: nat, tag: int, indent: int) returns (next: nat, more: bool)
      requires Valid() && at <= |text|
      modifies this, line, tags
      ensures Valid() && at <= next <= |text|
      ensures var r := TextLines(text[at..]);
        View() == Last(old(View()) + Entries(WrapLine(r[0], indent), tag), LINES)
        && (more ==> next > at && r[1..] == TextLines(text[next..])) && (!more ==> r[1..] == [])
    {
      hide Wrap, Last, Logged;
      var out, len, width := new char[COLS + 1], 0, Indent(indent);
      ghost var was, goal := View(), Wrap("", Shown(TextLines(text[at..])[0]), width);
      ghost var done: seq<string> := [];
      next := at;
      NothingPushed(was, tag);
      assert out[..0] == "" && [] + goal == goal;
      while next < |text| && text[next] != '\n'
        invariant at <= next <= |text| && 0 <= len <= COLS && Valid()
        invariant View() == Last(was + Entries(done, tag), LINES)
        invariant done + Wrap(out[..len], Shown(TextLines(text[next..])[0]), width) == goal
        invariant TextLines(text[next..])[1..] == TextLines(text[at..])[1..]
      {
        var c := text[next];
        assert text[next..][1..] == text[next + 1..];
        next := next + 1;
        if c == '\r' { continue; }
        if c == '\t' { c := ' '; }
        len, done := Put(out, len, c, tag, width, was, done, Shown(TextLines(text[next..])[0]));
      }
      WrapEnds(out[..len], width);
      Push(out[..len], tag);
      OneMorePushed(was, done, out[..len], tag);
      more := next < |text|;
      if more {
        next := next + 1;
        assert text[next - 1..][1..] == text[next..];
      }
    }

    /** One character onto the working line, which is first broken if it is full. */
    method Put(out: array<char>, from: nat, c: char, tag: int, width: nat,
               ghost was: seq<Entry>, ghost done: seq<string>, ghost rest: string)
      returns (len: nat, ghost now: seq<string>)
      requires Valid() && out.Length == COLS + 1 && from <= COLS && width <= THIRD
      requires View() == Last(was + Entries(done, tag), LINES)
      modifies this, line, tags, out
      ensures Valid() && len <= COLS
      ensures View() == Last(was + Entries(now, tag), LINES)
      ensures now + Wrap(out[..len], rest, width) == done + Wrap(old(out[..from]), [c] + rest, width)
    {
      hide Wrap, CutAt, Last, Logged, Entries;
      len, now := from, done;
      ghost var all := [c] + rest;
      assert all[1..] == rest;
      if len == COLS {
        ghost var whole := out[..len];
        var cut, brk := Break(out);
        WrapBreaks(whole, all, width);
        assert out[..cut] == whole[..cut];
        Push(out[..cut], tag);
        OneMorePushed(was, done, whole[..cut], tag);
        now := done + [whole[..cut]];
        len := Carry(out, brk, width);
      }
      WrapMoves(out[..len], all, width);
      out[len] := c;
      assert out[..len + 1] == out[..len] + [c];
      len := len + 1;
    }

    static lemma NothingPushed(was: seq<Entry>, tag: int)
      requires |was| <= LINES
      ensures Last(was + Entries([], tag), LINES) == was
    {
      assert was + Entries([], tag) == was;
    }

    static lemma OneMorePushed(was: seq<Entry>, done: seq<string>, l: string, tag: int)
      ensures Last(Last(was + Entries(done, tag), LINES) + [Logged(l, tag)], LINES)
           == Last(was + Entries(done + [l], tag), LINES)
    {
      hide Last, Logged;
      LastOfLast(was + Entries(done, tag), [Logged(l, tag)], LINES);
      assert was + Entries(done, tag) + [Logged(l, tag)] == was + Entries(done + [l], tag);
    }

    static lemma WrapBreaks(out: string, rest: string, width: nat)
      requires |out| == COLS && rest != "" && width <= THIRD
      ensures var (cut, brk) := CutAt(out);
        cut <= COLS && brk <= COLS && COLS - brk + width < COLS
        && Wrap(out, rest, width) == [out[..cut]] + Wrap(Blanks(width) + out[brk..], rest, width)
    {
    }

    static lemma WrapMoves(out: string, rest: string, width: nat)
      requires |out| < COLS && rest != "" && width <= THIRD
      ensures Wrap(out, rest, width) == Wrap(out + [rest[0]], rest[1..], width)
    {
    }

    static lemma WrapEnds(out: string, width: nat)
      requires |out| <= COLS && width <= THIRD
      ensures Wrap(out, "", width) == [out]
    {
    }

    /** Where a full working line is broken. */
    static method Break(out: array<char>) returns (cut: nat, at: nat)
      requires out.Length == COLS + 1
      ensures (cut, at) == CutAt(out[..COLS])
    {
      hide AfterBlank;
      ghost var s := out[..COLS];
      var brk := COLS;
      assert s[..brk] == s;
      while brk > 0 && out[brk - 1] != ' '
        invariant 0 <= brk <= COLS && AfterBlank(s[..brk]) == AfterBlank(s)
      {
        assert s[..brk][..brk - 1] == s[..brk - 1];
        NotBlank(s[..brk]);
        brk := brk - 1;
      }
      BlankHere(s[..brk]);
      if brk > THIRD { cut, at := brk - 1, brk; } else { cut, at := COLS, COLS; }
    }

    static lemma NotBlank(s: string)
      requires s != "" && s[|s| - 1] != ' '
      ensures AfterBlank(s) == AfterBlank(s[..|s| - 1])
    {
    }

    static lemma BlankHere(s: string)
      requires s == "" || s[|s| - 1] == ' '
      ensures AfterBlank(s) == |s|
    {
    }

    /** The working line starts again with the indent and what was past the break. */
    static method Carry(out: array<char>, brk: nat, width: nat) returns (len: nat)
      requires out.Length == COLS + 1 && width <= THIRD && brk <= COLS && COLS - brk + width < COLS
      modifies out
      ensures len == width + COLS - brk < COLS && out[..len] == Blanks(width) + old(out[brk..COLS])
    {
      ghost var s := out[brk..COLS];
      var keep := COLS - brk;
      var tail := new char[COLS + 1];
      var k := 0;
      while k < keep
        invariant 0 <= k <= keep && forall j :: 0 <= j < k ==> tail[j] == s[j]
        modifies tail
      {
        tail[k] := out[brk + k];
        k := k + 1;
      }
      len := 0;
      while len < width
        invariant 0 <= len <= width && forall j :: 0 <= j < len ==> out[j] == ' '
        modifies out
      {
        out[len] := ' ';
        len := len + 1;
      }
      k := 0;
      while k < keep
        invariant 0 <= k <= keep && len == width + k
        invariant forall j :: 0 <= j < width ==> out[j] == ' '
        invariant forall j :: width <= j < len ==> out[j] == s[j - width]
        modifies out
      {
        out[len] := tail[k];
        k, len := k + 1, len + 1;
      }
    }

    /** tl_push_text: the log ends as the last hundred of the lines it had and those of the text. */
    method PushText(text: string, tag: int, indent: int)
      requires Valid()
      modifies this, line, tags
      ensures Valid()
      ensures View() == Last(old(View()) + TextEntries(TextLines(text), tag, indent), 100)
    {
      hide Last, WrapLine, Entries, TextEntries, TextLines;
      ghost var was, done, all := View(), [], TextEntries(TextLines(text), tag, indent);
      var at, more := 0, true;
      assert text[0..] == text && was + done == was;
      LastOfFew(was);
      while more
        invariant at <= |text| && Valid() && View() == Last(was + done, LINES)
        invariant done + (if more then TextEntries(TextLines(text[at..]), tag, indent) else []) == all
        decreases |text| - at, more
      {
        ghost var r := TextLines(text[at..]);
        ghost var now := Entries(WrapLine(r[0], indent), tag);
        EntriesOf(r, tag, indent);
        at, more := WrapAt(text, at, tag, indent);
        assert done + (now + (if more then TextEntries(TextLines(text[at..]), tag, indent) else [])) == all;
        LastOfLast(was + done, now, LINES);
        assert was + done + now == was + (done + now);
        done := done + now;
      }
      assert done + [] == done;
    }

    static lemma EntriesOf(lines: seq<string>, tag: int, indent: int)
      requires lines != []
      ensures TextEntries(lines, tag, indent)
           == Entries(WrapLine(lines[0], indent), tag) + TextEntries(lines[1..], tag, indent)
      ensures TextEntries([], tag, indent) == []
    {
      hide WrapLine, Entries;
    }

    static lemma LastOfFew(s: seq<Entry>)
      requires |s| <= LINES
      ensures Last(s, LINES) == s
    {
    }
  }
}
