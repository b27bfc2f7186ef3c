/** One entry of the pain log and its line in the file: apps/pain_log.h, lines 118-604. */
module PainText {
  import opened Common
  import opened Str
  import opened DateTime

  const NOTE_MAX: nat := 31
  const LEVEL_MAX: int := 10
  const NO_DAY: int := 0
  const NO_TIME: int := 0xFFFF
  const DAY_MAX: int := 2932896
  const LINE_MAX: nat := 80
  const AREAS: int := 4
  const PAIN_OTHER: int := 3
  const AREA_NAME: seq<string> := ["cramps", "back", "head", "other"]

  datatype Entry = Entry(day: int, minute: int, level: int, area: int, seqNo: nat, note: string)

  // ---- notes: pain_clean_note --------------------------------------------------------------

  predicate Gap(c: char) { c <= ' ' || c > '~' }

  /** `s` with every run of gaps between two words made one space, and none at either end;
      `started` says a word came before and `gap` that a gap came after it. */
  function Squeeze(s: string, started: bool, gap: bool): string {
    if s == "" then ""
    else if Gap(s[0]) then Squeeze(s[1..], started, true)
    else (if gap && started then " " else "") + [s[0]] + Squeeze(s[1..], true, false)
  }

  /** At most NOTE_MAX characters, not ending in a space. */
  function Clip(s: string): string {
    var t := Cut(s, NOTE_MAX);
    if t != "" && t[|t| - 1] == ' ' then t[..|t| - 1] else t
  }

  function Clean(s: string): string {
    Clip(Squeeze(s, false, false))
  }

  /** What is clipped off: nothing, all past the last character there is room for, or that character
      when it is the space before a word. */
  lemma ClipsHere(whole: string, out: string)
    requires out <= whole && |out| <= NOTE_MAX && (out == "" || out[|out| - 1] != ' ')
    requires out == whole || |out| == NOTE_MAX || (|out| == NOTE_MAX - 1 && whole[|out|] == ' ')
    ensures Clip(whole) == out
  {
    if out != whole && |out| == NOTE_MAX - 1 { assert whole[..NOTE_MAX] == out + " "; }
  }

  lemma SqueezeStep(s: string, i: nat, started: bool, gap: bool)
    requires i < |s|
    ensures Squeeze(s[i..], started, gap)
         == if Gap(s[i]) then Squeeze(s[i + 1..], started, true)
            else (if gap && started then " " else "") + [s[i]] + Squeeze(s[i + 1..], true, false)
  {
    assert s[i..][1..] == s[i + 1..];
  }

  lemma SqueezeEnd()
    ensures forall started, gap :: Squeeze("", started, gap) == ""
  {
  }

  method CleanNote(s: string) returns (out: string)
    ensures out == Clean(s)
  {
    hide Clip, Squeeze;
    SqueezeEnd();
    assert s[0..] == s && s[|s|..] == "";
    out := "";
    var gap := false;
    ghost var whole := Squeeze(s, false, false);
    for i := 0 to |s|
      invariant |out| <= NOTE_MAX
      invariant out == "" || out[|out| - 1] != ' '
      invariant whole == out + Squeeze(s[i..], out != "", gap)
    {
      SqueezeStep(s, i, out != "", gap);
      var c := s[i];
      if Gap(c) {
        gap := true;
        continue;
      }
      if |out| >= NOTE_MAX {
        ClipsHere(whole, out);
        return;
      }
      if gap && |out| > 0 {
        if |out| + 1 >= NOTE_MAX {
          assert whole[|out|] == ' ';
          ClipsHere(whole, out);
          return;
        }
        ghost var rest := Squeeze(s[i + 1..], true, false);
        assert out + (" " + [c] + rest) == out + " " + [c] + rest;
        out := out + " ";
      }
      gap := false;
      out := out + [c];
    }
    assert whole == out;
    ClipsHere(whole, out);
  }

  /** Printable, and every space stands before a word, after one too unless `lead`. */
  predicate Tidy(s: string, lead: bool) {
    (forall i :: 0 <= i < |s| ==> ' ' <= s[i] <= '~')
    && (forall i :: 0 <= i < |s| && s[i] == ' ' ==> (lead || 0 < i) && i < |s| - 1 && s[i + 1] != ' ')
  }

  /** What a note always is: printable, no space at either end and no two together, not too long. */
  predicate IsClean(s: string) {
    |s| <= NOTE_MAX && Tidy(s, false)
  }

  lemma {:induction false} SqueezeIsTidy(s: string, started: bool, gap: bool)
    ensures Tidy(Squeeze(s, started, gap), started)
  {
    if s != "" {
      SqueezeIsTidy(s[1..], started || !Gap(s[0]), Gap(s[0]));
      if !Gap(s[0]) {
        TidyCons(s[0], Squeeze(s[1..], true, false), started && gap);
      }
    }
  }

  lemma TidyCons(c: char, rest: string, space: bool)
    requires !Gap(c) && Tidy(rest, true)
    ensures Tidy((if space then " " else "") + [c] + rest, space)
  {
    var t := [c] + rest;
    assert Tidy(t, false);
    if space {
      var u := [' '] + t;
      assert forall i :: 1 <= i < |u| ==> u[i] == t[i - 1];
      assert Tidy(u, true);
      assert " " + [c] + rest == u;
    } else {
      assert "" + [c] + rest == t;
    }
  }

  lemma TidyTail(s: string, lead: bool)
    requires s != "" && Tidy(s, lead)
    ensures Tidy(s[1..], s[0] != ' ') && (s[0] == ' ' ==> lead)
  {
    var t := s[1..];
    assert forall i :: 0 <= i < |t| ==> t[i] == s[i + 1];
    assert s[0] == ' ' ==> s[1] != ' ';
  }

  lemma {:induction false} SqueezeOfTidy(s: string, started: bool, gap: bool)
    requires Tidy(s, started && !gap)
    ensures Squeeze(s, started, gap) == (if gap && started && s != "" then " " else "") + s
  {
    if s != "" {
      TidyTail(s, started && !gap);
      SqueezeOfTidy(s[1..], started || !Gap(s[0]), Gap(s[0]));
      assert [s[0]] + s[1..] == s;
    }
  }

  lemma ClipIsClean(t: string)
    requires Tidy(t, false)
    ensures IsClean(Clip(t))
    ensures |t| <= NOTE_MAX ==> Clip(t) == t
  {
  }

  /** Cleaning always gives a clean note, and a clean note is left as it is: cleaning is
      idempotent and its fixed points are exactly the clean notes. */
  lemma CleanIsClean(s: string)
    ensures IsClean(Clean(s))
    ensures IsClean(s) <==> Clean(s) == s
    ensures Clean(Clean(s)) == Clean(s)
  {
    SqueezeIsTidy(s, false, false);
    ClipIsClean(Squeeze(s, false, false));
    var t := Clean(s);
    SqueezeOfTidy(t, false, false);
    ClipIsClean(t);
    if IsClean(s) {
      SqueezeOfTidy(s, false, false);
      ClipIsClean(s);
    }
  }

  // ---- one entry: pain_make ----------------------------------------------------------------

  predicate ValidEntry(e: Entry) {
    0 <= e.day <= DAY_MAX
    && (0 <= e.minute <= 1439 || e.minute == NO_TIME)
    && (e.day == NO_DAY ==> e.minute == NO_TIME)
    && 0 <= e.level <= LEVEL_MAX
    && 0 <= e.area < AREAS
    && IsClean(e.note)
  }

  /** An entry from its parts, or None where the source refuses them; the seq is left 0. */
  function Make(day: int, minute: int, level: int, area: int, note: string): (r: Option<Entry>)
    ensures r.Some? <==> 0 <= day <= DAY_MAX && 0 <= level <= LEVEL_MAX && 0 <= area < AREAS
    ensures r.Some? ==> ValidEntry(r.value) && r.value.day == day
  {
    CleanIsClean(note);
    if day < 0 || day > DAY_MAX then None
    else if level < 0 || level > LEVEL_MAX then None
    else if area < 0 || area >= AREAS then None
    else Some(Entry(day, if day == NO_DAY || minute < 0 || minute > 1439 then NO_TIME else minute,
                    level, area, 0, Clean(note)))
  }

  /** The entry has the parts it is made of: its note cleaned, and no time when it has no day or the
      time is none of a day's.  Made again from its own parts it is the same. */
  lemma MakeKeepsParts(day: int, minute: int, level: int, area: int, note: string)
    ensures var r := Make(day, minute, level, area, note);
      r.Some? ==>
        var e := r.value;
        e.day == day && e.level == level && e.area == area && e.note == Clean(note)
        && (e.minute == minute <==> minute == NO_TIME || (day != NO_DAY && 0 <= minute <= 1439))
        && (e.minute != minute ==> e.minute == NO_TIME)
        && Make(e.day, e.minute, e.level, e.area, e.note) == r
  {
    hide Clean;
    CleanIsClean(note);
  }

  // ---- writing a line: pain_format ---------------------------------------------------------

  function DayText(day: int): string
    requires 0 <= day <= DAY_MAX
  {
    if day == NO_DAY then "-"
    else
      var t := CivilFromDays(day);
      LoggedYear(day);
      Digits(t.y, 4) + "-" + Digits(t.m, 2) + "-" + Digits(t.d, 2)
  }

  function TimeText(minute: int): string
    requires 0 <= minute
  {
    if minute == NO_TIME then "-" else Digits(minute / 60, 2) + ":" + Digits(minute % 60, 2)
  }

  function FormatLine(e: Entry): string
    requires ValidEntry(e)
  {
    DayText(e.day) + "\t" + TimeText(e.minute) + "\t" + Decimal(e.level) + "\t"
    + AREA_NAME[e.area] + "\t" + Decimal(e.seqNo) + "\t" + e.note
  }

  /** A day the log can hold is in a year of four digits. */
  lemma LoggedYear(day: int)
    requires 0 < day <= DAY_MAX
    ensures var t := CivilFromDays(day); ValidDate(t) && 1970 <= t.y <= 9999 && DaysFromCivil(t) == day
  {
    hide CivilFromDays, DaysFromCivil;
    var t := CivilFromDays(day);
    DayRoundTrip(day);
    EndsOfRange();
    OrderIsNumberOrder(Date(1970, 1, 1), t);
    OrderIsNumberOrder(Date(9999, 12, 31), t);
  }

  lemma EndsOfRange()
    ensures DaysFromCivil(Date(1970, 1, 1)) == 0 && DaysFromCivil(Date(9999, 12, 31)) == DAY_MAX
  {
  }

  method Put(out: array<char>, pos: nat, v: nat, width: nat) returns (p: nat)
    requires pos + width <= out.Length
    modifies out
    ensures p == pos + width
    ensures out[..p] == old(out[..pos]) + Digits(v, width)
  {
    var i, rest := width, v;
    assert out[pos + width..pos + width] == "";
    while i > 0
      invariant 0 <= i <= width && 0 <= rest
      invariant out[..pos] == old(out[..pos])
      invariant Digits(rest, i) + out[pos + i..pos + width] == Digits(v, width)
    {
      i := i - 1;
      ghost var tail := out[pos + i + 1..pos + width];
      out[pos + i] := DigitChar(rest % 10);
      rest := rest / 10;
      assert out[pos + i..pos + width] == [out[pos + i]] + tail;
    }
    assert Digits(rest, 0) == "";
    p := pos + width;
    assert out[..p] == out[..pos] + out[pos..p];
  }

  /** The digits come out last first into a buffer of ten, and are copied in reverse. */
  method PutDecimal(out: array<char>, pos: nat, v: nat) returns (p: nat)
    requires v < 0x1_0000_0000 && pos + |Decimal(v)| <= out.Length
    modifies out
    ensures p == pos + |Decimal(v)|
    ensures out[..pos] == old(out[..pos])
    ensures out[pos..p] == Decimal(v)
  {
    var t := new char[10];
    var n := LastFirst(v, t);
    p := CopyBack(out, pos, t, n, Decimal(v));
  }

  method LastFirst(v: nat, t: array<char>) returns (n: nat)
    requires v < 0x1_0000_0000 && t.Length == 10
    modifies t
    ensures n == |Decimal(v)| <= 10
    ensures forall k :: 0 <= k < n ==> t[k] == Decimal(v)[n - 1 - k]
  {
    hide Decimal, Pow10;
    ghost var d := Decimal(v);
    DecimalLength(v, 10);
    Pow10Of10();
    n := 0;
    var rest := v;
    while true
      invariant n < |d| <= 10
      invariant 0 <= rest
      invariant d[..|d| - n] == Decimal(rest)
      invariant forall k :: 0 <= k < n ==> t[k] == d[|d| - 1 - k]
      decreases rest
    {
      DecimalStep(rest);
      assert d[|d| - n - 1] == d[..|d| - n][|d| - n - 1];
      t[n] := DigitChar(rest % 10);
      assert d[..|d| - n - 1] == d[..|d| - n][..|d| - n - 1];
      n := n + 1;
      if rest < 10 { break; }
      rest := rest / 10;
    }
  }

  method CopyBack(out: array<char>, pos: nat, t: array<char>, len: nat, ghost d: string) returns (p: nat)
    requires out != t && len == |d| <= t.Length && pos + len <= out.Length
    requires forall k :: 0 <= k < len ==> t[k] == d[len - 1 - k]
    modifies out
    ensures p == pos + len
    ensures out[..pos] == old(out[..pos])
    ensures out[pos..p] == d
  {
    p := pos;
    var n := len;
    while n > 0
      invariant 0 <= n <= len && p == pos + len - n
      invariant out[..pos] == old(out[..pos])
      invariant out[pos..p] == d[..len - n]
    {
      n := n - 1;
      out[p] := t[n];
      p := p + 1;
      assert out[pos..p] == out[pos..p - 1] + [out[p - 1]];
    }
  }

  /** The characters of s; the source copies them one by one. */
  method PutText(out: array<char>, pos: nat, s: string) returns (p: nat)
    requires pos + |s| <= out.Length
    modifies out
    ensures p == pos + |s|
    ensures out[..p] == old(out[..pos]) + s
  {
    p := pos;
    for i := 0 to |s|
      invariant p == pos + i
      invariant out[..p] == old(out[..pos]) + s[..i]
    {
      out[p] := s[i];
      p := p + 1;
      assert out[..p] == out[..p - 1] + [s[i]];
    }
  }

  method AreaFromName(s: string) returns (area: int)
    ensures area == AreaOf(s)
  {
    for a := 0 to 4
      invariant forall k :: 0 <= k < a ==> !SameWord(s, AREA_NAME[k])
    {
      var n := AREA_NAME[a];
      var i := 0;
      while i < |n| && i < |s| && Lower(s[i]) == n[i]
        invariant 0 <= i <= |n| && i <= |s|
        invariant forall k :: 0 <= k < i ==> Lower(s[k]) == n[k]
      {
        i := i + 1;
      }
      if i == |n| && i == |s| {
        assert SameWord(s, n);
        return a;
      }
    }
    return PAIN_OTHER;
  }

  /** The whole line, built in a buffer of LINE_MAX bytes: the NUL and the newline a save puts in
      its place fit too. */
  method Format(e: Entry, out: array<char>) returns (p: nat)
    requires ValidEntry(e) && e.seqNo < 0x1_0000_0000 && out.Length == LINE_MAX
    modifies out
    ensures p + 2 <= LINE_MAX
    ensures out[..p] == FormatLine(e) && out[p] == NUL
  {
    LineFits(e);
    p := FormatStamp(e, out);
    p := Tab(out, p);
    p := PutNumber(out, p, e.level);
    p := Tab(out, p);
    p := PutText(out, p, AREA_NAME[e.area]);
    p := Tab(out, p);
    p := PutNumber(out, p, e.seqNo);
    p := Tab(out, p);
    p := PutText(out, p, e.note);
    out[p] := NUL;
    assert out[..p] == FormatLine(e);
  }

  method Tab(out: array<char>, pos: nat) returns (p: nat)
    requires pos < out.Length
    modifies out
    ensures p == pos + 1 && out[..p] == old(out[..pos]) + "\t"
  {
    out[pos] := '\t';
    p := pos + 1;
    assert out[..p] == out[..pos] + [out[pos]];
  }

  method PutNumber(out: array<char>, pos: nat, v: nat) returns (p: nat)
    requires v < 0x1_0000_0000 && pos + |Decimal(v)| <= out.Length
    modifies out
    ensures p == pos + |Decimal(v)| && out[..p] == old(out[..pos]) + Decimal(v)
  {
    p := PutDecimal(out, pos, v);
    assert out[..p] == out[..pos] + out[pos..p];
  }

  method FormatStamp(e: Entry, out: array<char>) returns (p: nat)
    requires ValidEntry(e) && out.Length == LINE_MAX
    modifies out
    ensures p == |DayText(e.day)| + 1 + |TimeText(e.minute)| <= 16
    ensures out[..p] == DayText(e.day) + "\t" + TimeText(e.minute)
  {
    if e.day == NO_DAY {
      out[0] := '-';
      p := 1;
      assert out[..p] == DayText(e.day);
    } else {
      LoggedYear(e.day);
      p := PutDate(CivilFromDays(e.day), out);
    }
    p := Tab(out, p);
    p := PutTime(e.minute, out, p);
  }

  method PutDate(t: Date, out: array<char>) returns (p: nat)
    requires ValidDate(t) && 0 <= t.y && out.Length >= 10
    modifies out
    ensures p == 10 && out[..p] == Digits(t.y, 4) + "-" + Digits(t.m, 2) + "-" + Digits(t.d, 2)
  {
    p := Put(out, 0, t.y, 4);
    out[p] := '-';
    p := p + 1;
    assert out[..p] == Digits(t.y, 4) + "-";
    p := Put(out, p, t.m, 2);
    out[p] := '-';
    p := p + 1;
    assert out[..p] == Digits(t.y, 4) + "-" + Digits(t.m, 2) + "-";
    p := Put(out, p, t.d, 2);
  }

  method PutTime(minute: int, out: array<char>, pos: nat) returns (p: nat)
    requires 0 <= minute && pos + 5 <= out.Length
    modifies out
    ensures p == pos + |TimeText(minute)|
    ensures out[..p] == old(out[..pos]) + TimeText(minute)
  {
    if minute == NO_TIME {
      out[pos] := '-';
      p := pos + 1;
      assert out[..p] == out[..pos] + [out[pos]];
    } else {
      p := Put(out, pos, minute / 60, 2);
      out[p] := ':';
      p := p + 1;
      assert out[..p] == out[..p - 1] + ":";
      p := Put(out, p, minute % 60, 2);
      assert p == pos + 5;
    }
  }

  lemma LineFits(e: Entry)
    requires ValidEntry(e) && e.seqNo < 0x1_0000_0000
    ensures |DayText(e.day)| <= 10 && |TimeText(e.minute)| <= 5
    ensures |Decimal(e.level)| <= 2 && |Decimal(e.seqNo)| <= 10 && |AREA_NAME[e.area]| <= 6
    ensures |FormatLine(e)| <= LINE_MAX - 2
  {
    if e.day != NO_DAY { LoggedYear(e.day); }
    DecimalLength(e.level, 2);
    DecimalLength(e.seqNo, 10);
    assert Pow10(2) == 100;
    Pow10Of10();
  }

  lemma Pow10Of10()
    ensures Pow10(10) == 10_000_000_000 && Pow10(9) == 1_000_000_000
  {
    assert Pow10(5) == 100_000;
  }

  // ---- reading a line: pain_parse ----------------------------------------------------------

  predicate SameWord(s: string, name: string) {
    |s| == |name| && forall i :: 0 <= i < |s| ==> Lower(s[i]) == name[i]
  }

  /** The area a word means, ignoring case; "other" for a word it does not know. */
  function AreaOf(s: string): int {
    if SameWord(s, AREA_NAME[0]) then 0
    else if SameWord(s, AREA_NAME[1]) then 1
    else if SameWord(s, AREA_NAME[2]) then 2
    else PAIN_OTHER
  }

  /** The value of the n characters of s from `off`, or -1 if one is not a digit. */
  function Num(s: string, off: nat, n: nat): (v: int)
    requires off <= |s|
    ensures v >= 0 ==> off + n <= |s| && AllDigits(s[off..off + n]) && v == Value(s[off..off + n])
    ensures v < 0 ==> off + n > |s| || !AllDigits(s[off..off + n])
  {
    if n == 0 then 0
    else
      var v := Num(s, off, n - 1);
      assert off + n <= |s| ==>
        s[off..off + n][..n - 1] == s[off..off + n - 1] && s[off..off + n][n - 1] == s[off + n - 1];
      if v < 0 then NumPrefix(s, off, n); -1
      else if !IsDigit(At(s, off + n - 1)) then -1
      else v * 10 + DigitVal(At(s, off + n - 1))
  }

  lemma NumPrefix(s: string, off: nat, n: nat)
    requires off <= |s| && 0 < n
    requires off + n - 1 > |s| || !AllDigits(s[off..off + n - 1])
    ensures off + n > |s| || !AllDigits(s[off..off + n])
  {
    if off + n <= |s| {
      var i :| 0 <= i < n - 1 && !IsDigit(s[off..off + n - 1][i]);
      assert !IsDigit(s[off..off + n][i]);
    }
  }

  method PainNum(s: string, off: nat, n: nat) returns (v: int)
    requires off <= |s|
    ensures v == Num(s, off, n)
  {
    v := 0;
    for i := 0 to n
      invariant v == Num(s, off, i) >= 0
    {
      if !IsDigit(At(s, off + i)) {
        NumFails(s, off, i + 1, n);
        return -1;
      }
      v := v * 10 + DigitVal(At(s, off + i));
    }
  }

  lemma {:induction false} NumFails(s: string, off: nat, i: nat, n: nat)
    requires off <= |s| && i <= n && Num(s, off, i) < 0
    ensures Num(s, off, n) == -1
  {
    if i < n {
      NumFails(s, off, i, n - 1);
    }
  }

  /** All of s as 1 to 9 digits, or -1. */
  function Dec(s: string): int {
    if 1 <= |s| <= 9 && AllDigits(s) then Value(s) else -1
  }

  method PainDec(s: string) returns (v: int)
    ensures v == Dec(s)
  {
    v := 0;
    var n := 0;
    while n < |s| && IsDigit(s[n])
      invariant 0 <= n <= |s| && n <= 9
      invariant AllDigits(s[..n]) && v == Value(s[..n])
    {
      if n >= 9 { return -1; }
      assert s[..n + 1][..n] == s[..n];
      v := v * 10 + DigitVal(s[n]);
      n := n + 1;
    }
    assert n == |s| ==> s[..n] == s;
    return if n > 0 && n == |s| then v else -1;
  }

  /** A real date after 1970-01-01, or "-". */
  function ParseDay(s: string): Option<int> {
    if At(s, 0) == '-' && At(s, 1) == NUL then Some(NO_DAY)
    else
      var y := Num(s, 0, 4);
      if y < 1970 || At(s, 4) != '-' then None
      else
        var m := Num(s, 5, 2);
        if m < 1 || m > 12 || At(s, 7) != '-' then None
        else
          var d := Num(s, 8, 2);
          if d < 1 || d > DaysInMonth(y, m) || At(s, 10) != NUL then None
          else
            var z := DaysFromCivil(Date(y, m, d));
            if z <= 0 then None else Some(z)
  }

  /** "14:05" or "9:05", or "-". */
  function ParseTime(s: string): Option<int> {
    if At(s, 0) == '-' && At(s, 1) == NUL then Some(NO_TIME)
    else if !IsDigit(At(s, 0)) then None
    else
      var hl := if At(s, 1) == ':' then 1 else 2;
      var h := Num(s, 0, hl);
      if h < 0 || h > 23 || At(s, hl) != ':' then None
      else
        var m := Num(s, hl + 1, 2);
        if m < 0 || m > 59 || At(s, hl + 3) != NUL then None
        else Some(h * 60 + m)
  }

  function ParseSeq(f: string): Option<nat> {
    if f == "" then Some(0)
    else
      var v := Dec(f);
      if v < 0 then None else Some(v)
  }

  /** A file line as an entry; None if its date, time, level or seq cannot be read. */
  function Parse(line: string): Option<Entry> {
    var day := ParseDay(Field(line, 0, 16));
    var minute := ParseTime(Field(line, 1, 16));
    var level := Dec(Field(line, 2, 16));
    var seqNo := ParseSeq(Field(line, 4, 16));
    if day.None? || minute.None? || level < 0 || level > LEVEL_MAX || seqNo.None? then None
    else Some(Entry(day.value, if day.value == NO_DAY then NO_TIME else minute.value, level,
                    AreaOf(Field(line, 3, 16)), seqNo.value, Clean(Field(line, 5, 64))))
  }

  // ---- the round trip ----------------------------------------------------------------------

  lemma FieldsOfLine(e: Entry)
    requires ValidEntry(e)
    ensures Fields(FormatLine(e))
         == [DayText(e.day), TimeText(e.minute), Decimal(e.level), AREA_NAME[e.area], Decimal(e.seqNo), e.note]
  {
    hide Fields, Decimal, CivilFromDays, Digits;
    if e.day != NO_DAY { LoggedYear(e.day); }
    FieldsOfSix(DayText(e.day), TimeText(e.minute), Decimal(e.level), AREA_NAME[e.area], Decimal(e.seqNo), e.note);
  }

  lemma FieldsOfSix(a: string, b: string, c: string, d: string, f: string, g: string)
    requires PlainField(a) && PlainField(b) && PlainField(c) && PlainField(d) && PlainField(f) && PlainField(g)
    ensures Fields(a + "\t" + b + "\t" + c + "\t" + d + "\t" + f + "\t" + g) == [a, b, c, d, f, g]
  {
    FieldsOfLast(a);
    var l1 := a + "\t" + b;
    FieldsOfAppend(a, b);
    var l2 := l1 + "\t" + c;
    FieldsOfAppend(l1, c);
    var l3 := l2 + "\t" + d;
    FieldsOfAppend(l2, d);
    var l4 := l3 + "\t" + f;
    FieldsOfAppend(l3, f);
    FieldsOfAppend(l4, g);
  }

  lemma NumOfDigits(s: string, off: nat, n: nat, v: nat)
    requires off + n <= |s| && s[off..off + n] == Digits(v, n) && v < Pow10(n)
    ensures Num(s, off, n) == v
  {
    ValueOfDigits(v, n);
  }

  lemma ParseOfDay(day: int)
    requires 0 <= day <= DAY_MAX
    ensures ParseDay(DayText(day)) == Some(day)
  {
    if day != NO_DAY {
      LoggedYear(day);
      var t := CivilFromDays(day);
      assert t.m <= 12 && t.d <= 31;
      NumsOfDate(DayText(day), t.y, t.m, t.d);
    }
  }

  lemma NumsOfDate(s: string, y: nat, m: nat, d: nat)
    requires s == Digits(y, 4) + "-" + Digits(m, 2) + "-" + Digits(d, 2)
    requires y < 10000 && m < 100 && d < 100
    ensures |s| == 10 && s[0] != '-' && s[4] == '-' && s[7] == '-'
    ensures Num(s, 0, 4) == y && Num(s, 5, 2) == m && Num(s, 8, 2) == d
  {
    assert Pow10(2) == 100 && Pow10(4) == 10000;
    assert IsDigit(s[0]);
    NumOfDigits(s, 0, 4, y);
    NumOfDigits(s, 5, 2, m);
    NumOfDigits(s, 8, 2, d);
  }

  lemma ParseOfTime(minute: int)
    requires 0 <= minute <= 1439 || minute == NO_TIME
    ensures ParseTime(TimeText(minute)) == Some(minute)
  {
    if minute != NO_TIME {
      var s := TimeText(minute);
      assert Pow10(2) == 100;
      assert s[0..2] == Digits(minute / 60, 2) && s[3..5] == Digits(minute % 60, 2);
      NumOfDigits(s, 0, 2, minute / 60);
      NumOfDigits(s, 3, 2, minute % 60);
      assert IsDigit(s[0]) && IsDigit(s[1]);
    }
  }

  lemma DecOfDecimal(v: nat)
    ensures Dec(Decimal(v)) == if v < 1_000_000_000 then v else -1
  {
    ValueOfDecimal(v);
    DecimalLength(v, 9);
    Pow10Of10();
  }

  /** The line of a valid entry reads back as the entry exactly when its seq has at most nine
      digits, dated or not and timed or not; with ten it is a line the next load skips. */
  lemma ParseOfFormat(e: Entry)
    requires ValidEntry(e) && e.seqNo < 0x1_0000_0000
    ensures Parse(FormatLine(e)) == if e.seqNo < 1_000_000_000 then Some(e) else None
  {
    hide FormatLine, Decimal, DayText, TimeText, ParseDay, ParseTime, Dec, ParseSeq, AreaOf, Clean;
    LineFits(e);
    FieldsOfLine(e);
    var line := FormatLine(e);
    assert Field(line, 0, 16) == DayText(e.day);
    assert Field(line, 1, 16) == TimeText(e.minute);
    assert Field(line, 2, 16) == Decimal(e.level);
    assert Field(line, 3, 16) == AREA_NAME[e.area];
    assert Field(line, 4, 16) == Decimal(e.seqNo);
    assert Field(line, 5, 64) == e.note;
    RoundTripParts(e);
  }

  lemma RoundTripParts(e: Entry)
    requires ValidEntry(e)
    ensures ParseDay(DayText(e.day)) == Some(e.day) && ParseTime(TimeText(e.minute)) == Some(e.minute)
    ensures Dec(Decimal(e.level)) == e.level && AreaOf(AREA_NAME[e.area]) == e.area && Clean(e.note) == e.note
    ensures ParseSeq(Decimal(e.seqNo)) == if e.seqNo < 1_000_000_000 then Some(e.seqNo) else None
  {
    ParseOfDay(e.day);
    ParseOfTime(e.minute);
    DecOfDecimal(e.level);
    DecOfDecimal(e.seqNo);
    CleanIsClean(e.note);
    AreaOfName(e.area);
  }

  lemma AreaOfName(area: int)
    requires 0 <= area < AREAS
    ensures AreaOf(AREA_NAME[area]) == area
  {
    var name := AREA_NAME[area];
    assert SameWord(name, name);
    assert "other"[0] != "cramps"[0] && "other"[0] != "back"[0] && "head"[0] != "back"[0];
  }

  /** Every line that parses gives a valid entry with a seq below ten digits. */
  lemma ParsedIsValid(line: string)
    ensures Parse(line).Some? ==> ValidEntry(Parse(line).value) && Parse(line).value.seqNo < 1_000_000_000
  {
    CleanIsClean(Field(line, 5, 64));
    if Parse(line).Some? {
      ParsedDay(Field(line, 0, 16));
      SeqIsShort(Field(line, 4, 16));
    }
  }

  lemma {:induction false} ValueBound(s: string)
    requires AllDigits(s)
    ensures Value(s) < Pow10(|s|)
  {
    if s != "" {
      ValueBound(s[..|s| - 1]);
    }
  }

  lemma SeqIsShort(f: string)
    ensures ParseSeq(f).Some? ==> ParseSeq(f).value < 1_000_000_000
  {
    if f != "" && Dec(f) >= 0 {
      ValueBound(f);
      Pow10Of10();
      assert forall n: nat :: n < 9 ==> Pow10(n) <= Pow10(9) by {
        forall n: nat | n < 9 ensures Pow10(n) <= Pow10(9) { Pow10Grows(n, 9); }
      }
    }
  }

  lemma ParsedDay(f: string)
    ensures ParseDay(f).Some? ==> 0 <= ParseDay(f).value <= DAY_MAX
  {
    if ParseDay(f).Some? && ParseDay(f).value != NO_DAY {
      var t := Date(Num(f, 0, 4), Num(f, 5, 2), Num(f, 8, 2));
      ValueBound(f[0..4]);
      assert Pow10(4) == 10000;
      OrderIsNumberOrder(Date(9999, 12, 31), t);
    }
  }
}
