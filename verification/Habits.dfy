/** A habit's history: a file of dates and a bitmap of the last 371 days of it (apps/habits.c, lines
    133-155, 165-248 and 251-360). */
module Habits {
  import opened Common
  import opened Str
  import opened DateTime

  const WIN: nat := 371
  const KEEP_MAX: nat := 512
  const CAP: nat := 0xFFFF
  const LINE_SIZE: nat := 40

  function Min(a: int, b: int): int { if a < b then a else b }

  // ---- dates in the file: format_ymd, parse_ymd --------------------------------------------

  /** A day whose year the file's four digits can say and the reader takes. */
  predicate Writable(z: int) { 1900 <= CivilFromDays(z).y <= 9999 }

  function Ymd(z: int): (s: string)
    requires Writable(z)
  {
    var t := CivilFromDays(z);
    DayRoundTrip(z);
    Digits(t.y, 4) + Digits(t.m, 2) + Digits(t.d, 2)
  }

  /** The day a line names; None if it is not a date. */
  function ParseYmd(s: string): Option<int> {
    if |s| < 8 || !AllDigits(s[..8]) || (|s| > 8 && IsDigit(s[8])) then None
    else
      assert forall i :: 0 <= i < 8 ==> s[..8][i] == s[i];
      var y, m, d := Value(s[..4]), Value(s[4..6]), Value(s[6..8]);
      if m < 1 || m > 12 || d < 1 || d > 31 || y < 1900 then None else Some(DaysFromCivil(Date(y, m, d)))
  }

  lemma YmdComesBack(z: int)
    requires Writable(z)
    ensures ParseYmd(Ymd(z)) == Some(z) && |Ymd(z)| == 8 && AllDigits(Ymd(z))
  {
    hide CivilFromDays, DaysFromCivil, Value, Digits;
    var t, s := CivilFromDays(z), Ymd(z);
    DayRoundTrip(z);
    assert Pow10(2) == 100 && Pow10(4) == 10_000 by { assert Pow10(1) == 10; assert Pow10(3) == 1000; }
    ValueOfDigits(t.y, 4);
    ValueOfDigits(t.m, 2);
    ValueOfDigits(t.d, 2);
    assert s[..4] == Digits(t.y, 4) && s[4..6] == Digits(t.m, 2) && s[6..8] == Digits(t.d, 2) && s[..8] == s;
  }

  /** Eight digits that are a date, or would be in a month of 31 days, and no ninth. */
  predicate IsDateText(s: string, t: Date) {
    1900 <= t.y <= 9999 && 1 <= t.m <= 12 && 1 <= t.d <= 31 && |s| >= 8 && (|s| == 8 || !IsDigit(s[8]))
    && s[..8] == Digits(t.y, 4) + Digits(t.m, 2) + Digits(t.d, 2)
  }

  /** What the reader takes for a date, exactly. */
  lemma DatesReadExactly(s: string, z: int)
    ensures ParseYmd(s) == Some(z) <==> exists t: Date :: IsDateText(s, t) && z == DaysFromCivil(t)
  {
    hide ParseYmd, IsDateText, DaysFromCivil;
    if ParseYmd(s) == Some(z) { var t := DateOfText(s, z); }
    forall t: Date | IsDateText(s, t) && z == DaysFromCivil(t) ensures ParseYmd(s) == Some(z) { TextOfDate(s, t); }
  }

  lemma DateOfText(s: string, z: int) returns (t: Date)
    requires ParseYmd(s) == Some(z)
    ensures IsDateText(s, t) && z == DaysFromCivil(t)
  {
    hide DaysFromCivil, Value, Digits;
    assert forall i :: 0 <= i < 8 ==> s[..8][i] == s[i];
    t := Date(Value(s[..4]), Value(s[4..6]), Value(s[6..8]));
    FourDigits(s[..4]);
    DigitsOfValue(s[..4]);
    DigitsOfValue(s[4..6]);
    DigitsOfValue(s[6..8]);
    assert s[..8] == s[..4] + s[4..6] + s[6..8];
  }

  lemma TextOfDate(s: string, t: Date)
    requires IsDateText(s, t)
    ensures ParseYmd(s) == Some(DaysFromCivil(t))
  {
    hide DaysFromCivil, Value, Digits;
    assert Pow10(2) == 100 && Pow10(4) == 10_000 by { assert Pow10(1) == 10; assert Pow10(3) == 1000; }
    ValueOfDigits(t.y, 4);
    ValueOfDigits(t.m, 2);
    ValueOfDigits(t.d, 2);
    var d := s[..8];
    assert d[..4] == Digits(t.y, 4) && d[4..6] == Digits(t.m, 2) && d[6..8] == Digits(t.d, 2);
    assert s[..4] == d[..4] && s[4..6] == d[4..6] && s[6..8] == d[6..8];
    assert AllDigits(d);
  }

  /** The fourth of October 2024 as it is written. */
  lemma DateAsWritten()
    ensures Writable(20000) && Ymd(20000) == "20241004"
  {
    hide CivilFromDays, Digits;
    var t := Date(2024, 10, 4);
    assert ValidDate(t) && DaysFromCivil(t) == 20000;
    DateRoundTrip(t);
    YearDigits();
    assert "2024" + "10" + "04" == "20241004";
  }

  lemma YearDigits()
    ensures Digits(2024, 4) == "2024" && Digits(10, 2) == "10" && Digits(4, 2) == "04"
  {
    hide Digits;
    DigitsStep(2024, 3);
    DigitsStep(202, 2);
    DigitsStep(20, 1);
    DigitsStep(2, 0);
    DigitsStep(10, 1);
    DigitsStep(1, 0);
    DigitsStep(4, 1);
    DigitsStep(0, 0);
    assert Digits(2, 1) == "2" && Digits(20, 2) == "20" && Digits(202, 3) == "202";
    assert Digits(1, 1) == "1" && Digits(0, 1) == "0";
  }

  /** The reader's thirty-first of February is the second of March. */
  lemma FebruaryRunsOver()
    ensures ParseYmd("20240231") == Some(DaysFromCivil(Date(2024, 3, 2)))
  {
    hide Value, DaysFromCivil;
    var s := "20240231";
    assert s[..4] == "2024" && s[4..6] == "02" && s[6..8] == "31" && s[..8] == s;
    ThoseDigits();
    PastFebruary();
    assert AllDigits(s);
  }

  lemma PastFebruary()
    ensures DaysFromCivil(Date(2024, 2, 31)) == DaysFromCivil(Date(2024, 3, 2))
  {
  }

  lemma ThoseDigits()
    ensures Value("2024") == 2024 && Value("02") == 2 && Value("31") == 31
  {
    hide Value;
    ValueStep("", '2');
    ValueStep("2", '0');
    ValueStep("20", '2');
    ValueStep("202", '4');
    ValueStep("", '0');
    ValueStep("0", '2');
    ValueStep("", '3');
    ValueStep("3", '1');
    assert "" + ['2'] == "2" && "2" + ['0'] == "20" && "20" + ['2'] == "202" && "202" + ['4'] == "2024";
    assert "" + ['0'] == "0" && "0" + ['2'] == "02" && "" + ['3'] == "3" && "3" + ['1'] == "31";
  }

  /** A date one past the end of its month is the first of the next, and so on: the reader takes the
      31st of any month. */
  lemma ParsedIsWritable(s: string)
    requires ParseYmd(s).Some?
    ensures Writable(ParseYmd(s).value)
  {
    hide CivilFromDays, DaysFromCivil, Value;
    assert forall i :: 0 <= i < 8 ==> s[..8][i] == s[i];
    var t := Date(Value(s[..4]), Value(s[4..6]), Value(s[6..8]));
    FourDigits(s[..4]);
    var len := DaysInMonth(t.y, t.m);
    if t.d <= len {
      DateRoundTrip(t);
    } else {
      var last, next := Date(t.y, t.m, len), Date(t.y, t.m + 1, 1);
      assert len >= 28 && ValidDate(last) && t.m < 12 && NextDate(last) == next;
      NextDay(last);
      SameMonth(last, t.d);
      SameMonth(next, t.d - len);
      DateRoundTrip(Date(t.y, t.m + 1, t.d - len));
    }
  }

  lemma SameMonth(t: Date, d: int)
    ensures DaysFromCivil(Date(t.y, t.m, d)) == DaysFromCivil(t) + (d - t.d)
  {
  }

  lemma FourDigits(s: string)
    requires AllDigits(s) && |s| == 4
    ensures Value(s) <= 9999
  {
    assert Value(s[..0]) == 0;
    assert s[..1][..0] == s[..0] && s[..2][..1] == s[..1] && s[..3][..2] == s[..2];
    assert Value(s[..1]) <= 9;
    assert Value(s[..2]) <= 99;
    assert Value(s[..3]) <= 999;
  }

  /** The dates among some lines, in order; the rest are passed over. */
  function Dates(lines: seq<string>): seq<int> {
    if lines == [] then []
    else
      var z := ParseYmd(lines[|lines| - 1]);
      Dates(lines[..|lines| - 1]) + if z.Some? then [z.value] else []
  }

  function FileDates(text: string): seq<int> { Dates(LinesFrom(text, "", LINE_SIZE)) }

  predicate AllWritable(zs: seq<int>) { forall i :: 0 <= i < |zs| ==> Writable(zs[i]) }

  /** The days as save_log writes them. */
  function DayLines(zs: seq<int>): string
    requires AllWritable(zs)
  {
    if zs == [] then "" else DayLines(zs[..|zs| - 1]) + Ymd(zs[|zs| - 1]) + "\n"
  }

  lemma {:induction false} DatesAppend(a: seq<string>, b: seq<string>)
    ensures Dates(a + b) == Dates(a) + Dates(b)
  {
    hide ParseYmd;
    if b == [] {
      assert a + b == a;
    } else {
      assert (a + b)[..|a + b| - 1] == a + b[..|b| - 1];
      DatesAppend(a, b[..|b| - 1]);
    }
  }

  lemma {:induction false} DatesOfDays(zs: seq<int>, rest: string)
    requires AllWritable(zs)
    ensures FileDates(DayLines(zs) + rest) == zs + FileDates(rest)
  {
    hide Writable, Ymd, ParseYmd, LinesFrom;
    if zs == [] {
      assert DayLines(zs) + rest == rest;
    } else {
      var front, z := zs[..|zs| - 1], zs[|zs| - 1];
      var line := Ymd(z);
      DatesOfDays(front, line + "\n" + rest);
      assert DayLines(zs) + rest == DayLines(front) + (line + "\n" + rest);
      YmdComesBack(z);
      assert "" + line == line;
      LinesOfLine("", line, rest, LINE_SIZE);
      DatesAppend([line], LinesFrom(rest, "", LINE_SIZE));
      assert [line][..0] == [] && Dates([line]) == [z];
    }
  }

  /** What a save writes is what the next load reads. */
  lemma WrittenDaysAreRead(zs: seq<int>)
    requires AllWritable(zs)
    ensures FileDates(DayLines(zs)) == zs
  {
    hide Writable, AllWritable, DayLines, LinesFrom;
    DatesOfDays(zs, "");
    assert DayLines(zs) + "" == DayLines(zs);
    assert LinesFrom("", "", LINE_SIZE) == [] by { NoLines(); }
  }

  lemma NoLines()
    ensures LinesFrom("", "", LINE_SIZE) == []
  {
  }

  lemma FileIsWritable(text: string)
    ensures forall z :: z in FileDates(text) ==> Writable(z)
  {
    LinesAreWritable(LinesFrom(text, "", LINE_SIZE));
  }

  lemma {:induction false} LinesAreWritable(lines: seq<string>)
    ensures forall z :: z in Dates(lines) ==> Writable(z)
  {
    hide ParseYmd, Writable;
    if lines != [] {
      LinesAreWritable(lines[..|lines| - 1]);
      if ParseYmd(lines[|lines| - 1]).Some? { ParsedIsWritable(lines[|lines| - 1]); }
    }
  }

  // ---- the window --------------------------------------------------------------------------

  /** A bit a day; day k of the window is `start + k`. */
  type Marks = m: seq<bool> | |m| == WIN witness seq(WIN, _ => false)

  predicate InWindow(z: int, start: int) { start <= z < start + WIN }

  predicate IsDone(m: Marks, start: int, z: int) { InWindow(z, start) && m[z - start] }

  function SetDone(m: Marks, start: int, z: int, on: bool): Marks {
    if InWindow(z, start) then m[z - start := on] else m
  }

  /** The marks that are some dates of a file. */
  function MarksOf(zs: seq<int>, start: int): Marks {
    seq(WIN, k => start + k in zs)
  }

  function Outside(zs: seq<int>, start: int): (r: seq<int>)
    ensures |r| <= |zs|
  {
    if zs == [] then []
    else Outside(zs[..|zs| - 1], start) + if InWindow(zs[|zs| - 1], start) then [] else [zs[|zs| - 1]]
  }

  function Inside(zs: seq<int>, start: int): seq<int> {
    if zs == [] then []
    else Inside(zs[..|zs| - 1], start) + if InWindow(zs[|zs| - 1], start) then [zs[|zs| - 1]] else []
  }

  function Count(m: seq<bool>): (n: nat)
    ensures n <= |m|
  {
    if m == [] then 0 else Count(m[..|m| - 1]) + if m[|m| - 1] then 1 else 0
  }

  /** The marked days among the first of the window. */
  function DaysOf(m: seq<bool>, start: int): (zs: seq<int>)
    ensures |zs| == Count(m)
  {
    if m == [] then [] else DaysOf(m[..|m| - 1], start) + if m[|m| - 1] then [start + |m| - 1] else []
  }

  /** anchor: the bitmap with its window `shift` days later. */
  function Slide(m: Marks, shift: int): Marks {
    seq(WIN, k => 0 <= k + shift < WIN && m[k + shift])
  }

  /** How many of the first j days fall out of it. */
  function Gone(m: Marks, shift: int, j: nat): nat
    requires j <= WIN
  {
    if j == 0 then 0 else Gone(m, shift, j - 1) + if m[j - 1] && !(0 <= j - 1 - shift < WIN) then 1 else 0
  }

  function Total(m: Marks, outside: nat): nat { outside + Count(m) }

  lemma {:induction false} CountAppend(a: seq<bool>, b: seq<bool>)
    ensures Count(a + b) == Count(a) + Count(b)
  {
    if b == [] {
      assert a + b == a;
    } else {
      assert (a + b)[..|a + b| - 1] == a + b[..|b| - 1];
      CountAppend(a, b[..|b| - 1]);
    }
  }

  lemma {:induction false} CountNone(m: seq<bool>)
    requires forall k :: 0 <= k < |m| ==> !m[k]
    ensures Count(m) == 0
  {
    if m != [] { CountNone(m[..|m| - 1]); }
  }

  /** What has fallen out so far, as a piece of the old bitmap: from its old end for a window moving
      on, from its new one for a window moving back. */
  lemma {:induction false} GoneIs(m: Marks, shift: int, j: nat)
    requires j <= WIN
    ensures shift >= 0 ==> Gone(m, shift, j) == Count(m[..Min(j, shift)])
    ensures shift < 0 ==>
      Gone(m, shift, j) == if j <= WIN + shift then 0
                           else if WIN + shift < 0 then Count(m[..j]) else Count(m[WIN + shift..j])
  {
    if j > 0 {
      GoneIs(m, shift, j - 1);
      assert m[..j][..j - 1] == m[..j - 1];
      if 0 <= WIN + shift < j { assert m[WIN + shift..j][..j - 1 - (WIN + shift)] == m[WIN + shift..j - 1]; }
    }
  }

  /** Days slide out of the bitmap one for one: none is counted twice and none is dropped. */
  lemma SlideCounts(m: Marks, shift: int)
    ensures Count(Slide(m, shift)) + Gone(m, shift, WIN) == Count(m)
  {
    hide Count, Gone;
    GoneIs(m, shift, WIN);
    var r := Slide(m, shift);
    assert m[..WIN] == m;
    if shift >= WIN || shift + WIN <= 0 {
      CountNone(r);
    } else if shift >= 0 {
      assert m == m[..shift] + m[shift..] && r == m[shift..] + r[WIN - shift..];
      CountAppend(m[..shift], m[shift..]);
      CountAppend(m[shift..], r[WIN - shift..]);
      CountNone(r[WIN - shift..]);
    } else {
      assert m == m[..WIN + shift] + m[WIN + shift..] && r == r[..-shift] + m[..WIN + shift];
      CountAppend(m[..WIN + shift], m[WIN + shift..]);
      CountAppend(r[..-shift], m[..WIN + shift]);
      CountNone(r[..-shift]);
    }
  }

  /** The total shown is the same before and after the window moves exactly when the days outside it
      can still be counted in sixteen bits. */
  lemma AnchorKeepsTotalExactly(m: Marks, outside: nat, shift: int)
    requires outside <= CAP
    ensures Total(Slide(m, shift), Min(CAP, outside + Gone(m, shift, WIN))) == Total(m, outside)
            <==> outside + Gone(m, shift, WIN) <= CAP
  {
    SlideCounts(m, shift);
  }

  lemma OneMark()
    ensures Count([true]) == 1
  {
    assert [true][..0] == [];
  }

  /** One day marked, the count already at its cap, and the window moved on by a day: the total is one
      less. */
  lemma CapLosesOne()
    ensures var m: Marks := seq(WIN, k => k == 0);
      Total(Slide(m, 1), Min(CAP, CAP + Gone(m, 1, WIN))) == Total(m, CAP) - 1
  {
    hide Count;
    var m: Marks := seq(WIN, k => k == 0);
    GoneIs(m, 1, WIN);
    SlideCounts(m, 1);
    assert m[..1] == [true];
    OneMark();
  }

  // ---- a save: save_log --------------------------------------------------------------------

  function Place(s: seq<int>, x: int): (r: seq<int>)
    ensures |r| == |s| + 1
  {
    if s == [] || s[|s| - 1] <= x then s + [x] else Place(s[..|s| - 1], x) + [s[|s| - 1]]
  }

  function Sort(s: seq<int>): (r: seq<int>)
    ensures |r| == |s|
  {
    if s == [] then [] else Place(Sort(s[..|s| - 1]), s[|s| - 1])
  }

  predicate Ordered(s: seq<int>) { forall i, j :: 0 <= i < j < |s| ==> s[i] <= s[j] }
  predicate Ascending(s: seq<int>) { forall i, j :: 0 <= i < j < |s| ==> s[i] < s[j] }

  /** How many at the front are before x. */
  function Leading(s: seq<int>, x: int): (n: nat)
    ensures n <= |s| && (forall i :: 0 <= i < n ==> s[i] < x) && (n < |s| ==> s[n] >= x)
  {
    if s == [] || s[0] >= x then 0
    else
      assert forall i :: 1 <= i < 1 + Leading(s[1..], x) ==> s[i] == s[1..][i - 1];
      1 + Leading(s[1..], x)
  }

  function Kept(was: seq<int>, start: int): (r: seq<int>)
    ensures |r| <= KEEP_MAX
  {
    var out := Outside(was, start);
    if |out| <= KEEP_MAX then out else out[..KEEP_MAX]
  }

  /** The days a save writes over a file of `old` ones. */
  function SavedDays(was: seq<int>, m: Marks, start: int): seq<int> {
    var kept := Sort(Kept(was, start));
    var a := Leading(kept, start);
    kept[..a] + DaysOf(m, start) + kept[a..]
  }

  lemma {:induction false} PlaceKeeps(s: seq<int>, x: int)
    ensures multiset(Place(s, x)) == multiset(s) + multiset{x}
  {
    if s != [] && s[|s| - 1] > x {
      PlaceKeeps(s[..|s| - 1], x);
      assert s == s[..|s| - 1] + [s[|s| - 1]];
    }
  }

  lemma {:induction false} PlaceOrders(s: seq<int>, x: int)
    requires Ordered(s)
    ensures Ordered(Place(s, x))
  {
    if s != [] && s[|s| - 1] > x {
      var front, last := s[..|s| - 1], s[|s| - 1];
      PlaceOrders(front, x);
      PlaceKeeps(front, x);
      var r := Place(front, x);
      forall i | 0 <= i < |r| ensures r[i] <= last {
        assert r[i] in multiset(r);
        assert r[i] in front || r[i] == x;
      }
    }
  }

  lemma {:induction false} SortOrders(s: seq<int>)
    ensures Ordered(Sort(s)) && multiset(Sort(s)) == multiset(s)
  {
    if s != [] {
      assert s == s[..|s| - 1] + [s[|s| - 1]];
      SortOrders(s[..|s| - 1]);
      PlaceOrders(Sort(s[..|s| - 1]), s[|s| - 1]);
      PlaceKeeps(Sort(s[..|s| - 1]), s[|s| - 1]);
    }
  }

  lemma {:induction false} SortOfAscending(s: seq<int>)
    requires Ascending(s)
    ensures Sort(s) == s
  {
    if s != [] {
      SortOfAscending(s[..|s| - 1]);
      assert s == s[..|s| - 1] + [s[|s| - 1]];
    }
  }

  lemma {:induction false} OutsideHas(zs: seq<int>, start: int)
    ensures forall z :: z in Outside(zs, start) <==> z in zs && !InWindow(z, start)
    ensures Ascending(zs) ==> Ascending(Outside(zs, start))
  {
    if zs != [] {
      var front := zs[..|zs| - 1];
      assert zs == front + [zs[|zs| - 1]];
      OutsideHas(front, start);
      if Ascending(zs) {
        assert Ascending(front);
        var r := Outside(front, start);
        forall i | 0 <= i < |r| ensures r[i] < zs[|zs| - 1] { assert r[i] in r && r[i] in front; }
      }
    }
  }

  lemma {:induction false} InsideHas(zs: seq<int>, start: int)
    ensures forall z :: z in Inside(zs, start) <==> z in zs && InWindow(z, start)
    ensures Ascending(zs) ==> Ascending(Inside(zs, start))
    ensures |Inside(zs, start)| + |Outside(zs, start)| == |zs|
  {
    if zs != [] {
      var front := zs[..|zs| - 1];
      assert zs == front + [zs[|zs| - 1]];
      InsideHas(front, start);
      if Ascending(zs) {
        assert Ascending(front);
        var r := Inside(front, start);
        forall i | 0 <= i < |r| ensures r[i] < zs[|zs| - 1] { assert r[i] in r && r[i] in front; }
      }
    }
  }

  lemma {:induction false} DaysOfHas(m: seq<bool>, start: int)
    ensures forall z :: z in DaysOf(m, start) <==> start <= z < start + |m| && m[z - start]
    ensures Ascending(DaysOf(m, start))
  {
    if m != [] {
      var front := m[..|m| - 1];
      DaysOfHas(front, start);
      var r := DaysOf(front, start);
      forall i | 0 <= i < |r| ensures r[i] < start + |m| - 1 { assert r[i] in r; }
    }
  }

  /** What a save leaves in the file, whatever was in it: in order; the marked days and those kept. */
  lemma SavedInOrder(was: seq<int>, m: Marks, start: int)
    ensures Ordered(SavedDays(was, m, start))
    ensures multiset(SavedDays(was, m, start)) == multiset(Kept(was, start)) + multiset(DaysOf(m, start))
  {
    hide Outside, DaysOf, Sort, Leading, Kept, Ordered, InWindow;
    var kept, d := Sort(Kept(was, start)), DaysOf(m, start);
    SortOrders(Kept(was, start));
    var a := Leading(kept, start);
    assert kept == kept[..a] + kept[a..];
    DaysOfHas(m, start);
    KeptHas(was, start);
    forall i | 0 <= i < |kept| ensures !InWindow(kept[i], start) { assert kept[i] in multiset(kept); }
    forall i | 0 <= i < |d| ensures InWindow(d[i], start) { DayInWindow(m, start, d[i]); }
    Between(kept[..a], d, kept[a..], start);
  }

  lemma DayInWindow(m: Marks, start: int, z: int)
    requires z in DaysOf(m, start)
    ensures InWindow(z, start)
  {
    hide DaysOf;
    DaysOfHas(m, start);
  }

  lemma KeptHas(was: seq<int>, start: int)
    ensures forall z :: z in multiset(Kept(was, start)) ==> z in was && !InWindow(z, start)
  {
    OutsideHas(was, start);
  }

  lemma Between(a: seq<int>, b: seq<int>, c: seq<int>, start: int)
    requires Ordered(a + c) && Ascending(b)
    requires forall i :: 0 <= i < |a| ==> a[i] < start
    requires forall i :: 0 <= i < |b| ==> InWindow(b[i], start)
    requires forall i :: 0 <= i < |c| ==> !InWindow(c[i], start)
    requires |c| > 0 ==> c[0] >= start
    ensures Ordered(a + b + c)
  {
    var ac, abc := a + c, a + b + c;
    forall i | 0 <= i < |c| ensures c[i] >= start + WIN {
      assert ac[|a|] == c[0] && ac[|a| + i] == c[i];
    }
    forall i, j | 0 <= i < j < |abc| ensures abc[i] <= abc[j] {
      var x, y := if i < |a| then i else i - |b|, if j < |a| then j else j - |b|;
      if (i < |a| || i >= |a| + |b|) && (j < |a| || j >= |a| + |b|) {
        assert abc[i] == ac[x] && abc[j] == ac[y];
      }
    }
  }

  lemma BetweenStrictly(a: seq<int>, b: seq<int>, c: seq<int>)
    requires Ascending(a + c) && Ascending(b) && Ordered(a + b + c)
    requires forall i, j :: 0 <= i < |a| && 0 <= j < |b| ==> a[i] != b[j]
    requires forall i, j :: 0 <= i < |b| && 0 <= j < |c| ==> b[i] != c[j]
    ensures Ascending(a + b + c)
  {
    var ac, abc := a + c, a + b + c;
    forall i, j | 0 <= i < j < |abc| ensures abc[i] != abc[j] {
      var x, y := if i < |a| then i else i - |b|, if j < |a| then j else j - |b|;
      if (i < |a| || i >= |a| + |b|) && (j < |a| || j >= |a| + |b|) {
        assert abc[i] == ac[x] && abc[j] == ac[y];
      }
    }
  }

  /** A save carries over every date outside the window exactly when there are at most 512 of them. */
  lemma SaveCarriesExactly(was: seq<int>, m: Marks, start: int)
    ensures multiset(SavedDays(was, m, start)) == multiset(Outside(was, start)) + multiset(DaysOf(m, start))
            <==> |Outside(was, start)| <= KEEP_MAX
  {
    SavedInOrder(was, m, start);
    if |Outside(was, start)| > KEEP_MAX {
      assert |multiset(Kept(was, start))| == KEEP_MAX;
      assert |multiset(SavedDays(was, m, start))| == KEEP_MAX + |DaysOf(m, start)|;
      assert |multiset(Outside(was, start)) + multiset(DaysOf(m, start))| == |Outside(was, start)| + |DaysOf(m, start)|;
    }
  }

  lemma {:induction false} AllOutside(zs: seq<int>, start: int)
    requires forall z :: z in zs ==> !InWindow(z, start)
    ensures Outside(zs, start) == zs
  {
    if zs != [] {
      AllOutside(zs[..|zs| - 1], start);
      assert zs == zs[..|zs| - 1] + [zs[|zs| - 1]];
    }
  }

  /** A date a day for a year and five months, all of them long past: one more than is kept. */
  function LongPast(): seq<int> { seq(KEEP_MAX + 1, i => 10_000 + i) }

  /** A save over them loses the last. */
  lemma OneTooMany(m: Marks)
    ensures var start, last := 20_000, 10_000 + KEEP_MAX;
      last in LongPast() && !InWindow(last, start) && last !in SavedDays(LongPast(), m, start)
  {
    hide SavedDays, DaysOf, Outside;
    var zs, start, last := LongPast(), 20_000, 10_000 + KEEP_MAX;
    assert zs[KEEP_MAX] == last;
    AllOutside(zs, start);
    SavedInOrder(zs, m, start);
    DaysOfHas(m, start);
    assert last !in Kept(zs, start);
    var s := SavedDays(zs, m, start);
    assert last in s <==> last in multiset(s);
    assert last in Kept(zs, start) <==> last in multiset(Kept(zs, start));
    assert last in DaysOf(m, start) <==> last in multiset(DaysOf(m, start));
  }

  lemma InEither(s: seq<int>, o: seq<int>, d: seq<int>)
    requires multiset(s) == multiset(o) + multiset(d)
    ensures forall z :: z in s <==> z in o || z in d
  {
    forall z ensures z in s <==> z in o || z in d {
      assert z in s <==> z in multiset(s);
      assert z in o <==> z in multiset(o);
      assert z in d <==> z in multiset(d);
    }
  }

  lemma SavedHas(was: seq<int>, m: Marks, start: int)
    requires |Outside(was, start)| <= KEEP_MAX
    ensures forall z :: z in SavedDays(was, m, start) <==> (z in was && !InWindow(z, start)) || IsDone(m, start, z)
  {
    hide SavedDays, Kept, DaysOf, Outside;
    SaveCarriesExactly(was, m, start);
    OutsideHas(was, start);
    DaysOfHas(m, start);
    InEither(SavedDays(was, m, start), Outside(was, start), DaysOf(m, start));
  }

  lemma KeptAscends(was: seq<int>, start: int)
    requires Ascending(was)
    ensures Ascending(Kept(was, start))
    ensures forall i :: 0 <= i < |Kept(was, start)| ==> !InWindow(Kept(was, start)[i], start)
  {
    hide Outside;
    OutsideHas(was, start);
    var kept := Kept(was, start);
    forall i | 0 <= i < |kept| ensures !InWindow(kept[i], start) { assert kept[i] in Outside(was, start); }
  }

  /** In order with no date twice, if the file had none twice. */
  lemma SavedAscends(was: seq<int>, m: Marks, start: int)
    requires Ascending(was)
    ensures Ascending(SavedDays(was, m, start))
  {
    hide Sort, Leading, DaysOf, Outside;
    DaysOfHas(m, start);
    SavedInOrder(was, m, start);
    KeptAscends(was, start);
    var kept := Kept(was, start);
    SortOfAscending(kept);
    var a, d := Leading(kept, start), DaysOf(m, start);
    forall i | 0 <= i < |d| ensures InWindow(d[i], start) { assert d[i] in d; }
    assert kept == kept[..a] + kept[a..];
    BetweenStrictly(kept[..a], d, kept[a..]);
  }

  /** Moving the window and then saving loses no date exactly when the move uncovers none: a date the
      new window covers and the old one did not is in the file but not in the bitmap, and is not
      kept.  A clock that only goes forward, with no date in the file past the window's end, never
      uncovers one. */
  lemma MoveThenSaveExactly(zs: seq<int>, start: int, later: int)
    requires |Outside(zs, later)| <= KEEP_MAX
    ensures (forall z :: z in SavedDays(zs, Slide(MarksOf(zs, start), later - start), later) <==> z in zs)
            <==> (forall z :: z in zs && InWindow(z, later) ==> InWindow(z, start))
  {
    hide SavedDays, Outside;
    var m := Slide(MarksOf(zs, start), later - start);
    SavedHas(zs, m, later);
    forall z ensures IsDone(m, later, z) <==> InWindow(z, later) && InWindow(z, start) && z in zs {
      if InWindow(z, later) { SlideAt(zs, start, later, z); }
    }
    if z :| z in zs && InWindow(z, later) && !InWindow(z, start) {
      assert z !in SavedDays(zs, m, later);
    }
  }

  lemma SlideAt(zs: seq<int>, start: int, later: int, z: int)
    requires InWindow(z, later)
    ensures Slide(MarksOf(zs, start), later - start)[z - later] <==> InWindow(z, start) && z in zs
  {
    var k, m := z - later, MarksOf(zs, start);
    assert Slide(m, later - start)[k] == (0 <= k + (later - start) < WIN && m[k + (later - start)]);
  }

  /** A window anchored by a clock 200 days fast, then moved back to where it should be: the date in the
      file that it now covers is lost with the first save. */
  lemma UncoveredDateIsLost()
    ensures var z, fast, right := 20_000, 20_200, 19_700;
      InWindow(z, right) && z !in SavedDays([z], Slide(MarksOf([z], fast), right - fast), right)
  {
    hide SavedDays, Outside;
    var z, fast, right := 20_000, 20_200, 19_700;
    SlideAt([z], fast, right, z);
    SavedHas([z], Slide(MarksOf([z], fast), right - fast), right);
  }

  // ---- streaks -----------------------------------------------------------------------------

  /** The n days ending on z were done. */
  predicate AllDone(m: Marks, start: int, z: int, n: nat) {
    forall t :: z - n < t <= z ==> IsDone(m, start, t)
  }

  /** n is how many days in a row, ending on z, were done. */
  predicate IsRun(m: Marks, start: int, z: int, n: nat) {
    AllDone(m, start, z, n) && !IsDone(m, start, z - n)
  }

  /** The days counted are done one after the other back from z, and the day before them is not; and only one
      number is such a count. */
  lemma RunIs(m: Marks, start: int, z: int, n: nat, k: nat)
    ensures IsRun(m, start, z, n)
       <==> !IsDone(m, start, z - n) && forall t :: z - (n - 1) <= t <= z ==> IsDone(m, start, t)
    ensures IsRun(m, start, z, n) && IsRun(m, start, z, k) ==> n == k
  {
    hide IsDone;
  }

  lemma {:induction false} DayLinesAppend(a: seq<int>, b: seq<int>)
    requires AllWritable(a) && AllWritable(b)
    ensures AllWritable(a + b) && DayLines(a + b) == DayLines(a) + DayLines(b)
  {
    hide Writable, Ymd;
    assert AllWritable(a + b);
    if b == [] {
      assert a + b == a;
    } else {
      assert (a + b)[..|a + b| - 1] == a + b[..|b| - 1];
      DayLinesAppend(a, b[..|b| - 1]);
    }
  }
}
