/** One habit as the source holds it: 47 bytes of bits, a count of the days outside the window, and the
    loops over them (apps/habits.c, lines 165-248, 293-302, 321-360 and 455-466).  The source keeps up
    to twenty of these, which share the window and nothing else. */
module HabitsStore {
  import opened Common
  import opened Str
  import opened Habits

  const WIN_BYTES: nat := 47

  /** 1 << i, in a byte. */
  function Mask(i: nat): bv8
    requires i < 8
  {
    if i == 0 then 1 else if i == 1 then 2 else if i == 2 then 4 else if i == 3 then 8
    else if i == 4 then 16 else if i == 5 then 32 else if i == 6 then 64 else 128
  }

  predicate Has(b: bv8, x: bv8) { b & x != 0 }
  function With(b: bv8, x: bv8): bv8 { b | x }
  function Without(b: bv8, x: bv8): bv8 { b & !x }
  predicate Apart(x: bv8, y: bv8) { x & y == 0 }

  predicate Bit(b: bv8, i: nat)
    requires i < 8
  {
    Has(b, Mask(i))
  }

  lemma SameBit(b: bv8, x: bv8)
    requires x != 0
    ensures Has(With(b, x), x) && !Has(Without(b, x), x)
  {
  }

  lemma OtherBit(b: bv8, x: bv8, y: bv8)
    requires Apart(x, y)
    ensures Has(With(b, x), y) == Has(b, y) && Has(Without(b, x), y) == Has(b, y)
  {
  }

  lemma MasksApart(i: nat, j: nat)
    requires i < 8 && j < 8
    ensures Mask(i) != 0 && (i != j ==> Apart(Mask(i), Mask(j)))
  {
  }

  /** A byte with one bit set or cleared: that one, and no other. */
  function WithBit(b: bv8, i: nat, on: bool): (r: bv8)
    requires i < 8
    ensures forall j :: 0 <= j < 8 ==> Bit(r, j) == if j == i then on else Bit(b, j)
  {
    hide Mask, Has, With, Without, Apart;
    assert forall j | 0 <= j < 8 ::
        Bit(With(b, Mask(i)), j) == (i == j || Bit(b, j)) && Bit(Without(b, Mask(i)), j) == (i != j && Bit(b, j)) by {
      forall j | 0 <= j < 8
        ensures Bit(With(b, Mask(i)), j) == (i == j || Bit(b, j))
        ensures Bit(Without(b, Mask(i)), j) == (i != j && Bit(b, j))
      {
        MasksApart(i, j);
        if i == j { SameBit(b, Mask(i)); } else { OtherBit(b, Mask(i), Mask(j)); }
      }
    }
    if on then With(b, Mask(i)) else Without(b, Mask(i))
  }

  class Habit {
    const bits: array<bv8>
    var outside: nat

    ghost predicate Valid()
      reads this
    {
      bits.Length == WIN_BYTES && outside <= CAP
    }

    function View(): (m: Marks)
      reads bits
      requires bits.Length == WIN_BYTES
    {
      seq(WIN, k requires 0 <= k < WIN reads bits requires bits.Length == WIN_BYTES => Bit(bits[k / 8], k % 8))
    }

    constructor ()
      ensures Valid() && fresh(bits) && outside == 0 && View() == seq(WIN, _ => false)
    {
      bits := new bv8[WIN_BYTES](_ => 0);
      outside := 0;
      new;
      forall k | 0 <= k < WIN ensures !View()[k] { NoBits(k % 8); }
    }

    static lemma NoBits(i: nat)
      requires i < 8
      ensures !Bit(0, i)
    {
    }

    method IsDoneOn(start: int, z: int) returns (done: bool)
      requires Valid()
      ensures done == IsDone(View(), start, z)
    {
      if !InWindow(z, start) { return false; }
      var k := z - start;
      done := Bit(bits[k / 8], k % 8);
    }

    method SetDoneOn(start: int, z: int, on: bool)
      requires Valid()
      modifies bits
      ensures Valid() && View() == SetDone(old(View()), start, z, on)
    {
      if !InWindow(z, start) { return; }
      SetBit(z - start, on);
    }

    method SetBit(k: nat, on: bool)
      requires Valid() && k < WIN
      modifies bits
      ensures Valid() && View() == old(View())[k := on]
    {
      hide Bit, WithBit;
      ghost var b := bits[k / 8];
      bits[k / 8] := WithBit(bits[k / 8], k % 8, on);
      forall j | 0 <= j < WIN
        ensures Bit(bits[j / 8], j % 8) == if j == k then on else Bit(old(bits[j / 8]), j % 8)
      {
        SameDay(j, k);
      }
    }

    static lemma SameDay(j: nat, k: nat)
      ensures j / 8 == k / 8 && j % 8 == k % 8 ==> j == k
    {
    }

    /** anchor, for this habit: the window is now `shift` days later.  Days that slide off are in the
        file still, and are counted. */
    method Anchor(shift: int)
      requires Valid()
      modifies this, bits
      ensures Valid() && View() == Slide(old(View()), shift)
      ensures outside == Min(CAP, old(outside) + Gone(old(View()), shift, WIN))
    {
      hide Bit, Gone, Moved;
      ghost var was := View();
      ghost var count := outside;
      var before := new bv8[WIN_BYTES];
      CopyTo(before);
      assert forall j :: 0 <= j < WIN ==> was[j] == Bit(before[j / 8], j % 8);
      ClearBits();
      GoneStart(was, shift);
      for j := 0 to WIN
        invariant Valid() && View() == Moved(was, shift, j)
        invariant outside == Min(CAP, count + Gone(was, shift, j))
        modifies this, bits
      {
        GoneStep(was, shift, j);
        var k := j - shift;
        if !Bit(before[j / 8], j % 8) { continue; }
        if 0 <= k < WIN { SetBit(k, true); }
        else if outside < CAP { outside := outside + 1; }
      }
      MovedAll(was, shift);
    }

    /** The new bitmap when the first j of the old bits have been moved. */
    static function Moved(m: Marks, shift: int, j: nat): Marks
      requires j <= WIN
    {
      seq(WIN, k => 0 <= k + shift < j && m[k + shift])
    }

    static lemma MovedAll(m: Marks, shift: int)
      ensures Moved(m, shift, WIN) == Slide(m, shift)
    {
    }

    static lemma GoneStart(m: Marks, shift: int)
      ensures Gone(m, shift, 0) == 0 && Moved(m, shift, 0) == seq(WIN, _ => false)
    {
    }

    static lemma GoneStep(m: Marks, shift: int, j: nat)
      requires j < WIN
      ensures Gone(m, shift, j + 1) == Gone(m, shift, j) + if m[j] && !(0 <= j - shift < WIN) then 1 else 0
      ensures Moved(m, shift, j + 1)
           == if m[j] && 0 <= j - shift < WIN then Moved(m, shift, j)[j - shift := true] else Moved(m, shift, j)
    {
    }

    method CopyTo(out: array<bv8>)
      requires Valid() && out.Length == WIN_BYTES && out != bits
      modifies out
      ensures forall j :: 0 <= j < WIN_BYTES ==> out[j] == bits[j]
    {
      var j := 0;
      while j < WIN_BYTES
        invariant 0 <= j <= WIN_BYTES && forall i :: 0 <= i < j ==> out[i] == bits[i]
      {
        out[j] := bits[j];
        j := j + 1;
      }
    }

    method ClearBits()
      requires Valid()
      modifies bits
      ensures Valid() && View() == seq(WIN, _ => false)
    {
      hide Bit;
      var j := 0;
      while j < WIN_BYTES
        invariant 0 <= j <= WIN_BYTES && forall i :: 0 <= i < j ==> bits[i] == 0
      {
        bits[j] := 0;
        j := j + 1;
      }
      forall k | 0 <= k < WIN ensures !View()[k] { NoBits(k % 8); }
    }

    // ---- the card --------------------------------------------------------------------------

    /** date_line, over every line of the file: a date in the window is marked, one outside it is
        counted, and a date twice in the window is one day. */
    method Load(start: int, text: string)
      requires Valid() && outside == 0 && View() == seq(WIN, _ => false)
      modifies this, bits
      ensures Valid() && View() == MarksOf(FileDates(text), start)
      ensures outside == Min(CAP, |Outside(FileDates(text), start)|)
    {
      hide ParseYmd, Bit, LinesFrom, Outside;
      var lines := EachLine(text, LINE_SIZE);
      assert lines[..0] == [];
      NoDates(start);
      for i := 0 to |lines|
        invariant Valid() && View() == MarksOf(Dates(lines[..i]), start)
        invariant outside == Min(CAP, |Outside(Dates(lines[..i]), start)|)
        modifies this, bits
      {
        assert lines[..i + 1][..i] == lines[..i] && lines[..i + 1][i] == lines[i];
        DateLine(start, lines[i], Dates(lines[..i]));
      }
      assert lines[..|lines|] == lines;
    }

    static lemma NoDates(start: int)
      ensures Outside([], start) == [] && MarksOf([], start) == seq(WIN, _ => false)
    {
    }

    method DateLine(start: int, line: string, ghost zs: seq<int>)
      requires Valid() && View() == MarksOf(zs, start) && outside == Min(CAP, |Outside(zs, start)|)
      modifies this, bits
      ensures Valid()
      ensures var all := zs + if ParseYmd(line).Some? then [ParseYmd(line).value] else [];
        View() == MarksOf(all, start) && outside == Min(CAP, |Outside(all, start)|)
    {
      hide ParseYmd, Bit;
      var z := ParseYmd(line);
      if z.None? {
        assert zs + [] == zs;
        return;
      }
      assert (zs + [z.value])[..|zs|] == zs;
      if InWindow(z.value, start) {
        var done := IsDoneOn(start, z.value);
        if !done { SetDoneOn(start, z.value, true); }
        MarkedMore(zs, z.value, start);
      } else {
        if outside < CAP { outside := outside + 1; }
        assert MarksOf(zs + [z.value], start) == MarksOf(zs, start);
      }
    }

    static lemma MarkedMore(zs: seq<int>, z: int, start: int)
      requires InWindow(z, start)
      ensures MarksOf(zs + [z], start) == MarksOf(zs, start)[z - start := true]
    {
    }

    /** keep_line over the file, and the sort: the dates outside the window, in order. */
    method Keep(start: int, text: string, keep: array<int>) returns (n: nat)
      requires keep.Length == KEEP_MAX
      modifies keep
      ensures n <= KEEP_MAX && keep[..n] == Habits.Sort(Kept(FileDates(text), start))
    {
      n := Collect(start, text, keep);
      ghost var was := keep[..n];
      assert was[..0] == [];
      var a := 0;
      while a < n
        invariant 0 <= a <= n
        invariant keep[..a] == Habits.Sort(was[..a])
        invariant forall k :: a <= k < n ==> keep[k] == was[k]
      {
        assert was[..a + 1][..a] == was[..a];
        Sink(keep, a);
        a := a + 1;
      }
      assert was[..n] == was;
    }

    method Collect(start: int, text: string, keep: array<int>) returns (n: nat)
      requires keep.Length == KEEP_MAX
      modifies keep
      ensures n <= KEEP_MAX && keep[..n] == Kept(FileDates(text), start)
    {
      hide ParseYmd, LinesFrom, Kept;
      n := 0;
      var lines := EachLine(text, LINE_SIZE);
      assert lines[..0] == [] && Kept([], start) == [] by { KeptNone(start); }
      for i := 0 to |lines|
        invariant n <= KEEP_MAX && keep[..n] == Kept(Dates(lines[..i]), start)
      {
        assert lines[..i + 1][..i] == lines[..i];
        var z := ParseYmd(lines[i]);
        if z.None? {
          assert Dates(lines[..i + 1]) == Dates(lines[..i]) + [] == Dates(lines[..i]);
          continue;
        }
        assert Dates(lines[..i + 1]) == Dates(lines[..i]) + [z.value];
        KeptMore(Dates(lines[..i]), z.value, start);
        if InWindow(z.value, start) || n >= KEEP_MAX { continue; }
        keep[n] := z.value;
        n := n + 1;
      }
      assert lines[..|lines|] == lines;
    }

    static lemma KeptNone(start: int)
      ensures Kept([], start) == []
    {
    }

    static lemma KeptMore(zs: seq<int>, z: int, start: int)
      ensures var kept := Kept(zs, start);
        Kept(zs + [z], start) == if InWindow(z, start) || |kept| >= KEEP_MAX then kept else kept + [z]
    {
      assert (zs + [z])[..|zs|] == zs;
    }

    /** One pass of the insertion sort, by swaps. */
    static method Sink(keep: array<int>, a: nat)
      requires a < keep.Length
      modifies keep
      ensures keep[..a + 1] == Place(old(keep[..a]), old(keep[a]))
      ensures forall k :: a < k < keep.Length ==> keep[k] == old(keep[k])
    {
      ghost var s, x := keep[..a], keep[a];
      var b := a;
      while b > 0 && keep[b - 1] > keep[b]
        invariant 0 <= b <= a && keep[b] == x
        invariant forall k :: 0 <= k < b ==> keep[k] == s[k]
        invariant forall k :: b < k <= a ==> keep[k] == s[k - 1] && keep[k] > x
        invariant forall k :: a < k < keep.Length ==> keep[k] == old(keep[k])
      {
        keep[b], keep[b - 1] := keep[b - 1], keep[b];
        b := b - 1;
      }
      Sunk(s, keep[..a + 1], x, b);
    }

    static lemma Sunk(s: seq<int>, r: seq<int>, x: int, b: nat)
      requires b <= |s| && |r| == |s| + 1 && r[b] == x
      requires forall k :: 0 <= k < b ==> r[k] == s[k]
      requires forall k :: b < k <= |s| ==> r[k] == s[k - 1] && r[k] > x
      requires b == 0 || s[b - 1] <= x
      ensures r == Place(s, x)
    {
      hide Place;
      assert r == s[..b] + [x] + s[b..];
      forall k | b <= k < |s| ensures s[k] > x { assert r[k + 1] == s[k]; }
      PlaceAt(s, x, b);
    }

    static lemma {:induction false} PlaceAt(s: seq<int>, x: int, b: nat)
      requires b <= |s| && (b == 0 || s[b - 1] <= x) && forall k :: b <= k < |s| ==> s[k] > x
      ensures Place(s, x) == s[..b] + [x] + s[b..]
    {
      if b == |s| {
        assert s[..b] == s;
      } else {
        var front := s[..|s| - 1];
        PlaceAt(front, x, b);
        assert front[b..] + [s[|s| - 1]] == s[b..] && front[..b] == s[..b];
      }
    }

    /** save_log: the bytes handed to safe_write, in order. */
    method SaveLog(start: int, text: string) returns (saved: string)
      requires Valid() && forall z :: InWindow(z, start) ==> Writable(z)
      ensures AllWritable(SavedDays(FileDates(text), View(), start))
      ensures saved == DayLines(SavedDays(FileDates(text), View(), start))
    {
      hide Writable, AllWritable, Ymd, FileDates, DayLines, DaysOf, Bit, Kept, Habits.Sort, Leading;
      var keep := new int[KEEP_MAX];
      var n := Keep(start, text, keep);
      ghost var kept := keep[..n];
      PartsAreWritable(text, View(), start);
      ghost var at := Leading(kept, start);
      var a, before := WriteBefore(keep, n, start);
      var window := WriteWindow(start);
      var after := WriteFrom(keep, a, n);
      DayLinesAppend(kept[..at], DaysOf(View(), start));
      DayLinesAppend(kept[..at] + DaysOf(View(), start), kept[at..]);
      assert keep[a..n] == kept[at..];
      saved := before + window + after;
    }

    /** The dates kept that are before the window. */
    static method WriteBefore(keep: array<int>, n: nat, start: int) returns (a: nat, out: string)
      requires n <= keep.Length && AllWritable(keep[..n])
      ensures a == Leading(keep[..n], start) && AllWritable(keep[..a])
      ensures out == DayLines(keep[..n][..a])
    {
      hide Writable, Ymd;
      ghost var kept := keep[..n];
      out, a := "", 0;
      while a < n && keep[a] < start
        invariant 0 <= a <= n && a <= Leading(kept, start)
        invariant AllWritable(kept[..a]) && out == DayLines(kept[..a])
      {
        LeadingPast(kept, start, a);
        assert kept[..a + 1][..a] == kept[..a] && kept[a] == keep[a];
        out := out + Ymd(keep[a]) + "\n";
        a := a + 1;
      }
      LeadingEnds(kept, start, a);
      assert kept[..a] == keep[..a];
    }

    method WriteWindow(start: int) returns (out: string)
      requires Valid() && AllWritable(DaysOf(View(), start))
      ensures out == DayLines(DaysOf(View(), start))
    {
      hide Writable, AllWritable, Ymd, Bit, DaysOf, DayLines;
      ghost var m := View();
      out := "";
      NothingWritten(m, start);
      for k := 0 to WIN
        invariant AllWritable(DaysOf(m[..k], start)) && out == DayLines(DaysOf(m[..k], start))
      {
        DaysOfStep(m, start, k);
        if Bit(bits[k / 8], k % 8) {
          DayLinesStep(DaysOf(m[..k], start), start + k);
          out := out + Ymd(start + k) + "\n";
        }
      }
      assert m[..WIN] == m;
    }

    static lemma NothingWritten(m: seq<bool>, start: int)
      ensures DaysOf(m[..0], start) == [] && AllWritable([]) && DayLines([]) == ""
    {
    }

    static lemma DaysOfStep(m: seq<bool>, start: int, k: nat)
      requires k < |m| && AllWritable(DaysOf(m, start))
      ensures DaysOf(m[..k + 1], start) == if m[k] then DaysOf(m[..k], start) + [start + k] else DaysOf(m[..k], start)
      ensures AllWritable(DaysOf(m[..k + 1], start)) && (m[k] ==> Writable(start + k))
    {
      hide Writable;
      assert m[..k + 1][..k] == m[..k];
      DaysOfPrefix(m, start, k + 1);
      var d := DaysOf(m[..k + 1], start);
      assert forall i :: 0 <= i < |d| ==> d[i] == DaysOf(m, start)[i];
      assert m[k] ==> d[|d| - 1] == start + k;
    }

    static lemma DayLinesStep(zs: seq<int>, z: int)
      requires AllWritable(zs) && Writable(z) && AllWritable(zs + [z])
      ensures DayLines(zs + [z]) == DayLines(zs) + Ymd(z) + "\n"
    {
      assert (zs + [z])[..|zs|] == zs;
    }

    static lemma {:induction false} DaysOfPrefix(m: seq<bool>, start: int, k: nat)
      requires k <= |m|
      ensures DaysOf(m[..k], start) <= DaysOf(m, start)
    {
      if k == |m| {
        assert m[..k] == m;
      } else {
        DaysOfPrefix(m[..|m| - 1], start, k);
        assert m[..|m| - 1][..k] == m[..k];
      }
    }

    /** The rest of them. */
    static method WriteFrom(keep: array<int>, from: nat, n: nat) returns (out: string)
      requires from <= n <= keep.Length && AllWritable(keep[from..n])
      ensures out == DayLines(keep[from..n])
    {
      hide Writable, Ymd;
      ghost var rest := keep[from..n];
      out := "";
      var a := from;
      while a < n
        invariant from <= a <= n
        invariant AllWritable(rest[..a - from]) && out == DayLines(rest[..a - from])
      {
        assert rest[..a + 1 - from][..a - from] == rest[..a - from] && rest[a - from] == keep[a];
        out := out + Ymd(keep[a]) + "\n";
        a := a + 1;
      }
      assert rest[..n - from] == rest;
    }

    static lemma LeadingPast(s: seq<int>, x: int, a: nat)
      requires a < |s| && a <= Leading(s, x) && s[a] < x
      ensures a < Leading(s, x)
    {
    }

    static lemma LeadingEnds(s: seq<int>, x: int, a: nat)
      requires a <= Leading(s, x) && a <= |s| && (a < |s| ==> s[a] >= x)
      ensures a == Leading(s, x)
    {
    }

    static lemma PartsAreWritable(text: string, m: Marks, start: int)
      requires forall z :: InWindow(z, start) ==> Writable(z)
      ensures var kept := Habits.Sort(Kept(FileDates(text), start)); var a := Leading(kept, start);
        AllWritable(kept) && AllWritable(kept[..a]) && AllWritable(kept[a..]) && AllWritable(DaysOf(m, start))
    {
      hide Writable, FileDates, Kept, Leading, DaysOf, Habits.Sort;
      var zs := FileDates(text);
      KeptHas(zs, start);
      DaysOfHas(m, start);
      FileIsWritable(text);
      SortOrders(Kept(zs, start));
      var kept, d := Habits.Sort(Kept(zs, start)), DaysOf(m, start);
      forall i | 0 <= i < |kept| ensures Writable(kept[i]) { assert kept[i] in multiset(kept); }
      forall i | 0 <= i < |d| ensures Writable(d[i]) { assert d[i] in d && InWindow(d[i], start); }
    }

    /** toggle: the day is flipped and the log written; when the card says no it is flipped back. */
    method Toggle(clockOk: bool, today: int, start: int, z: int, text: string, saves: bool)
      returns (r: int, after: string)
      requires Valid() && forall z :: InWindow(z, start) ==> Writable(z)
      modifies bits
      ensures Valid()
      ensures r == if clockOk && z <= today && InWindow(z, start) && saves then 0 else -1
      ensures View() == if r == 0 then SetDone(old(View()), start, z, !IsDone(old(View()), start, z)) else old(View())
      ensures r == 0 ==> AllWritable(SavedDays(FileDates(text), View(), start))
                         && after == DayLines(SavedDays(FileDates(text), View(), start))
      ensures r != 0 ==> after == text
    {
      hide Writable, AllWritable, SavedDays, FileDates, DayLines, Bit;
      if !clockOk || z > today || !InWindow(z, start) { return -1, text; }
      ghost var was := View();
      var done := IsDoneOn(start, z);
      SetDoneOn(start, z, !done);
      if !saves {
        done := IsDoneOn(start, z);
        SetDoneOn(start, z, !done);
        assert View() == was;
        return -1, text;
      }
      after := SaveLog(start, text);
      r := 0;
    }

    // ---- numbers ---------------------------------------------------------------------------

    /** The days in a row that end on z, and were done. */
    method RunBack(start: int, z: int) returns (n: nat)
      requires Valid()
      ensures IsRun(View(), start, z, n)
    {
      hide Bit;
      n := 0;
      var done := IsDoneOn(start, z);
      while done
        invariant AllDone(View(), start, z, n) && done == IsDone(View(), start, z - n)
        decreases if z - n >= start then z - n - start + 1 else 0, done
      {
        n := n + 1;
        done := IsDoneOn(start, z - n);
      }
    }

    /** Today counts once it is done; until then yesterday's streak is still alive. */
    method Streak(start: int, today: int) returns (n: nat)
      requires Valid()
      ensures if IsDone(View(), start, today) then n > 0 && IsRun(View(), start, today, n)
              else IsRun(View(), start, today - 1, n)
    {
      hide Bit;
      var done := IsDoneOn(start, today);
      n := RunBack(start, if done then today else today - 1);
    }

    /** The longest run in the window: there is one that long, and none longer. */
    method BestStreak(start: int) returns (best: nat)
      requires Valid()
      ensures exists z :: AllDone(View(), start, z, best)
      ensures forall z, n: nat :: n > 0 && AllDone(View(), start, z, n) ==> n <= best
    {
      hide Bit, AllDone, IsDone;
      best := 0;
      var cur := 0;
      ghost var m, at := View(), start - 1;
      NoRun(m, start, at);
      for k := 0 to WIN
        invariant 0 <= cur <= best && AllDone(m, start, at, best)
        invariant IsRun(m, start, start + k - 1, cur)
        invariant forall z, n: nat :: n > 0 && z < start + k && AllDone(m, start, z, n) ==> n <= best
      {
        var done := Bit(bits[k / 8], k % 8);
        assert done == IsDone(m, start, start + k) by { DoneAt(m, start, k); }
        RunStep(m, start, start + k, cur);
        RunsUpTo(m, start, start + k, if done then cur + 1 else 0);
        if done {
          cur := cur + 1;
          if cur > best {
            best := cur;
            at := start + k;
          }
        } else {
          cur := 0;
        }
      }
      forall z, n: nat | n > 0 && AllDone(m, start, z, n) ensures n <= best {
        if z >= start + WIN { NoneAfter(m, start, z, n); }
      }
      assert AllDone(View(), start, at, best);
    }

    static lemma DoneAt(m: Marks, start: int, k: nat)
      requires k < WIN
      ensures IsDone(m, start, start + k) == m[k]
    {
    }

    static lemma NoRun(m: Marks, start: int, z: int)
      requires z == start - 1
      ensures AllDone(m, start, z, 0) && IsRun(m, start, z, 0)
      ensures forall t, n: nat :: n > 0 && t <= z ==> !AllDone(m, start, t, n)
    {
      forall t, n: nat | n > 0 && t <= z ensures !AllDone(m, start, t, n) { assert !IsDone(m, start, t); }
    }

    static lemma NoneAfter(m: Marks, start: int, z: int, n: nat)
      requires n > 0 && z >= start + WIN
      ensures !AllDone(m, start, z, n)
    {
      assert !IsDone(m, start, z);
    }

    static lemma RunStep(m: Marks, start: int, z: int, n: nat)
      requires IsRun(m, start, z - 1, n)
      ensures IsRun(m, start, z, if IsDone(m, start, z) then n + 1 else 0)
    {
    }

    /** No run ends on a day that is longer than the run there. */
    static lemma RunsUpTo(m: Marks, start: int, z: int, n: nat)
      requires IsRun(m, start, z, n)
      ensures forall k: nat :: AllDone(m, start, z, k) ==> k <= n
    {
      forall k: nat | k > n ensures !AllDone(m, start, z, k) { assert !IsDone(m, start, z - n); }
    }

    method TotalDone() returns (t: nat)
      requires Valid()
      ensures t == Total(View(), outside)
    {
      hide Bit;
      t := outside;
      ghost var m := View();
      assert m[..0] == [];
      for k := 0 to WIN
        invariant t == outside + Count(m[..k])
      {
        assert m[..k + 1][..k] == m[..k];
        if Bit(bits[k / 8], k % 8) { t := t + 1; }
      }
      assert m[..WIN] == m;
    }
  }
}
