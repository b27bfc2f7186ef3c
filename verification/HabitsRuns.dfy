/** A habit's history over any run of marks, midnights and restarts: apps/habits.c, lines 165-205, 235,
    293-302, 325-360, 457-466, 1066-1088 and 1112-1124. */
module HabitsRuns {
  import opened Str
  import opened Habits

  /** One habit and its file, with every day that was ever marked and not unmarked. */
  datatype World = World(text: string, m: Marks, outside: nat, today: int, marked: set<int>)

  function Start(today: int): int { today - (WIN - 1) }

  /** The window is today and the 370 days before it. */
  lemma WindowEndsToday(today: int, z: int)
    ensures InWindow(z, Start(today)) <==> today - 370 <= z <= today
  {
  }

  datatype Input = Toggle(z: int, saves: bool) | Midnight(today: int) | Reopen(today: int)

  /** What the clock and the card may do: the date does not go back and stays one the file can say,
      and the dates outside the window are few enough to be kept. */
  ghost predicate Can(w: World, e: Input) {
    match e
    case Toggle(_, _) => |Outside(FileDates(w.text), Start(w.today))| <= KEEP_MAX
    case Midnight(today) => w.today <= today && Dated(today)
    case Reopen(today) => w.today <= today && Dated(today)
  }

  ghost predicate Dated(today: int) {
    forall z :: InWindow(z, Start(today)) ==> Writable(z)
  }

  function Flip(marked: set<int>, z: int): set<int> {
    if z in marked then marked - {z} else marked + {z}
  }

  lemma WrittenIsWritable(w: World, m: Marks)
    requires Dated(w.today)
    ensures AllWritable(SavedDays(FileDates(w.text), m, Start(w.today)))
  {
    hide SavedDays, FileDates, Kept, Writable, DaysOf, Dated;
    var zs, start := FileDates(w.text), Start(w.today);
    SavedInOrder(zs, m, start);
    KeptHas(zs, start);
    DaysOfHas(m, start);
    FileIsWritable(w.text);
    var s := SavedDays(zs, m, start);
    forall i | 0 <= i < |s| ensures Writable(s[i]) {
      assert s[i] in multiset(s);
      if s[i] in multiset(Kept(zs, start)) {
        assert s[i] in zs;
      } else {
        assert s[i] in multiset(DaysOf(m, start));
        assert s[i] in DaysOf(m, start);
        DatedHas(w.today, s[i]);
      }
    }
  }

  lemma DatedHas(today: int, z: int)
    requires Dated(today) && InWindow(z, Start(today))
    ensures Writable(z)
  {
    hide Writable;
  }

  ghost function Step(w: World, e: Input): World
    requires Dated(w.today)
  {
    match e
    case Toggle(z, saves) =>
      var start := Start(w.today);
      if z > w.today || !InWindow(z, start) || !saves then w
      else
        var m := SetDone(w.m, start, z, !IsDone(w.m, start, z));
        WrittenIsWritable(w, m);
        w.(text := DayLines(SavedDays(FileDates(w.text), m, start)), m := m, marked := Flip(w.marked, z))
    case Midnight(today) =>
      var shift := Start(today) - Start(w.today);
      w.(m := Slide(w.m, shift), outside := Min(CAP, w.outside + Gone(w.m, shift, WIN)), today := today)
    case Reopen(today) =>
      var zs := FileDates(w.text);
      w.(m := MarksOf(zs, Start(today)), outside := Min(CAP, |Outside(zs, Start(today))|), today := today)
  }

  /** The program just opened on a file. */
  function Opened(text: string, today: int): World {
    var zs := FileDates(text);
    World(text, MarksOf(zs, Start(today)), Min(CAP, |Outside(zs, Start(today))|), today, set z | z in zs)
  }

  ghost predicate Inv(w: World) {
    var zs, start := FileDates(w.text), Start(w.today);
    && Dated(w.today)
    && Ascending(zs)
    && (forall z :: z in zs <==> z in w.marked)
    && (forall z :: z in zs ==> z <= w.today)
    && w.m == MarksOf(zs, start)
    && w.outside == Min(CAP, |Outside(zs, start)|)
  }

  ghost predicate Lawful(w: World, es: seq<Input>)
    requires Dated(w.today)
    decreases |es|
  {
    es == [] || (Can(w, es[0]) && Lawful(Step(w, es[0]), es[1..]))
  }

  ghost function Run(w: World, es: seq<Input>): World
    requires Dated(w.today) && Lawful(w, es)
    decreases |es|
  {
    if es == [] then w else Run(Step(w, es[0]), es[1..])
  }

  // ---- each step ---------------------------------------------------------------------------

  /** Strictly ascending dates are determined by which they are. */
  lemma {:induction false} AscendingIsUnique(a: seq<int>, b: seq<int>)
    requires Ascending(a) && Ascending(b) && forall z :: z in a <==> z in b
    ensures a == b
  {
    if a == [] {
      NonEmptyHas(b);
    } else {
      assert a[0] in a && a[0] in b;
      var x, y := a[|a| - 1], b[|b| - 1];
      assert x in a && y in b && x in b && y in a;
      assert x == y;
      var a1, b1 := a[..|a| - 1], b[..|b| - 1];
      forall z ensures z in a1 <==> z in b1 {
        assert z in a1 <==> z in a && z != x by { FrontHas(a, z); }
        assert z in b1 <==> z in b && z != y by { FrontHas(b, z); }
      }
      AscendingIsUnique(a1, b1);
      assert a == a1 + [x] && b == b1 + [y];
    }
  }

  lemma NonEmptyHas(b: seq<int>)
    ensures b != [] ==> exists z :: z in b
  {
    if b != [] {
      var z := b[0];
      assert z in b;
    }
  }

  lemma FrontHas(a: seq<int>, z: int)
    requires Ascending(a) && a != []
    ensures z in a[..|a| - 1] <==> z in a && z != a[|a| - 1]
  {
    var front := a[..|a| - 1];
    if z in front {
      var i :| 0 <= i < |front| && front[i] == z;
      assert a[i] == z;
    }
    if z in a && z != a[|a| - 1] {
      var i :| 0 <= i < |a| && a[i] == z;
      assert front[i] == z;
    }
  }

  /** The bitmap and the count of days outside are the file's dates, each counted once. */
  lemma MarksCount(zs: seq<int>, start: int)
    requires Ascending(zs)
    ensures DaysOf(MarksOf(zs, start), start) == Inside(zs, start)
    ensures Count(MarksOf(zs, start)) + |Outside(zs, start)| == |zs|
  {
    hide Inside, Outside, DaysOf, Count, Ascending;
    InsideHas(zs, start);
    DaysOfHas(MarksOf(zs, start), start);
    AscendingIsUnique(DaysOf(MarksOf(zs, start), start), Inside(zs, start));
  }

  lemma ToggleKeeps(w: World, z: int)
    requires Inv(w) && Can(w, Toggle(z, true)) && z <= w.today && InWindow(z, Start(w.today))
    ensures Inv(Step(w, Toggle(z, true)))
  {
    hide FileDates, SavedDays, Outside, Writable, Dated, Ascending, DayLines, AllWritable;
    var zs, start := FileDates(w.text), Start(w.today);
    var m := SetDone(w.m, start, z, !IsDone(w.m, start, z));
    var saved := SavedDays(zs, m, start);
    WrittenIsWritable(w, m);
    SavedHas(zs, m, start);
    SavedAscends(zs, m, start);
    WrittenDaysAreRead(saved);
    var v := Step(w, Toggle(z, true));
    assert FileDates(v.text) == saved;
    forall x ensures x in saved <==> x in v.marked { ToggledDay(w, z, x); }
    assert v.m == MarksOf(saved, start) by {
      forall k | 0 <= k < WIN ensures v.m[k] == MarksOf(saved, start)[k] {
        assert v.m[k] == IsDone(m, start, start + k);
      }
    }
    assert Outside(saved, start) == Outside(zs, start) by { OutsideSame(zs, saved, start); }
  }

  lemma ToggledDay(w: World, z: int, x: int)
    requires Inv(w) && InWindow(z, Start(w.today))
    ensures var start := Start(w.today); var m := SetDone(w.m, start, z, !IsDone(w.m, start, z));
      ((x in FileDates(w.text) && !InWindow(x, start)) || IsDone(m, start, x)) <==> x in Flip(w.marked, z)
  {
    hide FileDates, Writable, Outside, Ascending;
  }

  lemma OutsideSame(a: seq<int>, b: seq<int>, start: int)
    requires Ascending(a) && Ascending(b)
    requires forall z :: !InWindow(z, start) ==> (z in a <==> z in b)
    ensures Outside(a, start) == Outside(b, start)
  {
    hide Outside, Ascending;
    OutsideHas(a, start);
    OutsideHas(b, start);
    AscendingIsUnique(Outside(a, start), Outside(b, start));
  }

  lemma MidnightKeeps(w: World, today: int)
    requires Inv(w) && Can(w, Midnight(today))
    ensures Inv(Step(w, Midnight(today)))
  {
    hide FileDates, Outside, Writable, Dated, Ascending, Count, Gone;
    var zs, start, later := FileDates(w.text), Start(w.today), Start(today);
    var v := Step(w, Midnight(today));
    forall k | 0 <= k < WIN ensures v.m[k] == MarksOf(zs, later)[k] {
      assert later + k in zs ==> later + k <= w.today;
      SlideAt(zs, start, later, later + k);
    }
    assert v.m == MarksOf(zs, later);
    MarksCount(zs, start);
    MarksCount(zs, later);
    SlideCounts(w.m, later - start);
  }

  lemma StepKeeps(w: World, e: Input)
    requires Inv(w) && Can(w, e)
    ensures Inv(Step(w, e))
  {
    hide FileDates, SavedDays, Outside, Writable, Dated, Ascending, DayLines, AllWritable, MarksOf, Slide, Gone;
    match e
    case Toggle(z, saves) => if saves && z <= w.today && InWindow(z, Start(w.today)) { ToggleKeeps(w, z); }
    case Midnight(today) => MidnightKeeps(w, today);
    case Reopen(today) =>
  }

  lemma {:induction false} RunKeeps(w: World, es: seq<Input>)
    requires Inv(w) && Lawful(w, es)
    ensures Inv(Run(w, es))
    decreases |es|
  {
    hide Inv, Step, Can, Dated;
    if es != [] {
      assert Dated(w.today) by { InvDated(w); }
      StepKeeps(w, es[0]);
      InvDated(Step(w, es[0]));
      RunKeeps(Step(w, es[0]), es[1..]);
    }
  }

  lemma InvDated(w: World)
    requires Inv(w)
    ensures Dated(w.today)
  {
  }

  /** Nothing marked is ever lost, and nothing is remembered that was not marked: after any run of
      marks (saved or refused by the card), midnights and restarts, the file's dates are exactly the
      days marked over all time, in ascending order; memory has exactly those in the window; and the
      total shown is their number, up to the cap on the count of days outside. */
  lemma HistoryIsKept(text: string, today: int, es: seq<Input>)
    requires Dated(today) && Ascending(FileDates(text)) && forall z :: z in FileDates(text) ==> z <= today
    requires Lawful(Opened(text, today), es)
    ensures var v := Run(Opened(text, today), es); var zs := FileDates(v.text);
      Ascending(zs) && (forall z :: z in zs <==> z in v.marked)
      && (forall z :: IsDone(v.m, Start(v.today), z) <==> z in v.marked && InWindow(z, Start(v.today)))
      && (|Outside(zs, Start(v.today))| <= CAP ==> Total(v.m, v.outside) == |zs|)
  {
    hide FileDates, Outside, Writable, Dated, Ascending, Count;
    var w := Opened(text, today);
    assert Inv(w);
    RunKeeps(w, es);
    var v := Run(w, es);
    MarksCount(FileDates(v.text), Start(v.today));
  }

  /** A file put out of order by hand is put in order by the first mark saved. */
  lemma AnyFileIsSorted(w: World, z: int)
    requires Dated(w.today) && z <= w.today && InWindow(z, Start(w.today))
    ensures Ordered(FileDates(Step(w, Toggle(z, true)).text))
  {
    hide FileDates, SavedDays, Writable, Dated, DayLines, AllWritable, Ordered;
    var start := Start(w.today);
    var m := SetDone(w.m, start, z, !IsDone(w.m, start, z));
    WrittenIsWritable(w, m);
    WrittenDaysAreRead(SavedDays(FileDates(w.text), m, start));
    SavedInOrder(FileDates(w.text), m, start);
  }
}
