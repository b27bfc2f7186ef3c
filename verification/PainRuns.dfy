/** What pain_load and pain_save do to the whole log, and every run of changes: apps/pain_log.h. */
module PainRuns {
  import opened Common
  import opened Str
  import opened DateTime
  import opened PainText
  import opened PainLog

  // ---- the entries of a file ---------------------------------------------------------------

  /** The entry of a line, if it is not blank and can be read. */
  function EntryOf(line: string): seq<Entry> {
    if line != "" && Parse(line).Some? then [Parse(line).value] else []
  }

  function Entries(lines: seq<string>): seq<Entry> {
    if lines == [] then [] else Entries(lines[..|lines| - 1]) + EntryOf(lines[|lines| - 1])
  }

  function OnCard(card: Option<string>): seq<Entry> {
    if card.None? then [] else Entries(Lines(card.value))
  }

  predicate Readable(es: seq<Entry>) {
    forall i :: 0 <= i < |es| ==> ValidEntry(es[i]) && es[i].seqNo < 1_000_000_000
  }

  lemma {:induction false} EntriesReadable(lines: seq<string>)
    ensures Readable(Entries(lines))
  {
    if lines != [] {
      EntriesReadable(lines[..|lines| - 1]);
      ParsedIsValid(lines[|lines| - 1]);
    }
  }

  lemma {:induction false} EntriesAppend(a: seq<string>, b: seq<string>)
    ensures Entries(a + b) == Entries(a) + Entries(b)
  {
    hide EntryOf;
    if b == [] {
      assert a + b == a;
    } else {
      EntriesAppend(a, b[..|b| - 1]);
      assert (a + b)[..|a + b| - 1] == a + b[..|b| - 1];
    }
  }

  // ---- loading -----------------------------------------------------------------------------

  /** Sorted by key, entries with the same key in the order they came. */
  function SortAll(ts: seq<Entry>): seq<Entry> {
    if ts == [] then [] else Insert(SortAll(ts[..|ts| - 1]), ts[|ts| - 1])
  }

  lemma {:induction false} SortAllSorts(ts: seq<Entry>)
    ensures Sorted(SortAll(ts)) && multiset(SortAll(ts)) == multiset(ts) && |SortAll(ts)| == |ts|
  {
    hide Cmp, Insert, Sorted;
    if ts == [] {
      assert Sorted(SortAll(ts)) by { NoneSorted(); }
    } else {
      var init := ts[..|ts| - 1];
      SortAllSorts(init);
      InsertSorted(SortAll(init), ts[|ts| - 1]);
      InsertContents(SortAll(init), ts[|ts| - 1]);
      assert ts == init + [ts[|ts| - 1]];
      SameSize(SortAll(ts), ts);
    }
  }

  lemma NoneSorted()
    ensures Sorted([])
  {
  }

  function Newest(s: seq<Entry>, max: nat): seq<Entry> {
    if |s| <= max then s else s[|s| - max..]
  }

  lemma NewestTakesOlder(s: seq<Entry>, max: nat, t: Entry)
    requires Sorted(s) && |s| >= max >= 1 && !Leq(Newest(s, max)[0], t)
    ensures Newest(Insert(s, t), max) == Newest(s, max)
  {
    hide Cmp;
    var k, u := |s| - max, Upper(s, KeyOf(t));
    assert u <= k;
    assert Insert(s, t)[k + 1..] == s[k..];
  }

  lemma NewestTakesNewer(s: seq<Entry>, max: nat, t: Entry)
    requires Sorted(s) && |s| >= max >= 1 && Leq(Newest(s, max)[0], t)
    ensures Newest(Insert(s, t), max) == Insert(RemoveAt(Newest(s, max), 0), t)
  {
    hide Cmp, Insert, Sorted;
    var k, u := |s| - max, Upper(s, KeyOf(t));
    UpperSplits(s, KeyOf(t));
    InsertContents(s, t);
    SameSize(Insert(s, t), s + [t]);
    CmpAntisymmetric(KeyOf(s[k]), KeyOf(t));
    assert u > k;
    InsertOfTail(s, t, k + 1);
    assert RemoveAt(Newest(s, max), 0) == s[k + 1..];
  }

  lemma InsertOfTail(s: seq<Entry>, t: Entry, k: nat)
    requires Sorted(s) && k <= Upper(s, KeyOf(t))
    ensures Insert(s, t)[k..] == Insert(s[k..], t)
  {
    hide Cmp, Sorted;
    UpperOfTail(s, KeyOf(t), k);
    var a, b := Insert(s, t)[k..], Insert(s[k..], t);
    forall i | 0 <= i < |a| ensures a[i] == b[i] {
    }
  }

  lemma UpperOfTail(s: seq<Entry>, key: Key, k: nat)
    requires Sorted(s) && k <= Upper(s, key)
    ensures Upper(s[k..], key) == Upper(s, key) - k
  {
    hide Cmp;
    UpperSplits(s, key);
    forall i | Upper(s, key) <= i < |s| ensures Cmp(KeyOf(s[i]), key) > 0 {
      CmpAntisymmetric(KeyOf(s[i]), key);
    }
    UpperUnique(s[k..], key, Upper(s, key) - k);
  }

  predicate SeqsBelow(es: seq<Entry>, next: nat) {
    forall i :: 0 <= i < |es| ==> es[i].seqNo < next
  }

  lemma TakeEntryNewest(l: Log, max: nat, ts: seq<Entry>, t: Entry)
    requires max >= 2 && l.es == Newest(SortAll(ts), max) && l.older == |ts| - |l.es| && SeqsBelow(ts, l.nextSeq)
    ensures var m := TakeEntry(l, max, t);
      m.es == Newest(SortAll(ts + [t]), max) && m.older == |ts| + 1 - |m.es| && SeqsBelow(ts + [t], m.nextSeq)
      && m.nextSeq >= l.nextSeq && m.floor == l.floor
  {
    hide Cmp, Insert, SortAll;
    SortAllSorts(ts);
    SortAllStep(ts, t);
    SortAllSorts(ts + [t]);
    if |ts| >= max {
      if Leq(l.es[0], t) { NewestTakesNewer(SortAll(ts), max, t); } else { NewestTakesOlder(SortAll(ts), max, t); }
    }
  }

  lemma SortAllStep(ts: seq<Entry>, t: Entry)
    ensures SortAll(ts + [t]) == Insert(SortAll(ts), t)
  {
    assert (ts + [t])[..|ts|] == ts;
  }

  predicate Taken(l: Log, max: nat, ts: seq<Entry>) {
    l.es == Newest(SortAll(ts), max) && l.older == |ts| - |l.es| && SeqsBelow(ts, l.nextSeq)
    && l.nextSeq >= 1 && l.floor == None
  }

  lemma {:induction false} TakeLinesNewest(max: nat, lines: seq<string>)
    requires max >= 2
    ensures Taken(TakeLines(EMPTY, max, lines), max, Entries(lines))
  {
    hide EntryOf, TakeLine;
    if lines != [] {
      var init, line := lines[..|lines| - 1], lines[|lines| - 1];
      TakeLinesNewest(max, init);
      TakeLineNewest(TakeLines(EMPTY, max, init), max, Entries(init), line);
    }
  }

  lemma TakeLineNewest(l: Log, max: nat, ts: seq<Entry>, line: string)
    requires max >= 2 && Taken(l, max, ts)
    ensures Taken(TakeLine(l, max, line), max, ts + EntryOf(line))
  {
    hide Parse, TakeEntry, SortAll, Newest;
    if line != "" && Parse(line).Some? {
      TakeEntryNewest(l, max, ts, Parse(line).value);
    } else {
      assert ts + [] == ts;
    }
  }

  function Below(es: seq<Entry>, floor: Option<Key>): seq<Entry> {
    if es == [] then []
    else Below(es[..|es| - 1], floor) + if BelowKey(es[|es| - 1], floor) then [es[|es| - 1]] else []
  }

  lemma {:induction false} BelowCount(es: seq<Entry>, floor: Option<Key>, x: Entry)
    ensures multiset(Below(es, floor))[x] == if BelowKey(x, floor) then multiset(es)[x] else 0
  {
    hide BelowKey;
    if es != [] {
      BelowCount(es[..|es| - 1], floor, x);
      assert es == es[..|es| - 1] + [es[|es| - 1]];
    }
  }

  lemma {:induction false} BelowAppend(a: seq<Entry>, b: seq<Entry>, floor: Option<Key>)
    ensures Below(a + b, floor) == Below(a, floor) + Below(b, floor)
  {
    hide BelowKey;
    if b == [] {
      assert a + b == a;
    } else {
      BelowAppend(a, b[..|b| - 1], floor);
      assert (a + b)[..|a + b| - 1] == a + b[..|b| - 1];
    }
  }

  lemma {:induction false} BelowAll(es: seq<Entry>, floor: Option<Key>)
    ensures (forall i :: 0 <= i < |es| ==> BelowKey(es[i], floor)) ==> Below(es, floor) == es
  {
    hide BelowKey;
    if es != [] {
      BelowAll(es[..|es| - 1], floor);
      assert es == es[..|es| - 1] + [es[|es| - 1]];
    }
  }

  lemma {:induction false} BelowNone(es: seq<Entry>, floor: Option<Key>)
    ensures (forall i :: 0 <= i < |es| ==> !BelowKey(es[i], floor)) ==> Below(es, floor) == []
  {
    hide BelowKey;
    if es != [] {
      BelowNone(es[..|es| - 1], floor);
    }
  }

  lemma BelowOfSame(a: seq<Entry>, b: seq<Entry>, floor: Option<Key>)
    requires multiset(a) == multiset(b)
    ensures multiset(Below(a, floor)) == multiset(Below(b, floor))
  {
    forall x: Entry ensures multiset(Below(a, floor))[x] == multiset(Below(b, floor))[x] {
      BelowCount(a, floor, x);
      BelowCount(b, floor, x);
    }
  }

  /** Whatever the order of its lines, loading a file keeps the `max` newest entries sorted, counts
      the ones it leaves out, and hands out seqs above every one it read. */
  lemma LoadKeepsNewest(max: nat, card: Option<string>)
    requires max >= 2
    ensures var l, ts := Load(max, card), OnCard(card);
      Sorted(SortAll(ts)) && multiset(SortAll(ts)) == multiset(ts)
      && l.es == Newest(SortAll(ts), max) && l.older == |ts| - |l.es| && SeqsBelow(ts, l.nextSeq)
      && l.nextSeq >= 1
      && l.floor == if |ts| > max then Some(KeyOf(l.es[0])) else None
  {
    SortAllSorts(OnCard(card));
    if card.Some? { TakeLinesNewest(max, Lines(card.value)); }
  }

  lemma NoneBelowFirst(s: seq<Entry>)
    requires Sorted(s) && s != []
    ensures Below(s, Some(KeyOf(s[0]))) == []
  {
    hide Cmp;
    var floor := Some(KeyOf(s[0]));
    forall i | 0 <= i < |s| ensures !BelowKey(s[i], floor) {
      CmpAntisymmetric(KeyOf(s[i]), KeyOf(s[0]));
      if i > 0 { assert Leq(s[0], s[i]); }
    }
    BelowNone(s, floor);
  }

  lemma AllBelowNext(s: seq<Entry>, k: Key)
    requires Sorted(s) && s != []
    ensures Below(s, Some(k)) == s <==> Cmp(KeyOf(s[|s| - 1]), k) < 0
  {
    hide Cmp;
    var last, floor := s[|s| - 1], Some(k);
    if Cmp(KeyOf(last), k) < 0 {
      forall i | 0 <= i < |s| ensures BelowKey(s[i], floor) {
        if i < |s| - 1 {
          assert Leq(s[i], last);
          CmpTransitive(KeyOf(s[i]), KeyOf(last), k);
        }
      }
      BelowAll(s, floor);
    } else {
      BelowCount(s, floor, last);
      assert multiset(s)[last] > 0;
    }
  }

  lemma {:induction false} BelowShorter(s: seq<Entry>, floor: Option<Key>)
    ensures |Below(s, floor)| <= |s|
    ensures |Below(s, floor)| == |s| ==> Below(s, floor) == s
  {
    hide BelowKey;
    if s != [] {
      BelowShorter(s[..|s| - 1], floor);
      assert s == s[..|s| - 1] + [s[|s| - 1]];
    }
  }

  /** The lines below the floor are exactly the entries left out, unless the oldest entry kept and
      the newest left out have the same key: then that one is neither in memory nor carried. */
  lemma FloorIsExact(max: nat, card: Option<string>)
    requires max >= 2 && |OnCard(card)| > max
    ensures var l, ts := Load(max, card), OnCard(card);
      var s, k := SortAll(ts), |ts| - max;
      k < |s| && (multiset(Below(ts, l.floor)) == multiset(s[..k]) <==> KeyOf(s[k - 1]) != KeyOf(s[k]))
  {
    hide Load, SortAll, Below, OnCard, Cmp;
    LoadKeepsNewest(max, card);
    SortAllSorts(OnCard(card));
    FloorSplits(OnCard(card), SortAll(OnCard(card)), |OnCard(card)| - max);
  }

  lemma FloorSplits(ts: seq<Entry>, s: seq<Entry>, k: nat)
    requires Sorted(s) && multiset(s) == multiset(ts) && 0 < k < |s|
    ensures multiset(Below(ts, Some(KeyOf(s[k])))) == multiset(s[..k]) <==> KeyOf(s[k - 1]) != KeyOf(s[k])
  {
    hide Cmp, Below;
    CmpAntisymmetric(KeyOf(s[k - 1]), KeyOf(s[k]));
    assert Leq(s[k - 1], s[k]);
    var a, b, floor := s[..k], s[k..], Some(KeyOf(s[k]));
    assert s == a + b;
    BelowOfSame(ts, s, floor);
    BelowAppend(a, b, floor);
    NoneBelowFirst(b);
    AllBelowNext(a, KeyOf(b[0]));
    BelowShorter(a, floor);
    assert Below(a, floor) + [] == Below(a, floor);
    if multiset(Below(a, floor)) == multiset(a) {
      SameSize(Below(a, floor), a);
    }
  }

  lemma SameSize(a: seq<Entry>, b: seq<Entry>)
    requires multiset(a) == multiset(b)
    ensures |a| == |b|
  {
    assert |multiset(a)| == |a|;
  }

  // ---- saving ------------------------------------------------------------------------------

  lemma ValidAppend(a: seq<Entry>, b: seq<Entry>)
    ensures AllValid(a + b) <==> AllValid(a) && AllValid(b)
  {
    hide ValidEntry;
    var s := a + b;
    if AllValid(s) {
      forall i | 0 <= i < |a| ensures ValidEntry(a[i]) && a[i].seqNo < 0x1_0000_0000 { assert s[i] == a[i]; }
      forall i | 0 <= i < |b| ensures ValidEntry(b[i]) && b[i].seqNo < 0x1_0000_0000 { assert s[|a| + i] == b[i]; }
    }
  }

  lemma {:induction false} SaveAppend(a: seq<Entry>, b: seq<Entry>)
    requires AllValid(a) && AllValid(b)
    ensures AllValid(a + b) && SaveEntries(a + b) == SaveEntries(a) + SaveEntries(b)
  {
    hide Saved, ValidEntry, AllValid;
    ValidAppend(a, b);
    if b == [] {
      assert a + b == a;
    } else {
      ValidAppend(b[..|b| - 1], [b[|b| - 1]]);
      assert b == b[..|b| - 1] + [b[|b| - 1]];
      SaveAppend(a, b[..|b| - 1]);
      assert (a + b)[..|a + b| - 1] == a + b[..|b| - 1];
    }
  }

  lemma ReadableIsValid(es: seq<Entry>)
    ensures Readable(es) ==> AllValid(es)
  {
    hide ValidEntry;
  }

  lemma {:induction false} BelowReadable(es: seq<Entry>, floor: Option<Key>)
    requires Readable(es)
    ensures Readable(Below(es, floor))
  {
    hide ValidEntry, BelowKey;
    if es != [] {
      BelowReadable(es[..|es| - 1], floor);
    }
  }

  lemma ParseOfEmpty()
    ensures Parse("") == None
  {
    assert Field("", 0, 16) == "";
  }

  lemma CarriedLine(floor: Key, line: string)
    ensures Readable(EntryOf(line)) && AllValid(Below(EntryOf(line), Some(floor)))
    ensures CarryLine(floor, line) == SaveEntries(Below(EntryOf(line), Some(floor)))
  {
    hide Parse, Saved, Cmp, ValidEntry, Below, SaveEntries;
    ParseOfEmpty();
    ParsedIsValid(line);
    BelowNone([], Some(floor));
    NothingSaved();
    if Parse(line).Some? {
      BelowOne(Parse(line).value, Some(floor));
      SaveOne(Parse(line).value);
    }
  }

  lemma NothingSaved()
    ensures SaveEntries([]) == ""
  {
  }

  /** What is carried across is the lines of the entries below the floor. */
  lemma {:induction false} CarriedLines(floor: Key, lines: seq<string>)
    ensures AllValid(Below(Entries(lines), Some(floor)))
    ensures CarryLines(floor, lines) == SaveEntries(Below(Entries(lines), Some(floor)))
  {
    hide EntryOf, CarryLine, ValidEntry, SaveEntries, Below, AllValid;
    if lines == [] {
      BelowNone([], Some(floor));
      NothingSaved();
      assert AllValid([]) by { NothingSaved(); ReadableIsValid([]); }
    } else {
      var init, line := lines[..|lines| - 1], lines[|lines| - 1];
      CarriedLines(floor, init);
      CarriedLine(floor, line);
      BelowAppend(Entries(init), EntryOf(line), Some(floor));
      SaveAppend(Below(Entries(init), Some(floor)), Below(EntryOf(line), Some(floor)));
    }
  }

  lemma BelowOne(e: Entry, floor: Option<Key>)
    ensures Below([e], floor) == if BelowKey(e, floor) then [e] else []
  {
    hide BelowKey;
    assert [e][..0] == [];
  }

  lemma SaveOne(e: Entry)
    requires ValidEntry(e) && e.seqNo < 0x1_0000_0000
    ensures SaveEntries([e]) == Saved(e)
  {
    hide Saved, ValidEntry;
    assert [e][..0] == [];
    assert SaveEntries([]) == "";
  }

  /** The entries a save leaves on the card, in order. */
  function Written(l: Log, card: Option<string>): seq<Entry> {
    Below(OnCard(card), l.floor) + l.es
  }

  lemma SaveWrites(l: Log, card: Option<string>)
    requires AllValid(l.es)
    ensures AllValid(Written(l, card)) && Save(l, card) == SaveEntries(Written(l, card))
  {
    hide Entries, Below, CarryLines, SaveEntries, ValidEntry, Lines;
    if card.Some? && l.floor.Some? {
      CarriedLines(l.floor.value, Lines(card.value));
      SaveAppend(Below(OnCard(card), l.floor), l.es);
    } else {
      BelowOfNothing(OnCard(card), l.floor);
      assert Written(l, card) == l.es;
    }
  }

  lemma BelowOfNothing(es: seq<Entry>, floor: Option<Key>)
    requires es == [] || floor.None?
    ensures Below(es, floor) == []
  {
    BelowNone(es, floor);
  }

  lemma FormatPlain(e: Entry)
    requires ValidEntry(e) && e.seqNo < 0x1_0000_0000
    ensures PlainLine(FormatLine(e)) && FormatLine(e) != "" && |FormatLine(e)| < LINE_IN
  {
    hide CivilFromDays, Digits, Decimal, DayText, TimeText;
    LineFits(e);
    assert PlainLine(DayText(e.day)) by { DayPlain(e.day); }
    assert PlainLine(TimeText(e.minute)) by { TimePlain(e.minute); }
    assert PlainLine(AREA_NAME[e.area]) by {
      assert PlainLine("cramps") && PlainLine("back") && PlainLine("head") && PlainLine("other");
    }
  }

  lemma DayPlain(day: int)
    requires 0 <= day <= DAY_MAX
    ensures PlainLine(DayText(day))
  {
    hide CivilFromDays, Digits;
    if day != NO_DAY { LoggedYear(day); }
  }

  lemma TimePlain(minute: int)
    requires 0 <= minute
    ensures PlainLine(TimeText(minute))
  {
    hide Digits;
  }

  /** Reading back the lines written gives the entries, but for a seq of ten digits. */
  function ReadBack(es: seq<Entry>): seq<Entry> {
    if es == [] then []
    else ReadBack(es[..|es| - 1]) + if es[|es| - 1].seqNo < 1_000_000_000 then [es[|es| - 1]] else []
  }

  lemma {:induction false} LinesOfSaved(es: seq<Entry>, rest: string)
    requires AllValid(es)
    ensures Entries(Lines(SaveEntries(es) + rest)) == ReadBack(es) + Entries(Lines(rest))
  {
    hide Lines, LinesFrom, Entries, EntryOf, FormatLine, Parse, ValidEntry;
    if es == [] {
      assert SaveEntries(es) + rest == rest;
    } else {
      var init, last := es[..|es| - 1], es[|es| - 1];
      var line := FormatLine(last);
      LinesOfSaved(init, Saved(last) + rest);
      assert SaveEntries(es) + rest == SaveEntries(init) + (Saved(last) + rest);
      assert Saved(last) + rest == line + "\n" + rest;
      FormatPlain(last);
      assert "" + line == line;
      LinesOfLine("", line, rest, LINE_IN);
      LinesAre(line + "\n" + rest);
      LinesAre(rest);
      EntriesAppend([line], Lines(rest));
      EntryOfLine(last);
      EntriesOne(line);
    }
  }

  lemma EntryOfLine(e: Entry)
    requires ValidEntry(e) && e.seqNo < 0x1_0000_0000
    ensures EntryOf(FormatLine(e)) == if e.seqNo < 1_000_000_000 then [e] else []
  {
    hide FormatLine, Parse, ValidEntry;
    FormatPlain(e);
    ParseOfFormat(e);
  }

  lemma LinesAre(text: string)
    ensures Lines(text) == LinesFrom(text, "", LINE_IN)
  {
    hide LinesFrom;
  }

  lemma EntriesOne(line: string)
    ensures Entries([line]) == EntryOf(line)
  {
    hide EntryOf;
    assert [line][..0] == [];
  }

  /** Saving, then reading the file: the entries below the floor as they were on the card, then the
      entries in memory, except that a seq of ten digits cannot be read back. */
  lemma SavedIsReadBack(l: Log, card: Option<string>)
    requires AllValid(l.es)
    ensures OnCard(Some(Save(l, card))) == ReadBack(Written(l, card))
  {
    hide Written, Save, SaveEntries, ReadBack, Lines, ValidEntry;
    SaveWrites(l, card);
    LinesOfSaved(Written(l, card), "");
    assert SaveEntries(Written(l, card)) + "" == SaveEntries(Written(l, card));
    assert Entries(Lines("")) == [] by { NoLines(); }
  }

  lemma NoLines()
    ensures Entries(Lines("")) == []
  {
  }

  lemma {:induction false} ReadBackReadable(es: seq<Entry>)
    ensures (forall i :: 0 <= i < |es| ==> es[i].seqNo < 1_000_000_000) ==> ReadBack(es) == es
  {
    if es != [] {
      ReadBackReadable(es[..|es| - 1]);
      assert es == es[..|es| - 1] + [es[|es| - 1]];
    }
  }
}
