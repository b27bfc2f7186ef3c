/** Every run of changes to the pain log, each followed by a save, against an unbounded log: the
    rule "More than fits" of apps/pain_log.h, lines 37-47. */
module PainHistory {
  import opened Common
  import opened Str
  import opened PainText
  import opened PainLog
  import opened PainRuns

  /** The device: what is in memory and what is on the card. */
  datatype World = World(log: Log, card: Option<string>)

  datatype Command =
    | DoAdd(day: int, minute: int, level: int, area: int, note: string)
    | DoEdit(idx: int, with: Entry)
    | DoNote(idx: int, note: string)
    | DoDelete(idx: int)
    | DoSave
    | DoReload

  /** What the app's call answers: an error, or the log after it. */
  function Change(w: World, max: nat, c: Command): (Log, int)
    requires |w.log.es| <= max && max >= 2
  {
    match c
    case DoAdd(day, minute, level, area, note) => Add(w.log, max, day, minute, level, area, note)
    case DoEdit(idx, with) => Edit(w.log, idx, with)
    case DoNote(idx, note) => SetNote(w.log, idx, note)
    case DoDelete(idx) => Delete(w.log, idx)
    case DoSave => (w.log, OK)
    case DoReload => (Load(max, w.card), OK)
  }

  const SEQ_LIMIT: nat := 1_000_000_000

  predicate Ready(w: World, max: nat) {
    max >= 2 && |w.log.es| <= max && Readable(w.log.es) && w.log.nextSeq <= SEQ_LIMIT
  }

  lemma InsertValid(es: seq<Entry>, t: Entry)
    requires AllValid(es) && ValidEntry(t) && t.seqNo < 0x1_0000_0000
    ensures AllValid(Insert(es, t))
  {
    hide ValidEntry, Upper;
  }

  lemma AddIsValid(l: Log, max: nat, day: int, minute: int, level: int, area: int, note: string)
    requires AllValid(l.es) && |l.es| <= max && max >= 2 && l.nextSeq < 0x1_0000_0000
    ensures AllValid(Add(l, max, day, minute, level, area, note).0.es)
  {
    hide Make, Insert, Cmp;
    var made := Make(day, minute, level, area, note);
    if made.Some? {
      var t := made.value.(seqNo := l.nextSeq);
      if |l.es| > 0 {
        assert AllValid(l.es[1..]) by { hide ValidEntry; }
        assert RemoveAt(l.es, 0) == l.es[1..];
        InsertValid(l.es[1..], t);
      }
      InsertValid(l.es, t);
    }
  }

  lemma EditIsValid(l: Log, idx: int, with: Entry)
    requires AllValid(l.es)
    ensures AllValid(Edit(l, idx, with).0.es)
  {
    hide Make, Insert, Cmp;
    var made := Make(with.day, with.minute, with.level, with.area, with.note);
    if 0 <= idx < |l.es| && made.Some? {
      assert AllValid(RemoveAt(l.es, idx)) by { hide ValidEntry; }
      InsertValid(RemoveAt(l.es, idx), made.value.(seqNo := l.es[idx].seqNo));
    }
  }

  lemma ChangeIsValid(w: World, max: nat, c: Command)
    requires Ready(w, max)
    ensures AllValid(Change(w, max, c).0.es)
  {
    hide Make, Insert, Load, Add, Edit, Clean;
    var es := w.log.es;
    ReadableIsValid(es);
    match c
    case DoAdd(day, minute, level, area, note) => AddIsValid(w.log, max, day, minute, level, area, note);
    case DoEdit(idx, with) => EditIsValid(w.log, idx, with);
    case DoNote(idx, note) => CleanIsClean(note);
    case DoDelete(idx) =>
    case DoSave =>
    case DoReload =>
      LoadIsReadable(max, w.card);
      ReadableIsValid(Load(max, w.card).es);
  }

  lemma LoadIsReadable(max: nat, card: Option<string>)
    requires max >= 2
    ensures Readable(Load(max, card).es) && |Load(max, card).es| <= max
  {
    hide Load, ValidEntry, SortAll, OnCard, Sorted;
    LoadKeepsNewest(max, card);
    CardReadable(card);
    var l, ts := Load(max, card), OnCard(card);
    SortAllSorts(ts);
    forall i | 0 <= i < |l.es| ensures ValidEntry(l.es[i]) && l.es[i].seqNo < SEQ_LIMIT {
      assert l.es[i] in SortAll(ts);
      assert l.es[i] in multiset(SortAll(ts));
      assert l.es[i] in ts;
    }
  }

  /** One command; a change that is not refused is saved at once, a reload only reads. */
  function Step(w: World, max: nat, c: Command): World
    requires Ready(w, max)
  {
    var (log, r) := Change(w, max, c);
    if r < 0 then w
    else if c.DoReload? then World(log, w.card)
    else
      ChangeIsValid(w, max, c);
      World(log, Some(Save(log, w.card)))
  }

  /** The same command on the reference log: all entries ever logged, with no limit and no file.  The
      entry at an index is the one the person sees there. */
  function RefStep(all: multiset<Entry>, w: World, max: nat, c: Command): multiset<Entry>
    requires Ready(w, max)
  {
    var (log, r) := Change(w, max, c);
    if r < 0 then all
    else match c
      case DoAdd(day, minute, level, area, note) =>
        var made := Make(day, minute, level, area, note);
        if made.None? then all else all + multiset{made.value.(seqNo := w.log.nextSeq)}
      case DoEdit(idx, with) =>
        var made := Make(with.day, with.minute, with.level, with.area, with.note);
        if made.None? || idx < 0 || idx >= |w.log.es| then all
        else
          var e := w.log.es[idx];
          all - multiset{e} + multiset{made.value.(seqNo := e.seqNo)}
      case DoNote(idx, note) =>
        if idx < 0 || idx >= |w.log.es| then all
        else
          var e := w.log.es[idx];
          all - multiset{e} + multiset{e.(note := Clean(note))}
      case DoDelete(idx) =>
        if idx < 0 || idx >= |w.log.es| then all else all - multiset{w.log.es[idx]}
      case DoSave => all
      case DoReload => all
  }

  // ---- the invariant -----------------------------------------------------------------------

  predicate DistinctSeqs(all: multiset<Entry>) {
    forall x, y :: x in all && y in all && x.seqNo == y.seqNo ==> x == y && all[x] == 1
  }

  /** The card holds exactly the reference log, split between memory and the lines below the floor. */
  ghost predicate Inv(w: World, max: nat, all: multiset<Entry>) {
    Ready(w, max)
    && Sorted(w.log.es)
    && multiset(OnCard(w.card)) == all
    && multiset(Below(OnCard(w.card), w.log.floor)) + multiset(w.log.es) == all
    && Below(w.log.es, w.log.floor) == []
    && DistinctSeqs(all)
    && (forall x :: x in all ==> x.seqNo < w.log.nextSeq)
    && w.log.nextSeq >= 1
  }

  /** Once the new entries of memory are known to lie at or above the floor and the lines below it to
      be the rest, a save re-establishes everything. */
  lemma SaveEstablishes(w: World, log: Log, max: nat, all: multiset<Entry>)
    requires max >= 2 && |log.es| <= max && Readable(log.es) && Sorted(log.es) && AllValid(log.es)
    requires multiset(Below(OnCard(w.card), log.floor)) + multiset(log.es) == all
    requires Below(log.es, log.floor) == []
    requires DistinctSeqs(all) && forall x :: x in all ==> x.seqNo < log.nextSeq
    requires 1 <= log.nextSeq <= SEQ_LIMIT
    ensures Inv(World(log, Some(Save(log, w.card))), max, all)
  {
    hide ValidEntry, Save, Below, ReadBack, Cmp, Sorted;
    var card := Some(Save(log, w.card));
    var old', new' := Below(OnCard(w.card), log.floor), OnCard(card);
    SavedIsReadBack(log, w.card);
    CardReadable(w.card);
    BelowReadable(OnCard(w.card), log.floor);
    ReadBackReadable(Written(log, w.card));
    assert new' == old' + log.es;
    BelowAppend(old', log.es, log.floor);
    BelowTwice(OnCard(w.card), log.floor);
    assert Below(new', log.floor) == old';
  }

  lemma CardReadable(card: Option<string>)
    ensures Readable(OnCard(card))
  {
    if card.Some? { EntriesReadable(Lines(card.value)); }
  }

  lemma {:induction false} BelowTwice(es: seq<Entry>, floor: Option<Key>)
    ensures Below(Below(es, floor), floor) == Below(es, floor)
  {
    hide BelowKey;
    if es != [] {
      var init, last := es[..|es| - 1], es[|es| - 1];
      BelowTwice(init, floor);
      BelowOne(last, floor);
      if BelowKey(last, floor) {
        BelowAppend(Below(init, floor), [last], floor);
      } else {
        assert Below(es, floor) == Below(init, floor);
      }
    }
  }

  // ---- changes that leave the floor alone --------------------------------------------------

  /** An entry in memory gives way to none or to one with its seq. */
  lemma DistinctAfter(all: multiset<Entry>, e: Entry, came: seq<Entry>)
    requires DistinctSeqs(all) && e in all
    requires came == [] || (|came| == 1 && came[0].seqNo == e.seqNo)
    ensures DistinctSeqs(all - multiset{e} + multiset(came))
  {
    var rest := all - multiset{e};
    forall x | x in rest ensures x in all && x.seqNo != e.seqNo && rest[x] == all[x] {
    }
  }

  lemma NotBelow(es: seq<Entry>, floor: Option<Key>, x: Entry)
    requires Below(es, floor) == [] && x in es
    ensures !BelowKey(x, floor)
  {
    hide BelowKey;
    BelowCount(es, floor, x);
    assert x in multiset(es);
  }

  lemma ReplacedEntries(es: seq<Entry>, es': seq<Entry>, e: Entry, came: seq<Entry>, floor: Option<Key>)
    requires Below(es, floor) == [] && Readable(es) && AllValid(es')
    requires e in es && multiset(es') == multiset(es) - multiset{e} + multiset(came)
    requires came == [] || (|came| == 1 && came[0].seqNo == e.seqNo && !BelowKey(came[0], floor))
    ensures Readable(es') && Below(es', floor) == []
  {
    hide ValidEntry, Below, BelowKey;
    forall i | 0 <= i < |es'| ensures es'[i].seqNo < SEQ_LIMIT && !BelowKey(es'[i], floor) {
      var x := es'[i];
      assert x in multiset(es');
      if x !in came {
        assert x in es;
        NotBelow(es, floor, x);
      }
    }
    BelowNone(es', floor);
  }

  lemma Swapped(all: multiset<Entry>, below: multiset<Entry>, es: multiset<Entry>, e: Entry, came: multiset<Entry>)
    requires all == below + es && e in es
    ensures e in all && all - multiset{e} + came == below + (es - multiset{e} + came)
  {
  }

  lemma SeqsStayBelow(all: multiset<Entry>, e: Entry, came: seq<Entry>, next: nat)
    requires e in all && forall x :: x in all ==> x.seqNo < next
    requires came == [] || (|came| == 1 && came[0].seqNo == e.seqNo)
    ensures forall x :: x in all - multiset{e} + multiset(came) ==> x.seqNo < next
  {
  }

  lemma Replaced(w: World, log: Log, max: nat, all: multiset<Entry>, e: Entry, came: seq<Entry>)
    requires Inv(w, max, all) && e in w.log.es
    requires came == [] || (|came| == 1 && came[0].seqNo == e.seqNo && !BelowKey(came[0], log.floor))
    requires log.floor == w.log.floor && log.nextSeq == w.log.nextSeq
    requires multiset(log.es) == multiset(w.log.es) - multiset{e} + multiset(came)
    requires |log.es| <= max && AllValid(log.es) && Sorted(log.es)
    ensures Inv(World(log, Some(Save(log, w.card))), max, all - multiset{e} + multiset(came))
  {
    hide ValidEntry, Save, Below, BelowKey, Cmp, Sorted, AllValid, Readable, OnCard, DistinctSeqs;
    var all' := all - multiset{e} + multiset(came);
    var below := Below(OnCard(w.card), log.floor);
    Swapped(all, multiset(below), multiset(w.log.es), e, multiset(came));
    DistinctAfter(all, e, came);
    ReplacedEntries(w.log.es, log.es, e, came, log.floor);
    SeqsStayBelow(all, e, came, log.nextSeq);
    SaveEstablishes(w, log, max, all');
  }

  /** An edit that is taken: the entry gives way to one with its seq, at or above the floor. */
  lemma EditFacts(l: Log, idx: int, with: Entry)
    requires Sorted(l.es) && Edit(l, idx, with).1 >= 0
    ensures var log := Edit(l, idx, with).0;
      var made := Make(with.day, with.minute, with.level, with.area, with.note);
      0 <= idx < |l.es| && made.Some?
      && var e := l.es[idx]; var t := made.value.(seqNo := e.seqNo);
         log == l.(es := log.es) && Sorted(log.es) && |log.es| == |l.es| && !BelowKey(t, l.floor)
         && multiset(log.es) == multiset(l.es) - multiset{e} + multiset([t])
  {
    hide Make, Insert, BelowKey, Sorted;
    var made := Make(with.day, with.minute, with.level, with.area, with.note);
    var t, rest := made.value.(seqNo := l.es[idx].seqNo), RemoveAt(l.es, idx);
    RemoveContents(l.es, idx);
    SortedSubset(l.es, idx);
    InsertContents(rest, t);
    InsertSorted(rest, t);
    SameSize(Insert(rest, t), rest + [t]);
    assert multiset([t]) == multiset{t};
  }

  lemma EditSteps(w: World, max: nat, all: multiset<Entry>, c: Command)
    requires Ready(w, max) && c.DoEdit?
    ensures var (log, r) := Edit(w.log, c.idx, c.with);
      var made := Make(c.with.day, c.with.minute, c.with.level, c.with.area, c.with.note);
      if r < 0 then Step(w, max, c) == w && RefStep(all, w, max, c) == all
      else
        AllValid(log.es) && Step(w, max, c) == World(log, Some(Save(log, w.card)))
        && (made.Some? && 0 <= c.idx < |w.log.es| ==>
              var e := w.log.es[c.idx];
              RefStep(all, w, max, c) == all - multiset{e} + multiset{made.value.(seqNo := e.seqNo)})
  {
    hide Make, Edit, Save, ValidEntry;
    ChangeIsValid(w, max, c);
  }

  lemma InvSorted(w: World, max: nat, all: multiset<Entry>)
    requires Inv(w, max, all)
    ensures Sorted(w.log.es) && Ready(w, max)
  {
  }

  lemma EditKeeps(w: World, max: nat, all: multiset<Entry>, c: Command)
    requires Inv(w, max, all) && c.DoEdit?
    ensures Inv(Step(w, max, c), max, RefStep(all, w, max, c))
  {
    hide Make, Save, Edit, Step, RefStep, ValidEntry, Below, BelowKey, OnCard, DistinctSeqs, AllValid, Readable;
    EditSteps(w, max, all, c);
    var (log, r) := Edit(w.log, c.idx, c.with);
    if r >= 0 {
      InvSorted(w, max, all);
      EditFacts(w.log, c.idx, c.with);
      var e := w.log.es[c.idx];
      var t := Make(c.with.day, c.with.minute, c.with.level, c.with.area, c.with.note).value.(seqNo := e.seqNo);
      Replaced(w, log, max, all, e, [t]);
      assert multiset([t]) == multiset{t};
    }
  }

  lemma DeleteKeeps(w: World, max: nat, all: multiset<Entry>, c: Command)
    requires Inv(w, max, all) && c.DoDelete?
    ensures Inv(Step(w, max, c), max, RefStep(all, w, max, c))
  {
    hide Save, ValidEntry, Below, BelowKey, Cmp, OnCard, Sorted;
    ChangeIsValid(w, max, c);
    var (log, r) := Change(w, max, c);
    if r >= 0 {
      var e := w.log.es[c.idx];
      RemoveContents(w.log.es, c.idx);
      SortedSubset(w.log.es, c.idx);
      Replaced(w, log, max, all, e, []);
      assert all - multiset{e} + multiset([]) == all - multiset{e};
    }
  }

  lemma NoteKeeps(w: World, max: nat, all: multiset<Entry>, c: Command)
    requires Inv(w, max, all) && c.DoNote?
    ensures Inv(Step(w, max, c), max, RefStep(all, w, max, c))
  {
    hide Save, ValidEntry, Below, Cmp, OnCard, Clean;
    ChangeIsValid(w, max, c);
    var (log, r) := Change(w, max, c);
    if r >= 0 {
      var es, i := w.log.es, c.idx;
      var e, t := es[i], es[i].(note := Clean(c.note));
      NoteContents(es, i, t);
      NotBelow(es, log.floor, e);
      assert KeyOf(t) == KeyOf(e);
      forall j, k | 0 <= j < k < |es| ensures Leq(log.es[j], log.es[k]) {
        assert Leq(es[j], es[k]);
      }
      Replaced(w, log, max, all, e, [t]);
      assert multiset([t]) == multiset{t};
    }
  }

  lemma NoteContents(es: seq<Entry>, i: nat, t: Entry)
    requires i < |es|
    ensures multiset(es[i := t]) == multiset(es) - multiset{es[i]} + multiset([t])
  {
    var a, b := es[..i], es[i + 1..];
    assert es == a + [es[i]] + b;
    assert es[i := t] == a + [t] + b;
  }

  lemma SaveKeeps(w: World, max: nat, all: multiset<Entry>)
    requires Inv(w, max, all)
    ensures Inv(Step(w, max, DoSave), max, all)
  {
    hide Save, ValidEntry, Below, Cmp, OnCard, Sorted;
    ReadableIsValid(w.log.es);
    SaveEstablishes(w, w.log, max, all);
  }

  // ---- adding ------------------------------------------------------------------------------

  /** Two entries of a sorted log with distinct seqs are strictly in order. */
  lemma StrictlySorted(es: seq<Entry>, i: nat, j: nat, all: multiset<Entry>)
    requires Sorted(es) && i < j < |es| && DistinctSeqs(all) && multiset(es) <= all
    ensures Cmp(KeyOf(es[i]), KeyOf(es[j])) < 0
  {
    hide Cmp, Sorted;
    assert Leq(es[i], es[j]) by { LeqAt(es, i, j); }
    CmpAntisymmetric(KeyOf(es[i]), KeyOf(es[j]));
    assert es[i] in multiset(es) && es[j] in multiset(es);
    if es[i] == es[j] { CountedTwice(es, i, j); }
  }

  lemma CountedTwice(es: seq<Entry>, i: nat, j: nat)
    requires i < j < |es| && es[i] == es[j]
    ensures multiset(es)[es[i]] >= 2
  {
    var a, b := es[..i + 1], es[i + 1..];
    assert es == a + b && a[i] == es[i] && b[j - i - 1] == es[i];
    assert multiset(es)[es[i]] == multiset(a)[es[i]] + multiset(b)[es[i]];
  }

  lemma LeqAt(es: seq<Entry>, i: nat, j: nat)
    requires Sorted(es) && i < j < |es|
    ensures Leq(es[i], es[j])
  {
    hide Cmp;
  }

  predicate Full(l: Log, max: nat) { |l.es| >= max }

  /** What adding does to the lines below the floor: a full log adds its oldest entry to them. */
  lemma RetiredIsBelow(w: World, max: nat, all: multiset<Entry>)
    requires Inv(w, max, all) && Full(w.log, max)
    ensures var floor := Retire(w.log).floor;
      multiset(Below(OnCard(w.card), floor))
      == multiset(Below(OnCard(w.card), w.log.floor)) + multiset{w.log.es[0]}
  {
    hide Cmp, BelowKey, Below, ValidEntry, OnCard, Sorted;
    var es, old', floor := w.log.es, Below(OnCard(w.card), w.log.floor), Retire(w.log).floor;
    assert RemoveAt(es, 0) == es[1..];
    assert floor == Some(KeyOf(es[1]));
    BelowOfSame(OnCard(w.card), old' + es, floor);
    BelowAppend(old', es, floor);
    forall i | 0 <= i < |old'| ensures BelowKey(old'[i], floor) {
      BelowIsBelow(OnCard(w.card), w.log.floor, i);
      NotBelow(es, w.log.floor, es[0]);
      StrictlySorted(es, 0, 1, all);
      FloorRises(old'[i], es[0], es[1], w.log.floor);
    }
    BelowAll(old', floor);
    OnlyFirstBelow(es, all);
  }

  lemma {:induction false} BelowIsBelow(es: seq<Entry>, floor: Option<Key>, i: nat)
    requires i < |Below(es, floor)|
    ensures BelowKey(Below(es, floor)[i], floor)
  {
    hide BelowKey;
    var init, last := es[..|es| - 1], es[|es| - 1];
    if i < |Below(init, floor)| {
      BelowIsBelow(init, floor, i);
    }
  }

  lemma FloorRises(x: Entry, a: Entry, b: Entry, floor: Option<Key>)
    requires BelowKey(x, floor) && !BelowKey(a, floor) && Cmp(KeyOf(a), KeyOf(b)) < 0
    ensures BelowKey(x, Some(KeyOf(b)))
  {
    hide Cmp;
    CmpAntisymmetric(KeyOf(a), floor.value);
    CmpTransitive(KeyOf(x), floor.value, KeyOf(a));
    CmpTransitive(KeyOf(x), KeyOf(a), KeyOf(b));
  }

  lemma OnlyFirstBelow(es: seq<Entry>, all: multiset<Entry>)
    requires |es| >= 2 && Sorted(es) && DistinctSeqs(all) && multiset(es) <= all
    ensures Below(es, Some(KeyOf(es[1]))) == [es[0]]
    ensures Below(es[1..], Some(KeyOf(es[1]))) == []
  {
    hide Cmp, Below, Sorted;
    var floor := Some(KeyOf(es[1]));
    assert es == [es[0]] + es[1..];
    BelowAppend([es[0]], es[1..], floor);
    StrictlySorted(es, 0, 1, all);
    BelowOne(es[0], floor);
    assert Sorted(es[1..]) by { assert RemoveAt(es, 0) == es[1..]; SortedSubset(es, 0); }
    NoneBelowFirst(es[1..]);
  }

  /** The log after an accepted add, before the save. */
  predicate Added(w: World, max: nat, c: Command, log: Log, t: Entry)
    requires Ready(w, max)
  {
    c.DoAdd?
    && Change(w, max, c).1 >= 0 && log == Change(w, max, c).0
    && Make(c.day, c.minute, c.level, c.area, c.note).Some?
    && t == Make(c.day, c.minute, c.level, c.area, c.note).value.(seqNo := w.log.nextSeq)
  }

  /** The guard a caller can check before adding: the new entry does not fall between the two oldest
      of a full log. */
  predicate Clear(w: World, max: nat, t: Entry)
    requires max >= 2
  {
    Full(w.log, max) ==> |w.log.es| >= 2 && Leq(w.log.es[1], t)
  }

  predicate AddedTo(es: seq<Entry>, es': seq<Entry>, floor: Option<Key>, t: Entry) {
    Sorted(es') && t in es'
    && forall x :: x in es' ==> x == t || (x in es && !BelowKey(x, floor))
  }

  lemma AddToFull(w: World, max: nat, all: multiset<Entry>, t: Entry)
    requires Inv(w, max, all) && Full(w.log, max)
    ensures var m := Retire(w.log); var log := m.(es := Insert(m.es, t));
      multiset(Below(OnCard(w.card), log.floor)) + multiset(log.es) == all + multiset{t}
      && AddedTo(w.log.es, log.es, log.floor, t) && |log.es| == |w.log.es|
      && (BelowKey(t, log.floor) <==> !Leq(w.log.es[1], t))
  {
    hide Insert, ValidEntry, Below, BelowKey, Cmp, OnCard, Sorted, DistinctSeqs, Readable;
    var es := w.log.es;
    var rest := RemoveAt(es, 0);
    assert rest == es[1..];
    RemoveContents(es, 0);
    SortedSubset(es, 0);
    RetiredIsBelow(w, max, all);
    OnlyFirstBelow(es, all);
    InsertFacts(rest, t, Retire(w.log).floor);
    FloorGuard(t, es[1]);
  }

  lemma AddToRoom(w: World, max: nat, all: multiset<Entry>, t: Entry)
    requires Inv(w, max, all) && !BelowKey(t, w.log.floor)
    ensures var log := w.log.(es := Insert(w.log.es, t));
      multiset(Below(OnCard(w.card), log.floor)) + multiset(log.es) == all + multiset{t}
      && AddedTo(w.log.es, log.es, log.floor, t) && |log.es| == |w.log.es| + 1
  {
    hide Insert, ValidEntry, Below, BelowKey, Cmp, OnCard, Sorted;
    InsertFacts(w.log.es, t, w.log.floor);
  }

  lemma AddFacts(w: World, max: nat, all: multiset<Entry>, c: Command, log: Log, t: Entry)
    requires Inv(w, max, all) && Added(w, max, c, log, t)
    ensures multiset(Below(OnCard(w.card), log.floor)) + multiset(log.es) == all + multiset{t}
    ensures AllValid(log.es) && AddedTo(w.log.es, log.es, log.floor, t)
    ensures |log.es| <= max && log.nextSeq == w.log.nextSeq + 1
    ensures BelowKey(t, log.floor) <==> !Clear(w, max, t)
  {
    hide Make, Insert, ValidEntry, Below, BelowKey, Cmp, OnCard, Sorted, AddedTo;
    ChangeIsValid(w, max, c);
    if Full(w.log, max) {
      AddToFull(w, max, all, t);
    } else {
      AddToRoom(w, max, all, t);
    }
  }

  lemma FloorGuard(t: Entry, e: Entry)
    ensures BelowKey(t, Some(KeyOf(e))) <==> !Leq(e, t)
  {
    hide Cmp;
    CmpAntisymmetric(KeyOf(t), KeyOf(e));
  }

  lemma InsertFacts(es: seq<Entry>, t: Entry, floor: Option<Key>)
    requires Sorted(es) && Below(es, floor) == []
    ensures Sorted(Insert(es, t)) && multiset(Insert(es, t)) == multiset(es) + multiset{t}
    ensures |Insert(es, t)| == |es| + 1 && t in Insert(es, t)
    ensures forall x :: x in Insert(es, t) ==> x == t || (x in es && !BelowKey(x, floor))
  {
    hide Insert, Below, Cmp, Sorted, BelowKey;
    InsertSorted(es, t);
    InsertContents(es, t);
    SameSize(Insert(es, t), es + [t]);
    assert t in multiset(Insert(es, t));
    forall x | x in Insert(es, t) ensures x == t || (x in es && !BelowKey(x, floor)) {
      assert x in multiset(Insert(es, t));
      if x != t { NotBelow(es, floor, x); }
    }
  }

  lemma DistinctWith(all: multiset<Entry>, t: Entry)
    requires DistinctSeqs(all) && forall x :: x in all ==> x.seqNo < t.seqNo
    ensures DistinctSeqs(all + multiset{t})
  {
    var all' := all + multiset{t};
    forall x, y | x in all' && y in all' && x.seqNo == y.seqNo ensures x == y && all'[x] == 1 {
      assert x == t || x in all;
      assert y == t || y in all;
      assert t !in all;
    }
  }

  lemma AddKeeps(w: World, max: nat, all: multiset<Entry>, c: Command, log: Log, t: Entry)
    requires Inv(w, max, all) && Added(w, max, c, log, t)
    requires w.log.nextSeq < SEQ_LIMIT && Clear(w, max, t)
    ensures AllValid(log.es) && Inv(World(log, Some(Save(log, w.card))), max, all + multiset{t})
  {
    hide Make, Save, ValidEntry, Below, BelowKey, Cmp, OnCard, Sorted, Change, Clear;
    AddFacts(w, max, all, c, log, t);
    DistinctWith(all, t);
    forall i | 0 <= i < |log.es| ensures log.es[i].seqNo < SEQ_LIMIT && !BelowKey(log.es[i], log.floor) {
      var x := log.es[i];
      assert x in log.es;
      assert x == t || x in w.log.es;
    }
    BelowNone(log.es, log.floor);
    SaveEstablishes(w, log, max, all + multiset{t});
  }

  /** The limit of the file format and of the floor, exactly.  After an accepted add and its save the
      card holds the reference log if and only if the seq has at most nine digits; and it still does
      after one more save of the unchanged log if and only if, besides, the entry did not fall
      between the two oldest of a full log.  (There it lands below its own floor: the next save
      carries its line and writes it again.) */
  lemma AddExactly(w: World, max: nat, all: multiset<Entry>, c: Command, log: Log, t: Entry)
    requires Inv(w, max, all) && Added(w, max, c, log, t)
    ensures AllValid(log.es)
    ensures var once := Some(Save(log, w.card)); var twice := Some(Save(log, once));
      (multiset(OnCard(once)) == all + multiset{t} <==> w.log.nextSeq < SEQ_LIMIT)
      && (multiset(OnCard(twice)) == all + multiset{t} <==> w.log.nextSeq < SEQ_LIMIT && Clear(w, max, t))
  {
    hide Make, Save, ValidEntry, Below, BelowKey, Cmp, OnCard, Sorted, Change, Clear, ReadBack, Readable;
    AddFacts(w, max, all, c, log, t);
    var once := Some(Save(log, w.card));
    var twice := Some(Save(log, once));
    SavedIsReadBack(log, w.card);
    SavedIsReadBack(log, once);
    CardReadable(w.card);
    CardReadable(once);
    CardReadable(twice);
    BelowReadable(OnCard(w.card), log.floor);
    BelowReadable(OnCard(once), log.floor);
    if w.log.nextSeq < SEQ_LIMIT {
      ReadableAfterAdd(w, log, t);
      AllReadBack(Below(OnCard(w.card), log.floor), log.es);
      AllReadBack(Below(OnCard(once), log.floor), log.es);
      assert multiset(OnCard(once)) == all + multiset{t};
      SecondSave(w, all, log, t, once);
    } else {
      NotReadable(OnCard(once), t);
      NotReadable(OnCard(twice), t);
    }
  }

  lemma NotReadable(es: seq<Entry>, t: Entry)
    requires Readable(es) && t.seqNo >= SEQ_LIMIT
    ensures multiset(es)[t] == 0
  {
    hide ValidEntry;
    assert t !in es;
  }

  lemma ReadableAfterAdd(w: World, log: Log, t: Entry)
    requires Readable(w.log.es) && AllValid(log.es) && t.seqNo < SEQ_LIMIT
    requires AddedTo(w.log.es, log.es, log.floor, t)
    ensures Readable(log.es)
  {
    hide ValidEntry, BelowKey, Sorted;
    forall i | 0 <= i < |log.es| ensures log.es[i].seqNo < SEQ_LIMIT {
      assert log.es[i] in log.es;
    }
  }

  lemma AllReadBack(a: seq<Entry>, b: seq<Entry>)
    requires Readable(a) && Readable(b)
    ensures ReadBack(a + b) == a + b
  {
    hide ValidEntry;
    ReadBackReadable(a + b);
  }

  /** A second save carries the new entry too exactly when it is below the floor. */
  lemma SecondSave(w: World, all: multiset<Entry>, log: Log, t: Entry, once: Option<string>)
    requires OnCard(once) == Below(OnCard(w.card), log.floor) + log.es
    requires multiset(OnCard(once)) == all + multiset{t}
    requires AddedTo(w.log.es, log.es, log.floor, t)
    ensures multiset(Below(OnCard(once), log.floor)) + multiset(log.es) == all + multiset{t}
       <==> !BelowKey(t, log.floor)
  {
    hide Below, BelowKey, OnCard, Sorted;
    var old' := Below(OnCard(w.card), log.floor);
    BelowAppend(old', log.es, log.floor);
    BelowTwice(OnCard(w.card), log.floor);
    if BelowKey(t, log.floor) {
      BelowCount(log.es, log.floor, t);
      assert multiset(log.es)[t] > 0;
      assert t in multiset(Below(log.es, log.floor));
    } else {
      forall i | 0 <= i < |log.es| ensures !BelowKey(log.es[i], log.floor) {
        assert log.es[i] in log.es;
      }
      BelowNone(log.es, log.floor);
    }
  }

  function Plain(day: int, seqNo: nat): Entry { Entry(day, 60, 5, 0, seqNo, "") }

  lemma OldestTwoAdd()
    ensures Add(Log([Plain(1, 1), Plain(3, 2)], 3, 0, 0, None), 2, 2, 60, 5, 0, "")
         == (Log([Plain(2, 3), Plain(3, 2)], 4, 0, 1, Some(KeyOf(Plain(3, 2)))), 0)
  {
    var l, t := Log([Plain(1, 1), Plain(3, 2)], 3, 0, 0, None), Plain(2, 3);
    assert Make(2, 60, 5, 0, "").value.(seqNo := 3) == t;
    assert RemoveAt(l.es, 0) == [Plain(3, 2)];
    assert Upper([Plain(3, 2)], KeyOf(t)) == 0;
    assert Insert([Plain(3, 2)], t) == [t, Plain(3, 2)];
  }

  predicate IsPlain(e: Entry) {
    1 <= e.day <= 3 && e.seqNo <= 3 && 0 <= e.level <= 9 && e == Plain(e.day, e.seqNo).(level := e.level)
  }

  lemma PlainIsValid(e: Entry)
    requires IsPlain(e)
    ensures ValidEntry(e)
  {
  }

  lemma PlainSaved(l: Log, card: Option<string>)
    requires forall i :: 0 <= i < |l.es| ==> IsPlain(l.es[i])
    ensures AllValid(l.es) && OnCard(Some(Save(l, card))) == Below(OnCard(card), l.floor) + l.es
  {
    hide Save, Below, OnCard, ReadBack;
    forall i | 0 <= i < |l.es| ensures ValidEntry(l.es[i]) { PlainIsValid(l.es[i]); }
    ReadableIsValid(l.es);
    SavedIsReadBack(l, card);
    CardReadable(card);
    BelowReadable(OnCard(card), l.floor);
    AllReadBack(Below(OnCard(card), l.floor), l.es);
  }

  lemma NothingOnCard()
    ensures OnCard(None) == []
  {
  }

  lemma BelowDays(floor: Option<Key>)
    requires floor == Some(KeyOf(Plain(3, 2)))
    ensures Below([Plain(1, 1), Plain(3, 2)], floor) == [Plain(1, 1)]
    ensures Below([Plain(1, 1), Plain(2, 3), Plain(3, 2)], floor) == [Plain(1, 1), Plain(2, 3)]
  {
    hide Below;
    BelowOne(Plain(1, 1), floor);
    BelowOne(Plain(2, 3), floor);
    BelowOne(Plain(3, 2), floor);
    BelowAppend([Plain(1, 1)], [Plain(3, 2)], floor);
    BelowAppend([Plain(1, 1)], [Plain(2, 3)], floor);
    BelowAppend([Plain(1, 1), Plain(2, 3)], [Plain(3, 2)], floor);
    assert [Plain(1, 1)] + [Plain(3, 2)] == [Plain(1, 1), Plain(3, 2)];
    assert [Plain(1, 1)] + [Plain(2, 3)] == [Plain(1, 1), Plain(2, 3)];
    assert [Plain(1, 1), Plain(2, 3)] + [Plain(3, 2)] == [Plain(1, 1), Plain(2, 3), Plain(3, 2)];
  }

  /** The family that fails, in its smallest case: a log of two, full with days 1 and 3 and saved so, is
      given an entry for day 2.  It ends up in memory and below the floor, and the second save writes
      its line twice. */
  lemma BetweenTheOldestTwo()
    ensures var w := Log([Plain(1, 1), Plain(3, 2)], 3, 0, 0, None);
      var (log, r) := Add(w, 2, 2, 60, 5, 0, "");
      AllValid(w.es) && AllValid(log.es) && r == 0
      && var none := Some(Save(w, None)); var once := Some(Save(log, none)); var twice := Some(Save(log, once));
         OnCard(none) == [Plain(1, 1), Plain(3, 2)]
         && OnCard(once) == [Plain(1, 1), Plain(2, 3), Plain(3, 2)]
         && OnCard(twice) == [Plain(1, 1), Plain(2, 3), Plain(2, 3), Plain(3, 2)]
  {
    hide Add, Save, OnCard, Below;
    OldestTwoAdd();
    var w := Log([Plain(1, 1), Plain(3, 2)], 3, 0, 0, None);
    var log := Log([Plain(2, 3), Plain(3, 2)], 4, 0, 1, Some(KeyOf(Plain(3, 2))));
    PlainSaved(w, None);
    assert OnCard(None) == [] by { NothingOnCard(); }
    BelowNone([], None);
    assert [] + w.es == w.es;
    var none := Some(Save(w, None));
    PlainSaved(log, none);
    var once := Some(Save(log, none));
    PlainSaved(log, once);
    BelowDays(log.floor);
    assert [Plain(1, 1)] + log.es == [Plain(1, 1), Plain(2, 3), Plain(3, 2)];
    assert [Plain(1, 1), Plain(2, 3)] + log.es == [Plain(1, 1), Plain(2, 3), Plain(2, 3), Plain(3, 2)];
  }

  function Tied(): seq<Entry> { [Plain(1, 1), Plain(1, 1).(level := 7), Plain(3, 2)] }

  lemma {:induction false} InsertNewest(s: seq<Entry>, t: Entry)
    requires forall i :: 0 <= i < |s| ==> Leq(s[i], t)
    ensures Insert(s, t) == s + [t]
  {
    hide Cmp;
    if s != [] { InsertNewest(s[1..], t); }
  }

  lemma TiedSorted()
    ensures SortAll(Tied()) == Tied()
  {
    hide SortAll, Insert;
    var a, b, c := Plain(1, 1), Plain(1, 1).(level := 7), Plain(3, 2);
    SortAllSorts([]);
    SortAllStep([], a);
    InsertNewest([], a);
    SortAllStep([a], b);
    InsertNewest([a], b);
    SortAllStep([a, b], c);
    InsertNewest([a, b], c);
    assert [] + [a] == [a] && [a] + [b] == [a, b] && [a, b] + [c] == Tied();
  }

  lemma TiedSaved(l: Log)
    requires l.es == Tied() && l.floor == None
    ensures AllValid(Tied()) && OnCard(Some(Save(l, None))) == Tied()
  {
    hide Save, OnCard, Below, AllValid;
    PlainSaved(l, None);
    NothingOnCard();
    BelowNone([], None);
    assert [] + Tied() == Tied();
  }

  lemma TiedLoaded(card: Option<string>)
    requires OnCard(card) == Tied()
    ensures var l := Load(2, card); l.es == Tied()[1..] && l.floor == Some(KeyOf(Plain(1, 1)))
  {
    hide Load, OnCard, SortAll;
    LoadKeepsNewest(2, card);
    TiedSorted();
  }

  /** The family the floor cannot tell apart, in its smallest case: a file with two entries of one key,
      read into a log of two.  The second is kept and the first is neither in memory nor below the
      floor, and the next save leaves it out. */
  lemma TieIsLost()
    ensures AllValid(Tied())
    ensures var card := Some(Save(Log(Tied(), 3, 0, 0, None), None)); var l := Load(2, card);
      OnCard(card) == Tied() && AllValid(l.es) && l.es == Tied()[1..]
      && OnCard(Some(Save(l, card))) == Tied()[1..]
  {
    hide Save, Load, OnCard, Below, AllValid;
    TiedSaved(Log(Tied(), 3, 0, 0, None));
    var card := Some(Save(Log(Tied(), 3, 0, 0, None), None));
    TiedLoaded(card);
    var l := Load(2, card);
    PlainSaved(l, card);
    BelowNone(Tied(), l.floor);
    assert [] + l.es == l.es;
  }

  // ---- reloading ---------------------------------------------------------------------------

  /** A restart, or opening the app: from any file whose entries have distinct seqs. */
  lemma LoadEstablishes(max: nat, card: Option<string>)
    requires max >= 2 && DistinctSeqs(multiset(OnCard(card)))
    requires Load(max, card).nextSeq <= SEQ_LIMIT
    ensures Inv(World(Load(max, card), card), max, multiset(OnCard(card)))
  {
    hide Load, ValidEntry, Below, BelowKey, Cmp, Sorted, SortAll, DistinctSeqs, OnCard;
    var l, ts := Load(max, card), OnCard(card);
    LoadKeepsNewest(max, card);
    LoadIsReadable(max, card);
    forall x: Entry | x in multiset(ts) ensures x.seqNo < l.nextSeq {
      assert x in ts;
    }
    LoadedSplit(max, card);
  }

  lemma LoadedSplit(max: nat, card: Option<string>)
    requires max >= 2 && DistinctSeqs(multiset(OnCard(card)))
    ensures var l, ts := Load(max, card), OnCard(card);
      multiset(Below(ts, l.floor)) + multiset(l.es) == multiset(ts) && Below(l.es, l.floor) == [] && Sorted(l.es)
  {
    hide Load, Below, Cmp, Sorted, SortAll, DistinctSeqs, OnCard, Newest;
    var l, ts := Load(max, card), OnCard(card);
    LoadKeepsNewest(max, card);
    SameSize(SortAll(ts), ts);
    if |ts| > max {
      SplitFull(ts, SortAll(ts), |ts| - max);
      NewestIsTail(SortAll(ts), max);
    } else {
      NewestIsAll(SortAll(ts), max);
      BelowOfNothing(ts, None);
      BelowOfNothing(l.es, None);
    }
  }

  lemma NewestIsTail(s: seq<Entry>, max: nat)
    requires |s| > max
    ensures Newest(s, max) == s[|s| - max..]
  {
  }

  lemma NewestIsAll(s: seq<Entry>, max: nat)
    requires |s| <= max
    ensures Newest(s, max) == s
  {
  }

  lemma SplitFull(ts: seq<Entry>, s: seq<Entry>, k: nat)
    requires Sorted(s) && multiset(s) == multiset(ts) && 0 < k < |s| && DistinctSeqs(multiset(ts))
    ensures var floor := Some(KeyOf(s[k]));
      multiset(Below(ts, floor)) + multiset(s[k..]) == multiset(ts) && Below(s[k..], floor) == [] && Sorted(s[k..])
  {
    hide Below, Cmp, Sorted, DistinctSeqs;
    StrictlySorted(s, k - 1, k, multiset(ts));
    CmpAntisymmetric(KeyOf(s[k - 1]), KeyOf(s[k]));
    FloorSplits(ts, s, k);
    TailSorted(s, k);
    NoneBelowFirst(s[k..]);
    assert s == s[..k] + s[k..];
  }

  lemma TailSorted(s: seq<Entry>, k: nat)
    requires Sorted(s) && k <= |s|
    ensures Sorted(s[k..])
  {
    hide Cmp;
  }

  /** A file read back never has a seq of ten digits, so the next seq is at most the limit. */
  lemma {:induction false} NextSeqBound(max: nat, lines: seq<string>)
    requires max >= 2
    ensures TakeLines(EMPTY, max, lines).nextSeq <= SEQ_LIMIT
  {
    hide Parse, Insert, Cmp;
    if lines != [] {
      NextSeqBound(max, lines[..|lines| - 1]);
      ParsedIsValid(lines[|lines| - 1]);
    }
  }

  lemma ReloadKeeps(w: World, max: nat, all: multiset<Entry>)
    requires Inv(w, max, all)
    ensures Inv(Step(w, max, DoReload), max, all)
  {
    hide Load, ValidEntry, Below, BelowKey, Cmp, Sorted, OnCard;
    LoadBound(max, w.card);
    LoadEstablishes(max, w.card);
  }

  lemma LoadBound(max: nat, card: Option<string>)
    requires max >= 2
    ensures Load(max, card).nextSeq <= SEQ_LIMIT
  {
    if card.Some? { NextSeqBound(max, Lines(card.value)); }
  }

  // ---- every run ---------------------------------------------------------------------------

  /** What a caller checks before a command: only an add is ever limited. */
  predicate Allowed(w: World, max: nat, c: Command)
    requires Ready(w, max)
  {
    c.DoAdd? && Make(c.day, c.minute, c.level, c.area, c.note).Some? ==>
      w.log.nextSeq < SEQ_LIMIT
      && Clear(w, max, Make(c.day, c.minute, c.level, c.area, c.note).value.(seqNo := w.log.nextSeq))
  }

  /** Whether a run obeys `Allowed` at each command, starting from w. */
  predicate Lawful(w: World, max: nat, cs: seq<Command>)
    decreases |cs|
  {
    cs == [] || (Ready(w, max) && Allowed(w, max, cs[0]) && Lawful(Step(w, max, cs[0]), max, cs[1..]))
  }

  function Run(w: World, max: nat, cs: seq<Command>): World
    requires Lawful(w, max, cs)
    decreases |cs|
  {
    if cs == [] then w else Run(Step(w, max, cs[0]), max, cs[1..])
  }

  function RefRun(all: multiset<Entry>, w: World, max: nat, cs: seq<Command>): multiset<Entry>
    requires Lawful(w, max, cs)
    decreases |cs|
  {
    if cs == [] then all else RefRun(RefStep(all, w, max, cs[0]), Step(w, max, cs[0]), max, cs[1..])
  }

  lemma AddStepKeeps(w: World, max: nat, all: multiset<Entry>, c: Command)
    requires Inv(w, max, all) && c.DoAdd? && Allowed(w, max, c)
    ensures Inv(Step(w, max, c), max, RefStep(all, w, max, c))
  {
    hide Make, Save, Add, Inv, Clear;
    assert Ready(w, max) by { InvReady(w, max, all); }
    ChangeIsValid(w, max, c);
    var (log, r) := Change(w, max, c);
    if r >= 0 {
      AcceptedIsMade(w.log, max, c);
      var t := Make(c.day, c.minute, c.level, c.area, c.note).value.(seqNo := w.log.nextSeq);
      AddKeeps(w, max, all, c, log, t);
    }
  }

  lemma InvReady(w: World, max: nat, all: multiset<Entry>)
    requires Inv(w, max, all)
    ensures Ready(w, max)
  {
    hide Below, OnCard, DistinctSeqs, Readable, Sorted;
  }

  lemma AcceptedIsMade(l: Log, max: nat, c: Command)
    requires c.DoAdd? && |l.es| <= max && max >= 2
    requires Add(l, max, c.day, c.minute, c.level, c.area, c.note).1 >= 0
    ensures Make(c.day, c.minute, c.level, c.area, c.note).Some?
  {
    hide Make, Insert, Cmp;
  }

  lemma StepKeeps(w: World, max: nat, all: multiset<Entry>, c: Command)
    requires Inv(w, max, all) && Allowed(w, max, c)
    ensures Inv(Step(w, max, c), max, RefStep(all, w, max, c))
  {
    hide Inv, Step, RefStep, Allowed;
    InvReady(w, max, all);
    match c
    case DoAdd(_, _, _, _, _) => AddStepKeeps(w, max, all, c);
    case DoEdit(_, _) => EditKeeps(w, max, all, c);
    case DoNote(_, _) => NoteKeeps(w, max, all, c);
    case DoDelete(_) => DeleteKeeps(w, max, all, c);
    case DoSave => SaveKeeps(w, max, all); RefUnchanged(w, max, all, c);
    case DoReload => ReloadKeeps(w, max, all); RefUnchanged(w, max, all, c);
  }

  lemma RefUnchanged(w: World, max: nat, all: multiset<Entry>, c: Command)
    requires Ready(w, max) && (c.DoSave? || c.DoReload?)
    ensures RefStep(all, w, max, c) == all
  {
    hide Load;
  }

  lemma {:induction false} RunKeeps(w: World, max: nat, all: multiset<Entry>, cs: seq<Command>)
    requires Inv(w, max, all) && Lawful(w, max, cs)
    ensures Inv(Run(w, max, cs), max, RefRun(all, w, max, cs))
    decreases |cs|
  {
    hide Inv, Step, RefStep, Allowed;
    if cs != [] {
      StepKeeps(w, max, all, cs[0]);
      RunKeeps(Step(w, max, cs[0]), max, RefStep(all, w, max, cs[0]), cs[1..]);
    }
  }

  /** The whole promise.  Open the log on any file whose entries have distinct seqs and run any adds,
      edits, notes, deletes, saves and restarts: what the file says at the end is, entry for entry,
      what a log without a limit would hold. */
  lemma RunsRefineTheUnboundedLog(max: nat, card: Option<string>, cs: seq<Command>)
    requires max >= 2 && DistinctSeqs(multiset(OnCard(card)))
    requires Lawful(World(Load(max, card), card), max, cs)
    ensures var w := World(Load(max, card), card);
      multiset(OnCard(Run(w, max, cs).card)) == RefRun(multiset(OnCard(card)), w, max, cs)
  {
    hide Load, OnCard, Step, RefStep, Lawful, Run, RefRun;
    LoadBound(max, card);
    LoadEstablishes(max, card);
    RunKeeps(World(Load(max, card), card), max, multiset(OnCard(card)), cs);
  }
}
