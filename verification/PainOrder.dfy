/** The order of the pain log in terms of the day, minute and seq of its entries: what Add, Edit and Load
    leave where (apps/pain_log.h, lines 215-355 and 608-660). */
module PainOrder {
  import opened Common
  import opened Str
  import opened PainText
  import opened PainLog
  import opened PainRuns

  /** The entry a person asked for: no time when the minute is none of the day or there is no day. */
  predicate IsEntryOf(t: Entry, day: int, minute: int, level: int, area: int, note: string, seqNo: nat) {
    t.day == day && t.level == level && t.area == area && t.seqNo == seqNo && t.note == Clean(note)
    && t.minute == if day != 0 && 0 <= minute < 24 * 60 then minute else 0xFFFF
  }

  /** `es'` is `es` with `t` at index r, where it comes after every entry that is not later. */
  predicate PutInOrder(es: seq<Entry>, es': seq<Entry>, t: Entry, r: int) {
    0 <= r <= |es| && es' == es[..r] + [t] + es[r..]
    && (forall i :: 0 <= i < r ==> !Earlier(t, es[i]))
    && (forall i :: r <= i < |es| ==> Earlier(t, es[i]))
  }

  predicate Acceptable(day: int, level: int, area: int) {
    0 <= day <= 2932896 && 0 <= level <= 10 && 0 <= area < 4
  }

  /** Below the oldest entry that was ever retired from memory: the floor, in terms of its fields. */
  predicate BelowFloor(t: Entry, floor: Option<Key>) {
    floor.Some? && Earlier(t, t.(day := floor.value.day, minute := floor.value.minute, seqNo := floor.value.seqNo))
  }

  lemma CmpIsEarlier(a: Entry, b: Entry)
    ensures Cmp(KeyOf(a), KeyOf(b)) < 0 <==> Earlier(a, b)
    ensures Cmp(KeyOf(a), KeyOf(b)) > 0 <==> Earlier(b, a)
    ensures Leq(a, b) <==> !Earlier(b, a)
  {
  }

  lemma BelowKeyIsBelowFloor(t: Entry, floor: Option<Key>)
    ensures BelowKey(t, floor) <==> BelowFloor(t, floor)
  {
  }

  /** The order the log sorts by, in terms of the fields: what is kept sorted runs by day, then by minute,
      then by seq. */
  lemma SortedByDayMinuteSeq(es: seq<Entry>)
    ensures Sorted(es) <==> forall i, j :: 0 <= i < j < |es| ==>
      es[i].day < es[j].day
      || (es[i].day == es[j].day && es[i].minute < es[j].minute)
      || (es[i].day == es[j].day && es[i].minute == es[j].minute && es[i].seqNo <= es[j].seqNo)
  {
    forall i, j | 0 <= i < j < |es| ensures Leq(es[i], es[j]) <==> !Earlier(es[j], es[i]) { }
  }

  lemma PutsInOrder(es: seq<Entry>, t: Entry)
    requires Chronological(es)
    ensures PutInOrder(es, Insert(es, t), t, Upper(es, KeyOf(t))) && Chronological(Insert(es, t))
  {
    hide Cmp, Upper, Earlier, Sorted, Chronological;
    SortedIsChronological(es);
    InsertSorted(es, t);
    SortedIsChronological(Insert(es, t));
    UpperSplits(es, KeyOf(t));
    var u := Upper(es, KeyOf(t));
    forall i | 0 <= i < |es| ensures if i < u then !Earlier(t, es[i]) else Earlier(t, es[i]) {
      UpperHolds(es, KeyOf(t));
      CmpIsEarlier(es[i], t);
      CmpIsEarlier(t, es[i]);
    }
  }

  lemma UpperHolds(es: seq<Entry>, k: Key)
    ensures Upper(es, k) <= |es| && forall i :: 0 <= i < Upper(es, k) ==> Cmp(KeyOf(es[i]), k) <= 0
  {
  }

  lemma TailIsChronological(es: seq<Entry>)
    requires Chronological(es) && es != []
    ensures Chronological(es[1..])
  {
    hide Earlier;
  }

  /** pain_add in those terms, `t` being the entry asked for: when it refuses, and where the entry goes
      otherwise.  In a full log the first entry makes room, and none that is kept, the new one included, is
      earlier than it. */
  lemma AddIsInOrder(l: Log, max: nat, day: int, minute: int, level: int, area: int, note: string, t: Entry)
    requires |l.es| <= max && max >= 2 && Chronological(l.es)
    requires IsEntryOf(t, day, minute, level, area, note, l.nextSeq)
    ensures var (m, r) := Add(l, max, day, minute, level, area, note);
      Chronological(m.es)
      && (r < 0 ==> m == l)
      && (r == E_ARG <==> !Acceptable(day, level, area))
      && (r == E_OLD <==> Acceptable(day, level, area)
                          && (BelowFloor(t, l.floor) || (|l.es| == max && Earlier(t, l.es[0]))))
      && (r == E_ARG || r == E_OLD || (0 <= r < |m.es| && m.es[r] == t))
      && (r >= 0 && |l.es| < max ==>
            PutInOrder(l.es, m.es, t, r) && m == l.(es := m.es, nextSeq := l.nextSeq + 1))
      && (r >= 0 && |l.es| == max ==>
            PutInOrder(l.es[1..], m.es, t, r)
            && m == l.(es := m.es, nextSeq := l.nextSeq + 1, older := l.older + 1,
                       floor := Some(Key(l.es[1].day, l.es[1].minute, l.es[1].seqNo)))
            && forall i :: 0 <= i < |m.es| ==> !Earlier(m.es[i], l.es[0]))
  {
    hide Cmp, Upper, Earlier, Insert, Chronological, BelowKey, BelowFloor, Clean, Retire;
    BelowKeyIsBelowFloor(t, l.floor);
    if !Acceptable(day, level, area) { return; }
    assert Make(day, minute, level, area, note) == Some(t.(seqNo := 0));
    assert t.(seqNo := 0).(seqNo := l.nextSeq) == t;
    if |l.es| < max {
      PutsInOrder(l.es, t);
    } else {
      CmpIsEarlier(l.es[0], t);
      TailIsChronological(l.es);
      PutsInOrder(l.es[1..], t);
      RetiresTheFirst(l);
      FirstIsEarliest(l.es);
      var (m, r) := Add(l, max, day, minute, level, area, note);
      if r >= 0 {
        forall i | 0 <= i < |m.es| ensures !Earlier(m.es[i], l.es[0]) {
          assert m.es[i] == t || m.es[i] in l.es[1..];
        }
      }
    }
  }

  lemma RetiresTheFirst(l: Log)
    requires |l.es| >= 2
    ensures Retire(l) == l.(es := l.es[1..], older := l.older + 1,
                            floor := Some(Key(l.es[1].day, l.es[1].minute, l.es[1].seqNo)))
  {
    assert RemoveAt(l.es, 0) == l.es[1..];
  }

  lemma FirstIsEarliest(es: seq<Entry>)
    requires Chronological(es) && es != []
    ensures forall x :: x in es[1..] ==> !Earlier(x, es[0])
  {
    hide Earlier;
  }

  /** pain_edit in those terms: the entry leaves its place and is put in order among the others. */
  lemma EditIsInOrder(l: Log, idx: int, with: Entry, t: Entry)
    requires Chronological(l.es)
    requires 0 <= idx < |l.es| ==>
      IsEntryOf(t, with.day, with.minute, with.level, with.area, with.note, l.es[idx].seqNo)
    ensures var (m, r) := Edit(l, idx, with);
      Chronological(m.es)
      && (r < 0 ==> m == l)
      && (r == E_ARG <==> !(0 <= idx < |l.es| && Acceptable(with.day, with.level, with.area)))
      && (r == E_OLD <==> r != E_ARG && BelowFloor(t, l.floor))
      && (r == E_ARG || r == E_OLD
          || (0 <= r < |m.es| && m.es[r] == t && m == l.(es := m.es)
              && PutInOrder(l.es[..idx] + l.es[idx + 1..], m.es, t, r)))
  {
    hide Cmp, Upper, Earlier, Insert, Chronological, BelowKey, BelowFloor, Clean;
    if 0 <= idx < |l.es| && Acceptable(with.day, with.level, with.area) {
      BelowKeyIsBelowFloor(t, l.floor);
      assert Make(with.day, with.minute, with.level, with.area, with.note) == Some(t.(seqNo := 0));
      assert t.(seqNo := 0).(seqNo := l.es[idx].seqNo) == t;
      RemovesInOrder(l.es, idx);
      PutsInOrder(l.es[..idx] + l.es[idx + 1..], t);
    }
  }

  lemma RemovesInOrder(es: seq<Entry>, idx: nat)
    requires Chronological(es) && idx < |es|
    ensures Chronological(es[..idx] + es[idx + 1..])
  {
    SortedIsChronological(es);
    SortedSubset(es, idx);
    SortedIsChronological(RemoveAt(es, idx));
  }

  /** pain_set_note and pain_delete: the index is one of the log or nothing changes; then that note alone is the
      text cleaned, or that entry alone goes, and the order is kept. */
  lemma NoteAndDelete(l: Log, idx: int, note: string)
    requires Chronological(l.es)
    ensures var (m, r) := SetNote(l, idx, note);
      r == (if 0 <= idx < |l.es| then 0 else -1) && (r < 0 ==> m == l) && Chronological(m.es)
      && (r == 0 ==> m == l.(es := m.es) && |m.es| == |l.es|
                     && forall i :: 0 <= i < |m.es| ==>
                          m.es[i] == if i == idx then l.es[i].(note := Clean(note)) else l.es[i])
    ensures var (m, r) := Delete(l, idx);
      r == (if 0 <= idx < |l.es| then 0 else -1) && (r < 0 ==> m == l) && Chronological(m.es)
      && (r == 0 ==> m == l.(es := l.es[..idx] + l.es[idx + 1..]))
  {
    hide Clean;
    if 0 <= idx < |l.es| { RemovesInOrder(l.es, idx); }
  }

  lemma NewestChronological(s: seq<Entry>, k: nat)
    requires Chronological(s) && k <= |s|
    ensures Chronological(s[k..])
    ensures forall x, y :: x in s[..k] && y in s[k..] ==> !Earlier(y, x)
  {
    hide Earlier;
  }

  function Unreadable(lines: seq<string>): nat {
    if lines == [] then 0
    else
      var last := lines[|lines| - 1];
      Unreadable(lines[..|lines| - 1]) + if last != "" && Parse(last).None? then 1 else 0
  }

  lemma {:induction false} CountsSkipped(max: nat, lines: seq<string>)
    requires max >= 2
    ensures TakeLines(EMPTY, max, lines).skipped == Unreadable(lines)
  {
    hide Parse, Insert;
    if lines != [] { CountsSkipped(max, lines[..|lines| - 1]); }
  }

  /** `kept` and `gone` are the entries `all`, and none of `gone` is later than one of `kept`. */
  predicate Splits(all: seq<Entry>, gone: seq<Entry>, kept: seq<Entry>) {
    multiset(all) == multiset(gone) + multiset(kept)
    && forall x, y :: x in gone && y in kept ==> !Earlier(y, x)
  }

  lemma LoadedInOrder(max: nat, card: Option<string>) returns (gone: seq<Entry>)
    requires max >= 2
    ensures var l := Load(max, card);
      Chronological(l.es) && |l.es| <= max && Splits(OnCard(card), gone, l.es)
      && |gone| == l.older && (gone != [] ==> |l.es| == max)
  {
    hide Load, Sorted, Chronological, Earlier, SortAll, OnCard;
    LoadKeepsNewest(max, card);
    var l, s := Load(max, card), SortAll(OnCard(card));
    SortedIsChronological(s);
    SameSize(s, OnCard(card));
    var k := if |s| <= max then 0 else |s| - max;
    NewestChronological(s, k);
    assert s == s[..k] + s[k..];
    assert l.es == s[k..];
    gone := s[..k];
  }

  /** pain_load in those terms: the entries kept are in order, they and those left out are the entries of
      the file, none left out is later than any kept, the floor is the first one kept if any was left out,
      and a line that is not blank and cannot be read is counted as skipped. */
  lemma LoadIsInOrder(max: nat, card: Option<string>)
    requires max >= 2
    ensures var l := Load(max, card);
      Chronological(l.es) && |l.es| <= max
      && (exists gone: seq<Entry> ::
            Splits(OnCard(card), gone, l.es) && |gone| == l.older && (gone != [] ==> |l.es| == max))
      && l.floor == (if l.older > 0 then Some(Key(l.es[0].day, l.es[0].minute, l.es[0].seqNo)) else None)
      && l.skipped == (if card.None? then 0 else Unreadable(Lines(card.value)))
  {
    hide TakeLines, Unreadable, Splits, Chronological, OnCard, SortAll, Sorted, Newest;
    if card.Some? { CountsSkipped(max, Lines(card.value)); }
    var gone := LoadedInOrder(max, card);
    LoadKeepsNewest(max, card);
  }

  /** A log of two, filled at ten, then at nine, then with no time, all on one day: the later call goes
      first, and the entry with no time last, in the place of the earliest. */
  lemma ADayInOrder()
    ensures var (a, r) := Add(EMPTY, 2, 5, 600, 4, 0, "");
      var (b, r') := Add(a, 2, 5, 540, 4, 0, "");
      var (c, r'') := Add(b, 2, 5, -1, 4, 0, "");
      a.es == [Entry(5, 600, 4, 0, 1, "")] && r == 0
      && b.es == [Entry(5, 540, 4, 0, 2, ""), Entry(5, 600, 4, 0, 1, "")] && r' == 0
      && c.es == [Entry(5, 600, 4, 0, 1, ""), Entry(5, 0xFFFF, 4, 0, 3, "")] && r'' == 1 && c.older == 1
  {
    assert Clean("") == "";
    var x, y, z := Entry(5, 600, 4, 0, 1, ""), Entry(5, 540, 4, 0, 2, ""), Entry(5, 0xFFFF, 4, 0, 3, "");
    assert Insert([], x) == [x];
    assert Upper([x], KeyOf(y)) == 0 && Insert([x], y) == [y, x];
    assert RemoveAt([y, x], 0) == [x];
    assert Upper([x], KeyOf(z)) == 1 && Insert([x], z) == [x, z];
  }
}
