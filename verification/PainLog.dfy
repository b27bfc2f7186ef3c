/** The pain log in memory and on the card: apps/pain_log.h, lines 209-370 and 608-711.

    `Log` is the value of the log's fields and the functions on it are what each operation makes of
    it; PainStore has the fixed array the source shifts in place, every method of which is shown to
    do what the function says. */
module PainLog {
  import opened Common
  import opened Str
  import opened PainText

  datatype Key = Key(day: int, minute: int, seqNo: nat)

  function KeyOf(e: Entry): Key {
    Key(e.day, e.minute, e.seqNo)
  }

  /** pain_key_cmp: day, then minute (a missing one is the largest), then seq. */
  function Cmp(a: Key, b: Key): int {
    if a.day != b.day then (if a.day < b.day then -1 else 1)
    else if a.minute != b.minute then (if a.minute < b.minute then -1 else 1)
    else if a.seqNo != b.seqNo then (if a.seqNo < b.seqNo then -1 else 1)
    else 0
  }

  predicate Leq(a: Entry, b: Entry) { Cmp(KeyOf(a), KeyOf(b)) <= 0 }

  predicate Sorted(es: seq<Entry>) {
    forall i, j :: 0 <= i < j < |es| ==> Leq(es[i], es[j])
  }

  /** `a` is of an earlier day than `b`, or of an earlier minute of the same day (with no time it is 0xFFFF,
      after all of them), or of the same minute and was logged before it. */
  predicate Earlier(a: Entry, b: Entry) {
    a.day < b.day
    || (a.day == b.day && a.minute < b.minute)
    || (a.day == b.day && a.minute == b.minute && a.seqNo < b.seqNo)
  }

  predicate Chronological(es: seq<Entry>) {
    forall i, j :: 0 <= i < j < |es| ==> !Earlier(es[j], es[i])
  }

  lemma SortedIsChronological(es: seq<Entry>)
    ensures Sorted(es) <==> Chronological(es)
  {
    forall i, j | 0 <= i < j < |es| ensures Leq(es[i], es[j]) <==> !Earlier(es[j], es[i]) { }
  }

  // ---- lists of entries --------------------------------------------------------------------

  /** How many entries come before one with key k: every entry that is not later. */
  function Upper(es: seq<Entry>, k: Key): (u: nat)
    ensures u <= |es|
    ensures forall i :: 0 <= i < u ==> Cmp(KeyOf(es[i]), k) <= 0
    ensures u < |es| ==> Cmp(KeyOf(es[u]), k) > 0
  {
    if es == [] || Cmp(KeyOf(es[0]), k) > 0 then 0 else 1 + Upper(es[1..], k)
  }

  function InsertAt(es: seq<Entry>, at: nat, t: Entry): seq<Entry>
    requires at <= |es|
  {
    es[..at] + [t] + es[at..]
  }

  function RemoveAt(es: seq<Entry>, i: nat): seq<Entry>
    requires i < |es|
  {
    es[..i] + es[i + 1..]
  }

  function Insert(es: seq<Entry>, t: Entry): seq<Entry> {
    InsertAt(es, Upper(es, KeyOf(t)), t)
  }

  lemma UpperUnique(es: seq<Entry>, k: Key, u: nat)
    requires Sorted(es) && u <= |es|
    requires forall i :: 0 <= i < u ==> Cmp(KeyOf(es[i]), k) <= 0
    requires forall i :: u <= i < |es| ==> Cmp(KeyOf(es[i]), k) > 0
    ensures Upper(es, k) == u
  {
    var w := Upper(es, k);
    if u < |es| { var e := es[u]; }
    if w < |es| { var e := es[w]; }
  }

  lemma CmpTransitive(a: Key, b: Key, c: Key)
    requires Cmp(a, b) <= 0 && Cmp(b, c) <= 0
    ensures Cmp(a, c) <= 0
    ensures Cmp(a, b) < 0 || Cmp(b, c) < 0 ==> Cmp(a, c) < 0
  {
  }

  lemma CmpAntisymmetric(a: Key, b: Key)
    ensures Cmp(a, b) == -Cmp(b, a)
    ensures Cmp(a, b) == 0 <==> a == b
  {
  }

  lemma UpperSplits(es: seq<Entry>, k: Key)
    requires Sorted(es)
    ensures forall i :: Upper(es, k) <= i < |es| ==> Cmp(k, KeyOf(es[i])) < 0
  {
    var u := Upper(es, k);
    forall i | u <= i < |es| ensures Cmp(k, KeyOf(es[i])) < 0 {
      if i > u {
        assert Leq(es[u], es[i]);
        CmpTransitive(k, KeyOf(es[u]), KeyOf(es[i]));
      }
    }
  }

  lemma InsertSorted(es: seq<Entry>, t: Entry)
    requires Sorted(es)
    ensures Sorted(Insert(es, t))
  {
    hide Cmp, Upper;
    var u, r := Upper(es, KeyOf(t)), Insert(es, t);
    UpperSplits(es, KeyOf(t));
    forall i | u <= i < |es| ensures Leq(t, es[i]) { }
    forall i | 0 <= i < u ensures Leq(es[i], t) { }
    forall i, j | 0 <= i < j < |r| ensures Leq(r[i], r[j]) {
      assert r[i] == if i < u then es[i] else if i == u then t else es[i - 1];
      assert r[j] == if j < u then es[j] else if j == u then t else es[j - 1];
    }
  }

  lemma InsertContents(es: seq<Entry>, t: Entry)
    ensures multiset(Insert(es, t)) == multiset(es) + multiset{t}
  {
    var u := Upper(es, KeyOf(t));
    assert es == es[..u] + es[u..];
  }

  lemma RemoveContents(es: seq<Entry>, i: nat)
    requires i < |es|
    ensures multiset(RemoveAt(es, i)) == multiset(es) - multiset{es[i]}
    ensures multiset(es) == multiset(RemoveAt(es, i)) + multiset{es[i]}
  {
    var a, b := es[..i], es[i + 1..];
    assert es == a + [es[i]] + b;
    assert multiset(es) == multiset(a) + multiset{es[i]} + multiset(b);
  }

  lemma SortedSubset(es: seq<Entry>, i: nat)
    requires Sorted(es) && i < |es|
    ensures Sorted(RemoveAt(es, i))
  {
    hide Cmp;
    var r := RemoveAt(es, i);
    forall j, k | 0 <= j < k < |r| ensures Leq(r[j], r[k]) {
      assert r[j] == es[if j < i then j else j + 1] && r[k] == es[if k < i then k else k + 1];
    }
  }

  // ---- the operations ----------------------------------------------------------------------

  datatype Log = Log(es: seq<Entry>, nextSeq: nat, skipped: nat, older: nat, floor: Option<Key>)

  const EMPTY: Log := Log([], 1, 0, 0, None)

  const OK: int := 0
  const E_ARG: int := -1
  const E_OLD: int := -2

  function RaiseFloor(l: Log): Log {
    if l.es == [] then l else l.(floor := Some(KeyOf(l.es[0])))
  }

  predicate BelowKey(e: Entry, floor: Option<Key>) {
    floor.Some? && Cmp(KeyOf(e), floor.value) < 0
  }

  /** pain_add on a log of at most `max` entries: the log after, and the index or the error. */
  function Add(l: Log, max: nat, day: int, minute: int, level: int, area: int, note: string): (Log, int)
    requires |l.es| <= max && max >= 2
  {
    var made := Make(day, minute, level, area, note);
    if made.None? then (l, E_ARG)
    else
      var t := made.value.(seqNo := l.nextSeq);
      if BelowKey(t, l.floor) then (l, E_OLD)
      else if |l.es| >= max && !Leq(l.es[0], t) then (l, E_OLD)
      else
        var m := if |l.es| >= max then Retire(l) else l;
        (m.(es := Insert(m.es, t), nextSeq := m.nextSeq + 1), Upper(m.es, KeyOf(t)))
  }

  /** The oldest entry in memory goes to the card, and the floor comes up to the next. */
  function Retire(l: Log): Log
    requires |l.es| > 0
  {
    RaiseFloor(l.(es := RemoveAt(l.es, 0), older := l.older + 1))
  }

  /** pain_edit: `with` carries the new day, minute, level, area and note. */
  function Edit(l: Log, idx: int, with: Entry): (Log, int) {
    if idx < 0 || idx >= |l.es| then (l, E_ARG)
    else
      var made := Make(with.day, with.minute, with.level, with.area, with.note);
      if made.None? then (l, E_ARG)
      else
        var t := made.value.(seqNo := l.es[idx].seqNo);
        if BelowKey(t, l.floor) then (l, E_OLD)
        else
          var rest := RemoveAt(l.es, idx);
          (l.(es := Insert(rest, t)), Upper(rest, KeyOf(t)))
  }

  function SetNote(l: Log, idx: int, note: string): (Log, int) {
    if idx < 0 || idx >= |l.es| then (l, E_ARG)
    else (l.(es := l.es[idx := l.es[idx].(note := Clean(note))]), OK)
  }

  function Delete(l: Log, idx: int): (Log, int) {
    if idx < 0 || idx >= |l.es| then (l, E_ARG) else (l.(es := RemoveAt(l.es, idx)), OK)
  }

  // ---- the card ----------------------------------------------------------------------------

  /** pain_take_line: one line of the file into the log. */
  function TakeLine(l: Log, max: nat, line: string): Log
    requires max >= 2
  {
    if line == "" then l
    else
      var t := Parse(line);
      if t.None? then l.(skipped := l.skipped + 1) else TakeEntry(l, max, t.value)
  }

  function TakeEntry(l: Log, max: nat, t: Entry): Log
    requires max >= 2
  {
    var m := if t.seqNo >= l.nextSeq then l.(nextSeq := t.seqNo + 1) else l;
    if |m.es| >= max then
      if !Leq(m.es[0], t) then m.(older := m.older + 1)
      else m.(older := m.older + 1, es := Insert(RemoveAt(m.es, 0), t))
    else m.(es := Insert(m.es, t))
  }

  function TakeLines(l: Log, max: nat, lines: seq<string>): Log
    requires max >= 2
  {
    if lines == [] then l else TakeLine(TakeLines(l, max, lines[..|lines| - 1]), max, lines[|lines| - 1])
  }

  /** pain_load: `card` is the text of the file, None when there is none. */
  function Load(max: nat, card: Option<string>): Log
    requires max >= 2
  {
    if card.None? then EMPTY
    else
      var l := TakeLines(EMPTY, max, Lines(card.value));
      if l.older > 0 then RaiseFloor(l) else l
  }

  function Saved(e: Entry): string
    requires ValidEntry(e)
  {
    FormatLine(e) + "\n"
  }

  /** pain_carry_line: the line of an entry below the floor, as it was. */
  function CarryLine(floor: Key, line: string): string {
    var t := Parse(line);
    if t.None? || Cmp(KeyOf(t.value), floor) >= 0 then ""
    else ParsedIsValid(line); Saved(t.value)
  }

  function CarryLines(floor: Key, lines: seq<string>): string {
    if lines == [] then ""
    else CarryLines(floor, lines[..|lines| - 1]) + CarryLine(floor, lines[|lines| - 1])
  }

  predicate AllValid(es: seq<Entry>) {
    forall i :: 0 <= i < |es| ==> ValidEntry(es[i]) && es[i].seqNo < 0x1_0000_0000
  }

  function SaveEntries(es: seq<Entry>): string
    requires AllValid(es)
  {
    if es == [] then "" else SaveEntries(es[..|es| - 1]) + Saved(es[|es| - 1])
  }

  /** pain_save: the text that replaces the file. */
  function Save(l: Log, card: Option<string>): string
    requires AllValid(l.es)
  {
    (if l.floor.Some? && card.Some? then CarryLines(l.floor.value, Lines(card.value)) else "")
    + SaveEntries(l.es)
  }
}
