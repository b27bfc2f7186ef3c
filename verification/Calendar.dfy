/** Calendar's list of events and its offline queue: apps/calendar.c, lines 376-386, 519-537, 614-676,
    683-893 and 896-1028.

    The functions say what each call of the source does to the list; CalendarStore is the same calls
    on an array, and CalendarRuns is what holds however they are interleaved. */
module Calendar {
  import opened Common
  import opened Str

  const MAX_EVENTS: nat := 40
  const SUMMARY_MAX: nat := 34
  const ID_MAX: nat := 16
  const DAY_SECS: int := 86400

  /** An event, with the source's flags.  The `tag` is not in the source: it tells one event from
      another wherever it is moved to, and nothing below decides anything by it. */
  datatype Event = Event(
    tag: nat, id: string, summary: string, start: nat, end: nat, allDay: bool,
    dirty: bool, deleted: bool, sending: bool, editing: bool, asking: bool, remind: int)

  datatype Stage = Idle | Pushing | Fetching

  /** The list and what goes with it: the zone offset, the edit form, the sync's stage. */
  datatype Calendar = Calendar(
    ev: seq<Event>, stage: Stage, offset: int, haveClock: bool, formEdit: bool, editId: string, next: nat)

  /** A uint32_t, and one cast to int32_t. */
  function Word(x: int): nat { x % 0x1_0000_0000 }
  function Signed(x: nat): int { if x < 0x8000_0000 then x else x - 0x1_0000_0000 }

  // ---- the list in order: sort_events ------------------------------------------------------

  function Key(e: Event, offset: int): int {
    if e.allDay then Signed(e.start) - offset else Signed(e.start)
  }

  /** e slid down past every event whose key is greater. */
  function Slide(s: seq<Event>, e: Event, offset: int): seq<Event> {
    if s == [] || Key(s[|s| - 1], offset) <= Key(e, offset) then s + [e]
    else Slide(s[..|s| - 1], e, offset) + [s[|s| - 1]]
  }

  function Sort(s: seq<Event>, offset: int): (r: seq<Event>)
    ensures |r| == |s|
  {
    if s == [] then [] else (
      SlideLength(Sort(s[..|s| - 1], offset), s[|s| - 1], offset);
      Slide(Sort(s[..|s| - 1], offset), s[|s| - 1], offset))
  }

  lemma {:induction false} SlideLength(s: seq<Event>, e: Event, offset: int)
    ensures |Slide(s, e, offset)| == |s| + 1
  {
    if s != [] && Key(s[|s| - 1], offset) > Key(e, offset) { SlideLength(s[..|s| - 1], e, offset); }
  }

  predicate Ordered(s: seq<Event>, offset: int) {
    forall i, j :: 0 <= i < j < |s| ==> Key(s[i], offset) <= Key(s[j], offset)
  }

  /** The events with one key, in the order they are in. */
  function WithKey(s: seq<Event>, k: int, offset: int): seq<Event> {
    if s == [] then []
    else WithKey(s[..|s| - 1], k, offset) + if Key(s[|s| - 1], offset) == k then [s[|s| - 1]] else []
  }

  lemma {:induction false} SlideKeeps(s: seq<Event>, e: Event, offset: int)
    ensures multiset(Slide(s, e, offset)) == multiset(s) + multiset{e}
  {
    hide Key;
    if s != [] && Key(s[|s| - 1], offset) > Key(e, offset) {
      SlideKeeps(s[..|s| - 1], e, offset);
      assert s == s[..|s| - 1] + [s[|s| - 1]];
    }
  }

  lemma {:induction false} SlideOrders(s: seq<Event>, e: Event, offset: int)
    requires Ordered(s, offset)
    ensures Ordered(Slide(s, e, offset), offset)
  {
    hide Key;
    if s != [] && Key(s[|s| - 1], offset) > Key(e, offset) {
      var front, last := s[..|s| - 1], s[|s| - 1];
      SlideOrders(front, e, offset);
      SlideKeeps(front, e, offset);
      var r := Slide(front, e, offset);
      forall i | 0 <= i < |r| ensures Key(r[i], offset) <= Key(last, offset) {
        assert r[i] in multiset(r);
        assert r[i] == e || r[i] in front;
      }
    }
  }

  lemma {:induction false} SlideIsStable(s: seq<Event>, e: Event, k: int, offset: int)
    requires Ordered(s, offset)
    ensures WithKey(Slide(s, e, offset), k, offset) == WithKey(s + [e], k, offset)
  {
    hide Key;
    assert (s + [e])[..|s|] == s;
    if s != [] && Key(s[|s| - 1], offset) > Key(e, offset) {
      var front, last := s[..|s| - 1], s[|s| - 1];
      var r := Slide(front, e, offset);
      assert Slide(s, e, offset)[..|r|] == r;
      SlideIsStable(front, e, k, offset);
      assert (front + [e])[..|front|] == front;
    }
  }

  /** The sort is one: in order, the same events, and those of one key as they were. */
  lemma {:induction false} SortIsStable(s: seq<Event>, k: int, offset: int)
    ensures Ordered(Sort(s, offset), offset) && multiset(Sort(s, offset)) == multiset(s)
    ensures WithKey(Sort(s, offset), k, offset) == WithKey(s, k, offset)
  {
    hide Key, Ordered, Slide;
    if s == [] {
      OrderedWhenEmpty(offset);
    } else {
      var front, last := s[..|s| - 1], s[|s| - 1];
      assert s == front + [last];
      SortIsStable(front, k, offset);
      var sorted := Sort(front, offset);
      SlideKeeps(sorted, last, offset);
      SlideOrders(sorted, last, offset);
      SlideIsStable(sorted, last, k, offset);
      assert (sorted + [last])[..|sorted|] == sorted;
    }
  }

  lemma OrderedWhenEmpty(offset: int)
    ensures Ordered([], offset)
  {
  }

  /** What is in order already stays as it is. */
  lemma {:induction false} SortOfOrdered(s: seq<Event>, offset: int)
    requires Ordered(s, offset)
    ensures Sort(s, offset) == s
  {
    if s != [] {
      SortOfOrdered(s[..|s| - 1], offset);
      assert s == s[..|s| - 1] + [s[|s| - 1]];
    }
  }

  // ---- finding and marking -----------------------------------------------------------------

  predicate IsUnsent(e: Event) { e.dirty && !e.deleted }
  predicate IsSending(e: Event) { e.sending }
  predicate IsEditing(e: Event) { e.editing }
  predicate IsAsking(e: Event) { e.asking }

  /** The index of the first event with the property, or -1. */
  function First(s: seq<Event>, p: Event -> bool): (i: int)
    ensures -1 <= i < |s|
    ensures i >= 0 ==> p(s[i]) && forall j :: 0 <= j < i ==> !p(s[j])
    ensures i < 0 ==> forall j :: 0 <= j < |s| ==> !p(s[j])
  {
    if s == [] then -1
    else
      var i := First(s[..|s| - 1], p);
      assert forall j :: 0 <= j < |s| - 1 ==> s[..|s| - 1][j] == s[j];
      if i >= 0 then i else if p(s[|s| - 1]) then |s| - 1 else -1
  }

  function MarkSending(s: seq<Event>, i: int): seq<Event> {
    seq(|s|, j requires 0 <= j < |s| => s[j].(sending := j == i))
  }

  function MarkEditing(s: seq<Event>, i: int): seq<Event> {
    seq(|s|, j requires 0 <= j < |s| => s[j].(editing := j == i))
  }

  function MarkAsking(s: seq<Event>, i: int): seq<Event> {
    seq(|s|, j requires 0 <= j < |s| => s[j].(asking := j == i))
  }

  /** The events not yet pushed, in order: what the first loop of absorb keeps. */
  function Queued(s: seq<Event>): (r: seq<Event>)
    ensures |r| <= |s|
  {
    if s == [] then [] else Queued(s[..|s| - 1]) + if s[|s| - 1].dirty then [s[|s| - 1]] else []
  }

  // ---- a fetch: absorb ---------------------------------------------------------------------

  /** A line of the server's reply, split and its dates read.  A date that cannot be read is 0, and a
      line of fewer than four fields is Short. */
  datatype Line = Short | Line(id: string, summary: string, start: nat, end: nat, allDay: bool, remind: int)

  predicate KeptId(kept: seq<Event>, id: string) {
    exists i :: 0 <= i < |kept| && kept[i].id != "" && kept[i].id == id
  }

  /** The event a line makes beside the events kept. */
  function Fetched(l: Line, kept: seq<Event>, formEdit: bool, editId: string, tag: nat): Event
    requires l.Line?
  {
    var cut := Cut(l.id, ID_MAX - 1);
    var id := if cut != "" && KeptId(kept, cut) then "" else cut;
    var summary := Cut(if l.summary != "" then l.summary else "(no title)", SUMMARY_MAX);
    Event(tag, id, summary, l.start, if l.end == 0 then Word(l.start + 3600) else l.end, l.allDay,
          false, false, false, id != "" && formEdit && editId != "" && id == editId, false, l.remind)
  }

  predicate Listed(e: Event) { e.id != "" && e.start != 0 }

  /** The events the reply adds to those kept and those it has added already. */
  function Take(kept: seq<Event>, got: seq<Event>, reply: seq<Line>, formEdit: bool, editId: string, tag: nat)
    : seq<Event>
    decreases |reply|
  {
    if |kept| + |got| >= MAX_EVENTS || reply == [] || reply[0].Short? then got
    else
      var e := Fetched(reply[0], kept, formEdit, editId, tag + |got|);
      Take(kept, if Listed(e) then got + [e] else got, reply[1..], formEdit, editId, tag)
  }

  function Absorb(c: Calendar, reply: seq<Line>): Calendar {
    var kept := Queued(c.ev);
    var got := Take(kept, [], reply, c.formEdit, c.editId, c.next);
    c.(ev := Sort(kept + got, c.offset), next := c.next + |got|)
  }

  // ---- the sync: sync_begin, sync_tick -----------------------------------------------------

  /** What a push sends of an event, and which event it was. */
  datatype Content = Content(tag: nat, id: string, summary: string, start: nat, end: nat, allDay: bool)

  function ContentOf(e: Event): Content {
    Content(e.tag, e.id, e.summary, e.start, e.end, e.allDay)
  }

  /** A request: one event to the server, or the whole calendar from it. */
  datatype Request = Post(what: Content) | Get

  /** The next request of a sync: a push of the first event unsent, else the fetch.  The HTTP task
      may refuse it, and then the sync is over. */
  function SendNext(c: Calendar, accepted: bool): (Calendar, Option<Request>) {
    var i := First(c.ev, IsUnsent);
    if !accepted then (c.(stage := Idle), None)
    else if i >= 0 then (c.(ev := MarkSending(c.ev, i), stage := Pushing), Some(Post(ContentOf(c.ev[i]))))
    else (c.(stage := Fetching), Some(Get))
  }

  /** sync_begin.  `clock` is the zone offset, should the clock have come by now. */
  function SyncBegin(c: Calendar, netReady: bool, clock: Option<int>, accepted: bool): (Calendar, Option<Request>) {
    if c.stage != Idle || !netReady then (c, None)
    else
      var d := if !c.haveClock && clock.Some? then c.(haveClock := true, offset := clock.value) else c;
      if !d.haveClock then (d, None) else SendNext(d, accepted)
  }

  /** A refusal of an edit that it is no use repeating. */
  predicate Final(n: int) { n == -404 || n == -410 || n == -400 }

  /** The event being sent has been answered for: it is no longer queued. */
  function Answered(c: Calendar): Calendar {
    var i := First(c.ev, IsSending);
    if i < 0 then c else c.(ev := c.ev[i := c.ev[i].(dirty := false, sending := false)])
  }

  /** sync_tick, on an answer n: below zero a failure. */
  function SyncTick(c: Calendar, n: int, reply: seq<Line>, accepted: bool): (Calendar, Option<Request>) {
    if c.stage == Idle then (c, None)
    else if c.stage == Fetching then
      (if n < 0 then c.(stage := Idle) else Absorb(c, reply).(stage := Idle), None)
    else
      var i := First(c.ev, IsSending);
      if n >= 0 then SendNext(Answered(c), accepted)
      else if Final(n) && i >= 0 && c.ev[i].id != "" then SendNext(Answered(Answered(c)), accepted)
      else (c.(stage := Idle), None)
  }

  // ---- adding, editing, deleting -----------------------------------------------------------

  /** When a day and time of the local clock are. */
  function Instant(day: int, hour: int, minute: int, offset: int): nat {
    Word(day * DAY_SECS + hour * 3600 + minute * 60 - offset)
  }

  function Unquoted(s: string): (r: string)
    ensures |r| == |s|
  {
    seq(|s|, i requires 0 <= i < |s| => if s[i] == '"' || s[i] == '\\' then '\'' else s[i])
  }

  function Added(c: Calendar, title: string, day: int, hour: int, minute: int): Event {
    var start := Instant(day, hour, minute, c.offset);
    Event(c.next, "", Unquoted(Cut(title, SUMMARY_MAX)), start, Word(start + 3600), false,
          true, false, false, false, false, 0)
  }

  /** add_event: the new list and 0, or -1 when it is full. */
  function Add(c: Calendar, title: string, day: int, hour: int, minute: int): (Calendar, int) {
    if |c.ev| >= MAX_EVENTS then (c, -1)
    else (c.(ev := Sort(c.ev + [Added(c, title, day, hour, minute)], c.offset), next := c.next + 1), 0)
  }

  function ClearEditing(c: Calendar): Calendar {
    c.(ev := MarkEditing(c.ev, -1), formEdit := false, editId := "")
  }

  /** begin_edit: the form is opened on event i. */
  function BeginEdit(c: Calendar, i: int): (Calendar, int) {
    if i < 0 || i >= |c.ev| || c.ev[i].deleted then (c, -1)
    else (c.(ev := MarkEditing(c.ev, i), formEdit := true, editId := c.ev[i].id), 0)
  }

  /** What the form holds. */
  datatype Draft = Draft(title: string, day: int, hour: int, minute: int)

  /** The event with what the form says, and as long as it was. */
  function Edited(e: Event, d: Draft, offset: int): Event {
    var len := if e.end > e.start then e.end - e.start else if e.allDay then DAY_SECS else 3600;
    var start := if e.allDay then Word(d.day * DAY_SECS) else Instant(d.day, d.hour, d.minute, offset);
    e.(summary := Cut(d.title, SUMMARY_MAX), start := start, end := Word(start + len), dirty := true)
  }

  /** Moving a two-hour meeting does not make it an hour: in seconds modulo 2^32 the event is as long
      as it was, and it is the same event to the server. */
  lemma EditKeepsLength(e: Event, d: Draft, offset: int)
    requires e.start < e.end < 0x1_0000_0000
    ensures var r := Edited(e, d, offset);
      Word(r.end - r.start) == e.end - e.start && r.dirty && r.tag == e.tag && r.id == e.id && r.allDay == e.allDay
  {
    hide Instant;
    var start, len := Edited(e, d, offset).start, e.end - e.start;
    var k := (start + len) / 0x1_0000_0000;
    assert Word(start + len) == start + len - 0x1_0000_0000 * k;
    assert Word(len - 0x1_0000_0000 * k) == len;
  }

  /** commit_edit: -1 when the event has gone. */
  function CommitEdit(c: Calendar, d: Draft): (Calendar, int) {
    var i := First(c.ev, IsEditing);
    if i < 0 then (ClearEditing(c), -1)
    else
      var cleared := ClearEditing(c.(ev := c.ev[i := Edited(c.ev[i], d, c.offset)]));
      (cleared.(ev := Sort(cleared.ev, c.offset)), 0)
  }

  /** What may be asked about, and goes when the answer is yes: an event with no id that is not being
      sent.  That is not to say that the server has not taken it: its id comes back only with a
      fetch. */
  predicate Deletable(e: Event) { e.id == "" && !e.sending }

  /** ask_delete, on the event selected. */
  function AskDelete(c: Calendar, i: int): Calendar {
    if 0 <= i < |c.ev| && Deletable(c.ev[i]) then c.(ev := MarkAsking(c.ev, i)) else c
  }

  function ClearAsking(c: Calendar): Calendar { c.(ev := MarkAsking(c.ev, -1)) }

  /** delete_asked, and whether the event went. */
  function DeleteAsked(c: Calendar): (Calendar, bool) {
    var i := First(c.ev, IsAsking);
    var d := ClearAsking(c);
    if i < 0 || !Deletable(c.ev[i]) then (d, false)
    else (d.(ev := d.ev[..i] + d.ev[i + 1..]), true)
  }

  // ---- when the list is written to the card ------------------------------------------------

  /** The calls of cache_save: after a push is answered for and after a fetch, */
  predicate TickSaves(c: Calendar, n: int) {
    var i := First(c.ev, IsSending);
    if c.stage == Pushing then n >= 0 || (Final(n) && i >= 0 && c.ev[i].id != "")
    else c.stage == Fetching && n >= 0
  }

  /** an event added or changed by the form, */
  predicate FormSaves(c: Calendar, d: Draft) {
    d.title != "" && if c.formEdit then First(c.ev, IsEditing) >= 0 else |c.ev| < MAX_EVENTS
  }

  /** and an event deleted. */
  predicate DeleteSaves(c: Calendar) {
    DeleteAsked(c).1
  }
}
