/** What adding, editing, pushing and fetching do to an event, field by field: apps/calendar.c, lines 344-386,
    519-579, 622-665, 727-830 and 865-945. */
module CalendarFields {
  import opened Common
  import opened Str
  import opened Calendar

  // ---- times -----------------------------------------------------------------------------------

  /** The same second on a 32-bit clock. */
  predicate SameSecond(a: int, b: int) {
    a % 0x1_0000_0000 == b % 0x1_0000_0000
  }

  lemma InstantIsLocal(day: int, hour: int, minute: int, offset: int)
    ensures SameSecond(Instant(day, hour, minute, offset) + offset, day * 86400 + hour * 3600 + minute * 60)
    ensures Instant(day, hour, minute, offset) < 0x1_0000_0000
  {
    WordIsSame(day * DAY_SECS + hour * 3600 + minute * 60 - offset, offset);
  }

  lemma WordIsSame(x: int, y: int)
    ensures SameSecond(Word(x) + y, x + y) && Word(x) < 0x1_0000_0000
  {
    var m := 0x1_0000_0000;
    var q, r := x / m, x % m;
    var p := (r + y) / m;
    assert x + y == m * (q + p) + (r + y) % m;
    assert (x + y) / m == q + p;
  }

  lemma FirstIs(s: seq<Event>, p: Event -> bool, i: int)
    requires -1 <= i < |s| && (i >= 0 ==> p(s[i]))
    requires forall j :: 0 <= j < (if i < 0 then |s| else i) ==> !p(s[j])
    ensures First(s, p) == i
  {
    var k := First(s, p);
  }

  // ---- adding ----------------------------------------------------------------------------------

  /** A title as an event holds it: at most 34 characters, those that a push could not quote as
      apostrophes. */
  predicate TitleOf(summary: string, title: string) {
    |summary| == (if |title| <= 34 then |title| else 34)
    && forall i :: 0 <= i < |summary| ==>
         summary[i] == if title[i] == '"' || title[i] == '\\' then '\'' else title[i]
  }

  /** The form's add, for any zone offset: with room, one event more, not yet known to the server, on the
      local day and time asked for and an hour long. */
  lemma AddIsOnTime(c: Calendar, title: string, day: int, hour: int, minute: int) returns (e: Event)
    ensures var (d, r) := Add(c, title, day, hour, minute);
      r == (if |c.ev| >= 40 then -1 else 0)
      && (r == -1 ==> d == c)
      && (r == 0 ==> multiset(d.ev) == multiset(c.ev) + multiset{e} && Ordered(d.ev, c.offset)
                     && d == c.(ev := d.ev, next := c.next + 1))
    ensures e.tag == c.next && e.id == "" && TitleOf(e.summary, title) && !e.allDay && e.remind == 0
    ensures e.dirty && !e.deleted && !e.sending && !e.editing && !e.asking
    ensures SameSecond(e.start + c.offset, day * 86400 + hour * 3600 + minute * 60) && e.start < 0x1_0000_0000
    ensures SameSecond(e.end, e.start + 3600) && e.end < 0x1_0000_0000
  {
    hide Sort, Ordered, Instant, WithKey;
    e := Added(c, title, day, hour, minute);
    InstantIsLocal(day, hour, minute, c.offset);
    WordIsSame(e.start + 3600, 0);
    SortIsStable(c.ev + [e], 0, c.offset);
  }

  /** Nine in the morning of day 20000, an hour east of Greenwich, is eight there. */
  lemma NineIsEightInGreenwich(title: string)
    ensures var c := Calendar([], Idle, 3600, true, false, "", 0);
      var (d, r) := Add(c, title, 20000, 9, 0);
      r == 0 && |d.ev| == 1 && d.ev[0].start == 1728028800 && d.ev[0].end == 1728032400
  {
    var c := Calendar([], Idle, 3600, true, false, "", 0);
    var e := Added(c, title, 20000, 9, 0);
    assert [] + [e] == [e];
    assert Slide([], e, 3600) == [e];
    assert [e][..0] == [] && Sort([], 3600) == [];
    assert Sort([e], 3600) == [e];
  }

  // ---- editing ---------------------------------------------------------------------------------

  /** f is e with the form's title, day and time, in the zone of the offset, and as long as it was. */
  predicate EditOf(f: Event, e: Event, d: Draft, offset: int) {
    |f.summary| == (if |d.title| <= 34 then |d.title| else 34) && f.summary <= d.title
    && (e.allDay ==> SameSecond(f.start, d.day * 86400))
    && (!e.allDay ==> SameSecond(f.start + offset, d.day * 86400 + d.hour * 3600 + d.minute * 60))
    && f.start < 0x1_0000_0000 && f.end < 0x1_0000_0000
    && SameSecond(f.end - f.start, if e.end > e.start then e.end - e.start else if e.allDay then 86400 else 3600)
    && f.dirty && !f.editing
    && f.tag == e.tag && f.id == e.id && f.allDay == e.allDay && f.remind == e.remind
    && f.deleted == e.deleted && f.sending == e.sending && f.asking == e.asking
  }

  lemma EditedIsEdit(e: Event, d: Draft, offset: int)
    ensures EditOf(Edited(e, d, offset).(editing := false), e, d, offset)
  {
    var f := Edited(e, d, offset);
    EditedStart(e, d, offset);
    EditedEnd(e, d, offset);
  }

  lemma EditedStart(e: Event, d: Draft, offset: int)
    ensures var f := Edited(e, d, offset);
      f.start < 0x1_0000_0000
      && (e.allDay ==> SameSecond(f.start, d.day * 86400))
      && (!e.allDay ==> SameSecond(f.start + offset, d.day * 86400 + d.hour * 3600 + d.minute * 60))
  {
    hide Instant;
    InstantIsLocal(d.day, d.hour, d.minute, offset);
    WordIsSame(d.day * DAY_SECS, 0);
  }

  lemma EditedEnd(e: Event, d: Draft, offset: int)
    ensures var f := Edited(e, d, offset);
      f.end < 0x1_0000_0000
      && SameSecond(f.end - f.start, if e.end > e.start then e.end - e.start else if e.allDay then 86400 else 3600)
  {
    hide Instant, Word, SameSecond;
    var f := Edited(e, d, offset);
    var len := if e.end > e.start then e.end - e.start else if e.allDay then DAY_SECS else 3600;
    WordIsSame(f.start + len, 0 - f.start);
    assert f.start + len + (0 - f.start) == len;
  }

  /** The form's save, for any zone offset: the event it is open on is on the day and time in the form, an
      all-day one on the day whatever the zone, and as long as it was; no other changes. */
  lemma EditIsOnTime(c: Calendar, d: Draft, i: nat) returns (f: Event)
    requires i < |c.ev| && c.ev[i].editing && forall j :: 0 <= j < i ==> !c.ev[j].editing
    ensures EditOf(f, c.ev[i], d, c.offset)
    ensures var (v, r) := CommitEdit(c, d);
      r == 0 && v == c.(ev := v.ev, formEdit := false, editId := "") && Ordered(v.ev, c.offset)
      && multiset(v.ev) == multiset(seq(|c.ev|, j requires 0 <= j < |c.ev| =>
                                          if j == i then f else c.ev[j].(editing := false)))
  {
    hide Sort, Ordered, Edited, WithKey, EditOf;
    FirstIs(c.ev, IsEditing, i);
    f := Edited(c.ev[i], d, c.offset).(editing := false);
    EditedIsEdit(c.ev[i], d, c.offset);
    var s := MarkEditing(c.ev[i := Edited(c.ev[i], d, c.offset)], -1);
    assert s == seq(|c.ev|, j requires 0 <= j < |c.ev| => if j == i then f else c.ev[j].(editing := false));
    SortIsStable(s, 0, c.offset);
  }

  /** When the event has gone nothing changes but that the form is shut. */
  lemma NothingToEdit(c: Calendar, d: Draft)
    requires forall e :: e in c.ev ==> !e.editing
    ensures CommitEdit(c, d) == (c.(formEdit := false, editId := ""), -1)
  {
    hide Edited, Sort;
    FirstIs(c.ev, IsEditing, -1);
    assert MarkEditing(c.ev, -1) == c.ev;
  }

  // ---- the order -------------------------------------------------------------------------------

  /** When an event begins by the local clock; a start of 2^31 or more is one before 1970. */
  function LocalStart(e: Event, offset: int): int {
    (if e.start >= 2_147_483_648 then e.start - 4_294_967_296 else e.start) + if e.allDay then 0 else offset
  }

  /** The list is in order just when its events begin one after the other by the local clock, an all-day
      event at its day's midnight. */
  lemma InLocalOrder(s: seq<Event>, offset: int)
    ensures Ordered(s, offset)
       <==> forall i, j :: 0 <= i < j < |s| ==> LocalStart(s[i], offset) <= LocalStart(s[j], offset)
  {
    assert forall i :: 0 <= i < |s| ==> Key(s[i], offset) == LocalStart(s[i], offset) - offset;
  }

  // ---- pushing ---------------------------------------------------------------------------------

  /** What a sync sends next, its request accepted: the id, title, start, end and kind of the first event
      that is queued and not deleted, which alone is marked as being sent; with none, it fetches. */
  lemma PushSendsTheFirst(c: Calendar, i: nat)
    requires i <= |c.ev| && (i < |c.ev| ==> c.ev[i].dirty && !c.ev[i].deleted)
    requires forall j :: 0 <= j < i ==> !c.ev[j].dirty || c.ev[j].deleted
    ensures var (d, sent) := SendNext(c, true);
      sent.Some?
      && (i == |c.ev| ==> sent.value == Get && d == c.(stage := Fetching))
      && (i < |c.ev| ==>
            sent.value.Post? && d == c.(ev := d.ev, stage := Pushing)
            && (var x, e := sent.value.what, c.ev[i];
                x.tag == e.tag && x.id == e.id && x.summary == e.summary
                && x.start == e.start && x.end == e.end && x.allDay == e.allDay)
            && |d.ev| == |c.ev|
            && forall j :: 0 <= j < |c.ev| ==> d.ev[j] == c.ev[j].(sending := j == i))
  {
  }

  /** When a sync begins, and with what clock: only when none is running, the network is up, and the clock
      is set or has come by now. */
  lemma BeginsWhen(c: Calendar, netReady: bool, clock: Option<int>)
    ensures var (d, sent) := SyncBegin(c, netReady, clock, true);
      (sent.Some? <==> c.stage.Idle? && netReady && (c.haveClock || clock.Some?))
      && (c.stage.Idle? && netReady && !c.haveClock && clock.Some? ==> d.haveClock && d.offset == clock.value)
      && (c.haveClock || !sent.Some? ==> d.haveClock == c.haveClock && d.offset == c.offset)
      && (sent.None? ==> d == c)
  {
  }

  /** What an answer to a push does, `i` being the event it was a push of: one that was taken, or an edit
      the server has lost (404, 410) or will not make (400), is off the queue and the sync goes on; at any
      other failure the sync is over and the event stays queued. */
  lemma PushAnswered(c: Calendar, n: int, reply: seq<Line>, i: nat)
    requires c.stage.Pushing? && i < |c.ev| && forall j :: 0 <= j < |c.ev| ==> (c.ev[j].sending <==> j == i)
    ensures var (d, sent) := SyncTick(c, n, reply, true);
      if n >= 0 || ((n == -404 || n == -410 || n == -400) && c.ev[i].id != "") then
        (d, sent) == SendNext(c.(ev := c.ev[i := c.ev[i].(dirty := false, sending := false)]), true)
      else d == c.(stage := Idle) && sent == None
  {
    FirstIs(c.ev, IsSending, i);
    var done := Answered(c);
    assert done.ev == c.ev[i := c.ev[i].(dirty := false, sending := false)];
    FirstIs(done.ev, IsSending, -1);
  }

  // ---- fetching --------------------------------------------------------------------------------

  /** The event a line of the reply makes: the line's id, unless an event kept has it, its title, or a note
      that it has none, and its times, an hour long when the end cannot be read. */
  lemma FetchedParts(l: Line, kept: seq<Event>, formEdit: bool, editId: string, tag: nat)
    requires l.Line?
    ensures var e := Fetched(l, kept, formEdit, editId, tag); var id := if |l.id| <= 15 then l.id else l.id[..15];
      (e.id == "" <==> id == "" || exists k :: k in kept && k.id == id)
      && (e.id != "" ==> e.id == id)
      && (|l.summary| <= 34 && l.summary != "" ==> e.summary == l.summary)
      && (|l.summary| > 34 ==> e.summary == l.summary[..34])
      && (l.summary == "" ==> e.summary == "(no title)")
      && e.start == l.start && e.allDay == l.allDay && e.remind == l.remind && e.tag == tag
      && (l.end != 0 ==> e.end == l.end) && (l.end == 0 ==> SameSecond(e.end, l.start + 3600) && e.end < 0x1_0000_0000)
      && !e.dirty && !e.deleted && !e.sending && !e.asking
      && (e.editing <==> e.id != "" && formEdit && editId == e.id)
      && (Listed(e) <==> id != "" && (forall k :: k in kept ==> k.id != id) && l.start != 0)
  {
    WordIsSame(l.start + 3600, 0);
    var id := if |l.id| <= 15 then l.id else l.id[..15];
    if id != "" && exists k :: k in kept && k.id == id {
      var k :| k in kept && k.id == id;
      var i :| 0 <= i < |kept| && kept[i] == k;
      assert kept[i].id != "" && kept[i].id == id;
    }
  }

  // ---- the form and the question -----------------------------------------------------------------

  /** The form opens on an event that is there and not deleted: it alone is marked, and its id kept. */
  lemma FormOpensOn(c: Calendar, i: int)
    ensures var (d, r) := BeginEdit(c, i);
      r == (if 0 <= i < |c.ev| && !c.ev[i].deleted then 0 else -1)
      && (r == -1 ==> d == c)
      && (r == 0 ==> d == c.(ev := d.ev, formEdit := true, editId := c.ev[i].id) && |d.ev| == |c.ev|
                     && forall j :: 0 <= j < |c.ev| ==> d.ev[j] == c.ev[j].(editing := j == i))
  {
  }

  /** An event with no id that is not being sent may be asked about, and is then the only one. */
  lemma AsksAbout(c: Calendar, i: int)
    ensures var d := AskDelete(c, i);
      if 0 <= i < |c.ev| && c.ev[i].id == "" && !c.ev[i].sending then
        d == c.(ev := d.ev) && |d.ev| == |c.ev| && forall j :: 0 <= j < |c.ev| ==> d.ev[j] == c.ev[j].(asking := j == i)
      else d == c
  {
  }

  /** The answer yes: the event asked about goes if it may still, no other does, and nothing is asked about
      any more. */
  lemma DeletesTheAsked(c: Calendar, i: nat)
    requires i <= |c.ev| && (i < |c.ev| ==> c.ev[i].asking) && forall j :: 0 <= j < i ==> !c.ev[j].asking
    ensures var (d, gone) := DeleteAsked(c);
      gone == (i < |c.ev| && c.ev[i].id == "" && !c.ev[i].sending)
      && d == c.(ev := d.ev) && |d.ev| == |c.ev| - (if gone then 1 else 0)
      && forall j :: 0 <= j < |d.ev| ==> d.ev[j] == c.ev[if gone && j >= i then j + 1 else j].(asking := false)
  {
    FirstIs(c.ev, IsAsking, if i < |c.ev| then i else -1);
  }

  /** The form's save writes the cache exactly when it has a title and the call it makes answers 0. */
  lemma FormSavesWhenDone(c: Calendar, d: Draft)
    ensures FormSaves(c, d)
       <==> d.title != "" && 0 == if c.formEdit then CommitEdit(c, d).1
                                  else Add(c, d.title, d.day, d.hour, d.minute).1
  {
    hide Sort, Edited, Added, First;
  }
}
