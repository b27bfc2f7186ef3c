/** What holds of Calendar's sync however its steps, the keys and the server's answers are
    interleaved: apps/calendar.c, lines 376-386, 519-537, 614-842, 873-1028. */
module CalendarRuns {
  import opened Common
  import opened Str
  import opened Calendar
  import opened CalendarCache

  /** The program, its HTTP task with the request in the air, and the card.  `form` and `asked` remember
      which event the form was opened on and the question was put about; `saved` is the list the cache
      was last written from, so that the card holds Cache(saved).  `known` is not in the source: it is
      the events the server has said it has, by taking a push of them or by sending them. */
  datatype World = World(
    cal: Calendar, air: Option<Request>, form: nat, asked: nat, saved: seq<Event>, known: set<nat>)

  datatype Input =
    | Begin(netReady: bool, clock: Option<int>, accepted: bool)
    | Answer(n: int, reply: seq<Line>, accepted: bool)
    | Open(i: int) | Close | Save(draft: Draft)
    | Ask(i: int) | No | Yes
    | Restart(clock: Option<int>)

  /** What an input does to the list, its marks and the request in the air. */
  function Move(w: World, e: Input): World {
    var c := w.cal;
    match e
    case Begin(netReady, clock, accepted) =>
      var (d, sent) := SyncBegin(c, netReady, clock, accepted);
      w.(cal := d, air := if c.stage == Idle then sent else w.air)
    case Answer(n, reply, accepted) =>
      if w.air.None? then w else
      var (d, sent) := SyncTick(c, n, reply, accepted);
      w.(cal := d, air := sent)
    case Open(i) => var (d, r) := BeginEdit(c, i); w.(cal := d, form := if r == 0 then c.ev[i].tag else w.form)
    case Close => w.(cal := ClearEditing(c))
    case Save(d) =>
      if d.title == "" then w
      else if c.formEdit then w.(cal := CommitEdit(c, d).0)
      else w.(cal := Add(c, d.title, d.day, d.hour, d.minute).0)
    case Ask(i) =>
      w.(cal := AskDelete(c, i), asked := if 0 <= i < |c.ev| && Deletable(c.ev[i]) then c.ev[i].tag else w.asked)
    case No => w.(cal := ClearAsking(c))
    case Yes => w.(cal := DeleteAsked(c).0)
    case Restart(clock) => Booted(w, clock)
  }

  /** capp_main, after the power has been off: the list is what the card gives back, and the request
      that was in the air is nobody's. */
  function Booted(w: World, clock: Option<int>): World {
    var offset := if clock.Some? then clock.value else 0;
    w.(cal := Calendar(Sort(Reread(w.saved), offset), Idle, offset, clock.Some?, false, "", w.cal.next), air := None)
  }

  predicate Saves(w: World, e: Input) {
    match e
    case Answer(n, _, _) => w.air.Some? && TickSaves(w.cal, n)
    case Save(d) => FormSaves(w.cal, d)
    case Yes => DeleteSaves(w.cal)
    case _ => false
  }

  /** What an answer tells of the server: it has taken the push, or has what it sent. */
  function Learned(w: World, e: Input): set<nat> {
    if !e.Answer? || e.n < 0 || w.air.None? then {}
    else
      match w.air.value
      case Post(x) => {x.tag}
      case Get => set x | x in Absorb(w.cal, e.reply).ev && !x.dirty :: x.tag
  }

  function Step(w: World, e: Input): World {
    var v := Move(w, e);
    v.(saved := if Saves(w, e) then v.cal.ev else w.saved, known := w.known + Learned(w, e))
  }

  function Run(w: World, es: seq<Input>): World {
    if es == [] then w else Step(Run(w, es[..|es| - 1]), es[|es| - 1])
  }

  // ---- the invariant -----------------------------------------------------------------------

  predicate Distinct(s: seq<Event>) {
    forall i, j :: 0 <= i < j < |s| ==> s[i].tag != s[j].tag
  }

  /** An event marked as being sent is queued, is the only one, and is the one in the air if any is. */
  predicate SendingOk(e: Event, stage: Stage, air: Option<Request>) {
    e.sending ==>
      e.dirty && !e.deleted && stage != Fetching
      && (stage == Pushing ==> air.Some? && air.value.Post? && air.value.what.tag == e.tag && air.value.what.id == e.id)
  }

  /** The form is on the event it was opened on, or on the server's fresh copy of it. */
  predicate FormOk(e: Event, w: World) {
    e.editing ==> w.cal.formEdit && e.id == w.cal.editId && (e.id == "" ==> e.tag == w.form)
  }

  predicate EventOk(e: Event, w: World) {
    e.tag < w.cal.next && SendingOk(e, w.cal.stage, w.air) && FormOk(e, w) && (e.asking ==> e.tag == w.asked)
  }

  predicate AirOk(w: World) {
    match w.cal.stage
    case Idle => w.air == None
    case Fetching => w.air == Some(Get)
    case Pushing => w.air.Some? && w.air.value.Post? && exists e :: e in w.cal.ev && e.sending
  }

  predicate OneSending(s: seq<Event>) {
    forall e, f :: e in s && f in s && e.sending && f.sending ==> e.tag == f.tag
  }

  predicate Inv(w: World) {
    && |w.cal.ev| <= MAX_EVENTS
    && Distinct(w.cal.ev)
    && OneSending(w.cal.ev)
    && (forall e :: e in w.cal.ev ==> EventOk(e, w))
    && AirOk(w)
  }

  // ---- what the list's operations keep -----------------------------------------------------

  lemma SortHasThem(s: seq<Event>, offset: int)
    ensures forall e :: e in Sort(s, offset) <==> e in s
  {
    SortIsStable(s, 0, offset);
    forall e ensures e in Sort(s, offset) <==> e in s {
      assert e in Sort(s, offset) <==> e in multiset(Sort(s, offset));
      assert e in s <==> e in multiset(s);
    }
  }

  lemma {:induction false} SlideDistinct(s: seq<Event>, e: Event, offset: int)
    requires Distinct(s + [e])
    ensures Distinct(Slide(s, e, offset))
  {
    hide Key;
    if s != [] && Key(s[|s| - 1], offset) > Key(e, offset) {
      var front, last := s[..|s| - 1], s[|s| - 1];
      assert forall i :: 0 <= i < |s| ==> (s + [e])[i] == s[i];
      assert (s + [e])[|s|] == e;
      SlideDistinct(front, e, offset);
      SlideKeeps(front, e, offset);
      var r := Slide(front, e, offset);
      forall i | 0 <= i < |r| ensures r[i].tag != last.tag {
        assert r[i] in multiset(r);
        assert r[i] == e || r[i] in front;
      }
    }
  }

  lemma DistinctWith(s: seq<Event>, e: Event)
    requires Distinct(s) && forall x :: x in s ==> x.tag != e.tag
    ensures Distinct(s + [e])
  {
  }

  lemma {:induction false} SortDistinct(s: seq<Event>, offset: int)
    requires Distinct(s)
    ensures Distinct(Sort(s, offset))
  {
    hide Slide, Key;
    if s != [] {
      var front, last := s[..|s| - 1], s[|s| - 1];
      SortDistinct(front, offset);
      SortHasThem(front, offset);
      var sorted := Sort(front, offset);
      DistinctWith(sorted, last) by {
        forall e | e in sorted ensures e.tag != last.tag { assert e in front; }
      }
      SlideDistinct(sorted, last, offset);
    }
  }

  lemma {:induction false} QueuedHas(s: seq<Event>)
    ensures forall e :: e in Queued(s) <==> e in s && e.dirty
  {
    if s != [] {
      QueuedHas(s[..|s| - 1]);
      assert s == s[..|s| - 1] + [s[|s| - 1]];
    }
  }

  lemma {:induction false} QueuedDistinct(s: seq<Event>)
    requires Distinct(s)
    ensures Distinct(Queued(s))
  {
    if s != [] {
      var front := s[..|s| - 1];
      QueuedDistinct(front);
      QueuedHas(front);
    }
  }

  /** Everything a fetch adds came from the reply, has an id that no event still queued has, and a
      tag of its own. */
  predicate Fresh(e: Event, kept: seq<Event>, c: Calendar, k: nat) {
    && e.tag == c.next + k && !e.dirty && !e.sending && !e.asking
    && e.id != "" && !KeptId(kept, e.id)
    && (e.editing ==> c.formEdit && e.id == c.editId)
  }

  lemma {:induction false} TakeIsFresh(c: Calendar, kept: seq<Event>, got: seq<Event>, reply: seq<Line>)
    requires |kept| + |got| <= MAX_EVENTS
    requires forall k :: 0 <= k < |got| ==> Fresh(got[k], kept, c, k)
    ensures var r := Take(kept, got, reply, c.formEdit, c.editId, c.next);
      |kept| + |r| <= MAX_EVENTS && forall k :: 0 <= k < |r| ==> Fresh(r[k], kept, c, k)
    decreases |reply|
  {
    hide KeptId;
    if |kept| + |got| >= MAX_EVENTS || reply == [] || reply[0].Short? {
    } else {
      var e := Fetched(reply[0], kept, c.formEdit, c.editId, c.next + |got|);
      TakeIsFresh(c, kept, if Listed(e) then got + [e] else got, reply[1..]);
    }
  }

  predicate FromReply(e: Event, c: Calendar, d: Calendar) {
    exists k: nat :: c.next + k < d.next && Fresh(e, Queued(c.ev), c, k)
  }

  /** A list after a fetch: the queued events as they were, and the reply's. */
  lemma AbsorbedEvents(c: Calendar, reply: seq<Line>)
    requires |c.ev| <= MAX_EVENTS
    ensures var d := Absorb(c, reply);
      |d.ev| <= MAX_EVENTS
      && (forall e :: e in d.ev && e.dirty <==> e in c.ev && e.dirty)
      && (forall e :: e in d.ev && !e.dirty ==> FromReply(e, c, d))
  {
    hide Fresh, Take;
    var kept := Queued(c.ev);
    TakeIsFresh(c, kept, [], reply);
    var got := Take(kept, [], reply, c.formEdit, c.editId, c.next);
    QueuedHas(c.ev);
    SortHasThem(kept + got, c.offset);
    FreshIsClean(got, kept, c);
    var d := Absorb(c, reply);
    forall e | e in d.ev && !e.dirty ensures FromReply(e, c, d) {
      assert e in got;
      var k :| 0 <= k < |got| && got[k] == e;
      assert Fresh(e, kept, c, k);
    }
  }

  lemma FreshIsClean(got: seq<Event>, kept: seq<Event>, c: Calendar)
    requires forall k :: 0 <= k < |got| ==> Fresh(got[k], kept, c, k)
    ensures forall e :: e in got ==> !e.dirty && c.next <= e.tag
  {
  }

  lemma AbsorbDistinct(c: Calendar, reply: seq<Line>)
    requires |c.ev| <= MAX_EVENTS && Distinct(c.ev) && forall e :: e in c.ev ==> e.tag < c.next
    ensures Distinct(Absorb(c, reply).ev)
  {
    hide Take, KeptId;
    var kept := Queued(c.ev);
    TakeIsFresh(c, kept, [], reply);
    var got := Take(kept, [], reply, c.formEdit, c.editId, c.next);
    QueuedHas(c.ev);
    QueuedDistinct(c.ev);
    var all := kept + got;
    forall i, j | 0 <= i < j < |all| ensures all[i].tag != all[j].tag {
      if j < |kept| {
        assert all[i] == kept[i] && all[j] == kept[j];
      } else if i < |kept| {
        assert all[i] == kept[i] && kept[i] in kept;
        assert Fresh(got[j - |kept|], kept, c, j - |kept|);
      } else {
        assert Fresh(got[j - |kept|], kept, c, j - |kept|) && Fresh(got[i - |kept|], kept, c, i - |kept|);
      }
    }
    SortDistinct(all, c.offset);
  }

  // ---- the invariant is kept, call by call -------------------------------------------------

  lemma SendNextKeeps(w: World, accepted: bool)
    requires |w.cal.ev| <= MAX_EVENTS && Distinct(w.cal.ev) && OneSending(w.cal.ev)
    requires forall e :: e in w.cal.ev ==> EventOk(e, w.(cal := w.cal.(stage := Idle), air := None))
    ensures var (d, sent) := SendNext(w.cal, accepted); Inv(w.(cal := d, air := sent))
  {
    var c := w.cal;
    var (d, sent) := SendNext(c, accepted);
    var v := w.(cal := d, air := sent);
    var i := First(c.ev, IsUnsent);
    if accepted && i >= 0 {
      assert d.ev[i] in d.ev && d.ev[i].sending;
      forall e | e in d.ev ensures EventOk(e, v) && (e.sending ==> e.tag == d.ev[i].tag) {
        var j :| 0 <= j < |d.ev| && d.ev[j] == e;
        assert EventOk(c.ev[j], w.(cal := c.(stage := Idle), air := None));
      }
    } else {
      forall e | e in d.ev ensures EventOk(e, v) {
        assert EventOk(e, w.(cal := c.(stage := Idle), air := None));
      }
    }
  }

  lemma BeginKeeps(w: World, e: Input)
    requires Inv(w) && e.Begin?
    ensures Inv(Move(w, e))
  {
    hide SendNext, Distinct, OneSending;
    var c := w.cal;
    if c.stage == Idle && e.netReady {
      var d := if !c.haveClock && e.clock.Some? then c.(haveClock := true, offset := e.clock.value) else c;
      if d.haveClock { SendNextKeeps(w.(cal := d), e.accepted); }
    }
  }

  lemma AnswerKeeps(w: World, e: Input)
    requires Inv(w) && e.Answer?
    ensures Inv(Move(w, e))
  {
    hide SendNext, Absorb;
    var c := w.cal;
    if c.stage == Fetching && e.n >= 0 {
      AbsorbKeeps(w, e.reply);
    } else if c.stage == Pushing {
      var i := First(c.ev, IsSending);
      assert i >= 0;
      if e.n >= 0 || (Final(e.n) && c.ev[i].id != "") {
        AnsweredKeeps(w);
        AnsweredOnce(w);
        SendNextKeeps(w.(cal := Answered(c)), e.accepted);
      }
    }
  }

  /** With one event marked, answering for it leaves none. */
  lemma AnsweredOnce(w: World)
    requires Inv(w) && w.cal.stage == Pushing
    ensures Answered(Answered(w.cal)) == Answered(w.cal)
  {
    var c, d := w.cal, Answered(w.cal);
    var i := First(c.ev, IsSending);
    forall j | 0 <= j < |c.ev| && c.ev[j].sending ensures j == i {
      assert c.ev[j] in c.ev && c.ev[i] in c.ev;
      assert c.ev[j].tag == c.ev[i].tag;
    }
    assert forall j :: 0 <= j < |d.ev| ==> !d.ev[j].sending;
  }

  lemma AnsweredKeeps(w: World)
    requires Inv(w) && w.cal.stage == Pushing
    ensures var c := Answered(w.cal);
      |c.ev| <= MAX_EVENTS && Distinct(c.ev) && OneSending(c.ev)
      && forall e :: e in c.ev ==> EventOk(e, w.(cal := c.(stage := Idle), air := None))
  {
    var c, d := w.cal, Answered(w.cal);
    forall e | e in d.ev ensures EventOk(e, w.(cal := d.(stage := Idle), air := None)) && (e.sending ==> e in c.ev) {
      var j :| 0 <= j < |d.ev| && d.ev[j] == e;
      assert EventOk(c.ev[j], w);
    }
  }

  lemma AbsorbKeeps(w: World, reply: seq<Line>)
    requires Inv(w) && w.cal.stage == Fetching
    ensures Inv(w.(cal := Absorb(w.cal, reply).(stage := Idle), air := None))
  {
    hide Distinct, KeptId, Take, Queued, Sort;
    var c, d := w.cal, Absorb(w.cal, reply);
    AbsorbedEvents(c, reply);
    AbsorbDistinct(c, reply);
    var v := w.(cal := d.(stage := Idle), air := None);
    forall e | e in d.ev ensures EventOk(e, v) && !e.sending {
      if e.dirty {
        assert EventOk(e, w);
      } else {
        var k: nat :| c.next + k < d.next && Fresh(e, Queued(c.ev), c, k);
      }
    }
  }

  /** Changing only which events are marked for the form and the question. */
  lemma MarkKeeps(w: World, v: World)
    requires Inv(w) && |v.cal.ev| == |w.cal.ev|
    requires v.cal.stage == w.cal.stage && v.air == w.air && v.cal.next == w.cal.next
    requires forall j :: 0 <= j < |w.cal.ev| ==> MarkedOk(w, v, j)
    ensures Inv(v)
  {
    hide Distinct, OneSending;
    var s, r := w.cal.ev, v.cal.ev;
    forall j | 0 <= j < |s| ensures r[j].tag == s[j].tag && r[j].sending == s[j].sending {
      assert MarkedOk(w, v, j);
    }
    Relabelled(s, r);
    forall x | x in r ensures EventOk(x, v) {
      var j :| 0 <= j < |r| && r[j] == x;
      assert MarkedOk(w, v, j) && EventOk(s[j], w);
    }
  }

  lemma FormKeeps(w: World, e: Input)
    requires Inv(w) && (e.Open? || e.Close? || e.Ask? || e.No?)
    ensures Inv(Move(w, e))
  {
    hide Inv, Move, EventOk, FormOk;
    FormLength(w, e);
    forall j | 0 <= j < |w.cal.ev| ensures MarkedOk(w, Move(w, e), j) {
      InvHas(w, w.cal.ev[j]);
      FormMarks(w, e, j);
    }
    MarkKeeps(w, Move(w, e));
  }

  predicate MarkedOk(w: World, v: World, j: nat) {
    && j < |w.cal.ev| && j < |v.cal.ev|
    && v.cal.stage == w.cal.stage && v.air == w.air && v.cal.next == w.cal.next
    && v.cal.ev[j] == w.cal.ev[j].(editing := v.cal.ev[j].editing, asking := v.cal.ev[j].asking)
    && FormOk(v.cal.ev[j], v) && (v.cal.ev[j].asking ==> v.cal.ev[j].tag == v.asked)
  }

  lemma OpenMarks(w: World, i: int, j: nat)
    requires j < |w.cal.ev| && EventOk(w.cal.ev[j], w)
    ensures MarkedOk(w, Move(w, Open(i)), j)
  {
    hide SendingOk;
  }

  lemma AskMarks(w: World, i: int, j: nat)
    requires j < |w.cal.ev| && EventOk(w.cal.ev[j], w)
    ensures MarkedOk(w, Move(w, Ask(i)), j)
  {
    hide SendingOk;
  }

  lemma ClearMarks(w: World, e: Input, j: nat)
    requires (e.Close? || e.No?) && j < |w.cal.ev| && EventOk(w.cal.ev[j], w)
    ensures MarkedOk(w, Move(w, e), j)
  {
    hide SendingOk;
  }

  lemma FormMarks(w: World, e: Input, j: nat)
    requires (e.Open? || e.Close? || e.Ask? || e.No?) && j < |w.cal.ev| && EventOk(w.cal.ev[j], w)
    ensures MarkedOk(w, Move(w, e), j)
  {
    hide SendingOk, MarkedOk, AskDelete, BeginEdit;
    match e
    case Open(i) => OpenMarks(w, i, j);
    case Ask(i) => AskMarks(w, i, j);
    case _ => ClearMarks(w, e, j);
  }

  lemma FormLength(w: World, e: Input)
    requires e.Open? || e.Close? || e.Ask? || e.No?
    ensures var v := Move(w, e);
      |v.cal.ev| == |w.cal.ev| && v.cal.stage == w.cal.stage && v.air == w.air && v.cal.next == w.cal.next
  {
  }

  lemma InvHas(w: World, e: Event)
    requires Inv(w) && e in w.cal.ev
    ensures EventOk(e, w)
  {
  }

  /** The same events in the same places, whatever else has changed about them. */
  lemma Relabelled(s: seq<Event>, r: seq<Event>)
    requires |s| == |r| && Distinct(s) && OneSending(s)
    requires forall j :: 0 <= j < |s| ==> r[j].tag == s[j].tag && r[j].sending == s[j].sending
    ensures Distinct(r) && OneSending(r)
    ensures (exists e :: e in s && e.sending) ==> exists e :: e in r && e.sending
  {
    forall e, f | e in r && f in r && e.sending && f.sending ensures e.tag == f.tag {
      var j, k :| 0 <= j < |r| && 0 <= k < |r| && r[j] == e && r[k] == f;
      assert s[j] in s && s[k] in s;
    }
    if e :| e in s && e.sending {
      var j :| 0 <= j < |s| && s[j] == e;
      assert r[j] in r;
    }
  }

  lemma SortingKeeps(w: World, s: seq<Event>)
    requires Inv(w.(cal := w.cal.(ev := s)))
    ensures Inv(w.(cal := w.cal.(ev := Sort(s, w.cal.offset))))
  {
    hide Sort, Distinct, EventOk;
    var v, u := w.(cal := w.cal.(ev := s)), w.(cal := w.cal.(ev := Sort(s, w.cal.offset)));
    SortDistinct(s, w.cal.offset);
    SortHasThem(s, w.cal.offset);
    forall e | e in s ensures EventOk(e, u) {
      assert EventOk(e, v);
      SameOk(e, v, u);
    }
  }

  lemma SameOk(e: Event, v: World, u: World)
    requires EventOk(e, v) && u == v.(cal := v.cal.(ev := u.cal.ev))
    ensures EventOk(e, u)
  {
  }

  lemma AddKeeps(w: World, d: Draft)
    requires Inv(w)
    ensures Inv(w.(cal := Add(w.cal, d.title, d.day, d.hour, d.minute).0))
  {
    hide Sort, Distinct;
    var c := w.cal;
    if |c.ev| < MAX_EVENTS {
      var x := Added(c, d.title, d.day, d.hour, d.minute);
      var v := w.(cal := c.(ev := c.ev + [x], next := c.next + 1));
      forall e | e in c.ev ensures EventOk(e, v) && e.tag < c.next {
        assert EventOk(e, w);
      }
      DistinctWith(c.ev, x);
      assert forall e :: e in c.ev ==> e in v.cal.ev;
      SortingKeeps(w.(cal := c.(next := c.next + 1)), c.ev + [x]);
    }
  }

  /** The list with event i changed by the form and the form closed. */
  function Changed(c: Calendar, i: nat, d: Draft): seq<Event>
    requires i < |c.ev|
  {
    MarkEditing(c.ev[i := Edited(c.ev[i], d, c.offset)], -1)
  }

  lemma CommitKeeps(w: World, d: Draft)
    requires Inv(w)
    ensures Inv(w.(cal := CommitEdit(w.cal, d).0))
  {
    hide Inv, Sort, Changed;
    var c := w.cal;
    var i := First(c.ev, IsEditing);
    if i < 0 {
      FormKeeps(w, Close);
    } else {
      ChangedKeeps(w, i, d);
      SortingKeeps(w.(cal := c.(formEdit := false, editId := "")), Changed(c, i, d));
      assert CommitEdit(c, d).0.ev == Sort(Changed(c, i, d), c.offset) by { CommitSorts(c, d, i); }
    }
  }

  lemma CommitSorts(c: Calendar, d: Draft, i: nat)
    requires First(c.ev, IsEditing) == i
    ensures CommitEdit(c, d).0 == c.(ev := Sort(Changed(c, i, d), c.offset), formEdit := false, editId := "")
  {
    hide Sort, Edited;
  }

  lemma ChangedKeeps(w: World, i: nat, d: Draft)
    requires Inv(w) && i < |w.cal.ev|
    ensures Inv(w.(cal := w.cal.(ev := Changed(w.cal, i, d), formEdit := false, editId := "")))
  {
    hide Distinct, OneSending;
    var s, r := w.cal.ev, Changed(w.cal, i, d);
    var v := w.(cal := w.cal.(ev := r, formEdit := false, editId := ""));
    Relabelled(s, r);
    forall x | x in r ensures EventOk(x, v) {
      var j :| 0 <= j < |r| && r[j] == x;
      assert EventOk(s[j], w);
    }
  }

  lemma YesKeeps(w: World)
    requires Inv(w)
    ensures Inv(Move(w, Yes))
  {
    hide Inv;
    var c := w.cal;
    var i := First(c.ev, IsAsking);
    FormKeeps(w, No);
    if i >= 0 && Deletable(c.ev[i]) {
      Without(Move(w, No), i);
    }
  }

  /** An event that is not being sent can go. */
  lemma Without(w: World, i: nat)
    requires Inv(w) && i < |w.cal.ev| && !w.cal.ev[i].sending
    ensures Inv(w.(cal := w.cal.(ev := w.cal.ev[..i] + w.cal.ev[i + 1..])))
  {
    var s := w.cal.ev;
    var r := s[..i] + s[i + 1..];
    var v := w.(cal := w.cal.(ev := r));
    assert Distinct(r);
    forall x | x in r ensures x in s && EventOk(x, v) { assert EventOk(x, w); }
    if w.cal.stage == Pushing {
      var e :| e in s && e.sending;
      var j :| 0 <= j < |s| && s[j] == e;
      assert r[if j < i then j else j - 1] == e;
    }
  }

  // ---- the card -----------------------------------------------------------------------------

  /** What a restart would list of these events. */
  function Held(s: seq<Event>): set<Event> { set e | e in Reread(s) }

  /** The card holds a list that a restart reads as it would read the one on screen. */
  predicate CardOk(w: World) {
    && |w.saved| <= MAX_EVENTS && Distinct(w.saved)
    && (forall e :: e in w.saved ==> e.tag < w.cal.next)
    && Held(w.saved) == Held(w.cal.ev)
  }

  lemma {:induction false} RereadDistinct(s: seq<Event>)
    requires Distinct(s)
    ensures Distinct(Reread(s))
  {
    hide Back;
    if s != [] {
      var front, last := s[..|s| - 1], s[|s| - 1];
      RereadDistinct(front);
      RereadHas(front);
      forall e | e in Reread(front) ensures e.tag != last.tag {
        var f :| f in front && Back(f) == Some(e);
        BackIsBack(f);
      }
      BackIsBack(last);
    }
  }

  lemma HeldWithin(s: seq<Event>, r: seq<Event>)
    requires forall f :: f in s && Back(f).Some? ==> exists g :: g in r && Back(g) == Back(f)
    ensures Held(s) <= Held(r)
  {
    hide Back;
    RereadHas(s);
    RereadHas(r);
    forall e | e in Held(s) ensures e in Held(r) {
      var f :| f in s && Back(f) == Some(e);
      var g :| g in r && Back(g) == Back(f);
    }
  }

  /** Reading again what has been read gives the same. */
  lemma HeldTwice(s: seq<Event>, offset: int)
    ensures Held(Sort(Reread(s), offset)) == Held(s)
  {
    hide Back;
    var r := Sort(Reread(s), offset);
    SortHasThem(Reread(s), offset);
    RereadHas(s);
    forall e | e in r ensures exists f :: f in s && Back(f) == Back(e) {
      var f :| f in s && Back(f) == Some(e);
      BackIsBack(f);
    }
    forall f | f in s && Back(f).Some? ensures exists e :: e in r && Back(e) == Back(f) {
      BackIsBack(f);
      assert Back(f).value in Reread(s);
    }
    HeldWithin(r, s);
    HeldWithin(s, r);
  }

  /** The list with other marks. */
  predicate Remarked(s: seq<Event>, r: seq<Event>) {
    |s| == |r|
    && forall j :: 0 <= j < |s| ==>
         r[j] == s[j].(sending := r[j].sending, editing := r[j].editing, asking := r[j].asking)
  }

  lemma RemarkedHeld(s: seq<Event>, r: seq<Event>)
    requires Remarked(s, r)
    ensures Held(s) == Held(r)
  {
    hide Back;
    forall f | f in s ensures exists g :: g in r && Back(g) == Back(f) {
      var j :| 0 <= j < |s| && s[j] == f;
      MarksAreNotKept(f, r[j]);
      assert r[j] in r;
    }
    forall g | g in r ensures exists f :: f in s && Back(f) == Back(g) {
      var j :| 0 <= j < |r| && r[j] == g;
      MarksAreNotKept(s[j], g);
      assert s[j] in s;
    }
    HeldWithin(s, r);
    HeldWithin(r, s);
  }

  lemma UnsavedAnswer(w: World, e: Input)
    requires Inv(w) && e.Answer? && !Saves(w, e)
    ensures Move(w, e).cal.ev == w.cal.ev && Move(w, e).cal.next == w.cal.next && Learned(w, e) == {}
  {
    hide Absorb, Distinct, OneSending, EventOk, SendNext;
  }

  lemma UnsavedForm(w: World, e: Input)
    requires !e.Answer? && !e.Begin? && !e.Restart? && !Saves(w, e)
    ensures Remarked(w.cal.ev, Move(w, e).cal.ev) && Move(w, e).cal.next == w.cal.next
  {
    hide Sort, Edited;
  }

  lemma SendNextMarks(c: Calendar, accepted: bool)
    ensures var d := SendNext(c, accepted).0; Remarked(c.ev, d.ev) && d.next == c.next
  {
  }

  lemma UnsavedBegin(w: World, e: Input)
    requires e.Begin?
    ensures Remarked(w.cal.ev, Move(w, e).cal.ev) && Move(w, e).cal.next == w.cal.next
  {
    hide SendNext, Remarked;
    var c := w.cal;
    var d := if !c.haveClock && e.clock.Some? then c.(haveClock := true, offset := e.clock.value) else c;
    SendNextMarks(d, e.accepted);
    SameMarks(c.ev);
  }

  lemma SameMarks(s: seq<Event>)
    ensures Remarked(s, s)
  {
  }

  /** Between two writes of the card only marks change. */
  lemma UnsavedIsMarks(w: World, e: Input)
    requires Inv(w) && !e.Restart? && !Saves(w, e)
    ensures Remarked(w.cal.ev, Move(w, e).cal.ev) && Move(w, e).cal.next == w.cal.next && Learned(w, e) == {}
  {
    hide Inv, Move, Saves;
    if e.Answer? { UnsavedAnswer(w, e); }
    else if e.Begin? { UnsavedBegin(w, e); }
    else { UnsavedForm(w, e); }
  }

  lemma BootKeeps(w: World, e: Input)
    requires CardOk(w) && e.Restart?
    ensures Inv(Step(w, e)) && CardOk(Step(w, e))
  {
    hide Back, Sort, Distinct, Held;
    var v := Step(w, e);
    RereadDistinct(w.saved);
    SortDistinct(Reread(w.saved), v.cal.offset);
    SortHasThem(Reread(w.saved), v.cal.offset);
    RereadHas(w.saved);
    forall e | e in v.cal.ev ensures EventOk(e, v) && !e.sending {
      var f :| f in w.saved && Back(f) == Some(e);
      BackIsBack(f);
    }
    HeldTwice(w.saved, v.cal.offset);
  }

  lemma CardKeeps(w: World, e: Input)
    requires Inv(w) && CardOk(w) && !e.Restart? && Inv(Move(w, e))
    ensures CardOk(Step(w, e))
  {
    hide Move, Saves, Held, Learned;
    if Saves(w, e) {
      forall x | x in Move(w, e).cal.ev ensures x.tag < Move(w, e).cal.next { InvHas(Move(w, e), x); }
    } else {
      UnsavedIsMarks(w, e);
      RemarkedHeld(w.cal.ev, Move(w, e).cal.ev);
    }
  }

  lemma MoveKeeps(w: World, e: Input)
    requires Inv(w) && !e.Restart?
    ensures Inv(Move(w, e))
  {
    hide Distinct, OneSending, EventOk, AirOk, Absorb, SendNext, CommitEdit, Add, BeginEdit, AskDelete, ClearEditing,
         ClearAsking, DeleteAsked, SyncTick, SyncBegin;
    if e.Begin? { BeginKeeps(w, e); }
    else if e.Answer? { AnswerKeeps(w, e); }
    else if e.Save? { AddKeeps(w, e.draft); CommitKeeps(w, e.draft); }
    else if e.Yes? { YesKeeps(w); }
    else { FormKeeps(w, e); }
  }

  lemma SameInv(w: World, v: World)
    requires Inv(w) && v == w.(saved := v.saved, known := v.known)
    ensures Inv(v)
  {
    hide Distinct, OneSending;
    forall e | e in v.cal.ev ensures EventOk(e, v) { assert EventOk(e, w); }
  }

  lemma ListKeeps(w: World, e: Input)
    requires Inv(w) && !e.Restart?
    ensures Inv(Step(w, e))
  {
    hide Inv, Move, Saves, Learned;
    MoveKeeps(w, e);
    SameInv(Move(w, e), Step(w, e));
  }

  lemma StepKeeps(w: World, e: Input)
    requires Inv(w) && CardOk(w)
    ensures Inv(Step(w, e)) && CardOk(Step(w, e))
  {
    hide Inv, CardOk, Move, Saves, Learned;
    if e.Restart? {
      BootKeeps(w, e);
    } else {
      MoveKeeps(w, e);
      CardKeeps(w, e);
      ListKeeps(w, e);
    }
  }

  lemma {:induction false} RunKeeps(w: World, es: seq<Input>)
    requires Inv(w) && CardOk(w)
    ensures Inv(Run(w, es)) && CardOk(Run(w, es))
  {
    hide Inv, CardOk, Step;
    if es != [] {
      RunKeeps(w, es[..|es| - 1]);
      StepKeeps(Run(w, es[..|es| - 1]), es[|es| - 1]);
    }
  }
}
