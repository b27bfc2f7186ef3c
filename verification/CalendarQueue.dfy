/** What Calendar's queue of unsent events comes to over a run: apps/calendar.c, lines 519-537,
    614-676, 718-842 and 873-1028. */
module CalendarQueue {
  import opened Common
  import opened Str
  import opened Calendar
  import opened CalendarCache
  import opened CalendarRuns

  /** The app just opened: the list is what the card gave, nothing is marked, nothing is in the air. */
  predicate Start(w: World) {
    && |w.saved| <= MAX_EVENTS && Distinct(w.saved) && (forall e :: e in w.saved ==> e.tag < w.cal.next)
    && w.cal.ev == Sort(Reread(w.saved), w.cal.offset)
    && w.cal.stage == Idle && w.air == None && !w.cal.formEdit
  }

  /** A card with no cache on it. */
  const NEW_DEVICE: World := World(Calendar([], Idle, 0, false, false, "", 0), None, 0, 0, [], {})

  lemma StartKeeps(w: World)
    requires Start(w)
    ensures Inv(w) && CardOk(w)
  {
    hide Back, Sort, Distinct, Held;
    RereadDistinct(w.saved);
    SortDistinct(Reread(w.saved), w.cal.offset);
    SortHasThem(Reread(w.saved), w.cal.offset);
    RereadHas(w.saved);
    forall e | e in w.cal.ev ensures EventOk(e, w) && !e.sending {
      var f :| f in w.saved && Back(f) == Some(e);
      BackIsBack(f);
    }
    HeldTwice(w.saved, w.cal.offset);
  }

  /** At any moment of any run: while a push is in the air exactly one event is marked as being sent,
      the search for it finds the one the request was made for, and it is still queued; while the
      fetch is in the air none is. */
  lemma PushKnowsItsEvent(w: World, es: seq<Input>)
    requires Start(w)
    ensures var v := Run(w, es); var s := v.cal.ev; var i := First(s, IsSending);
      (v.cal.stage == Pushing ==>
         v.air.Some? && v.air.value.Post?
         && i >= 0 && s[i].tag == v.air.value.what.tag && s[i].id == v.air.value.what.id
         && IsUnsent(s[i]) && forall j :: 0 <= j < |s| && s[j].sending ==> j == i)
      && (v.cal.stage == Fetching ==> v.air == Some(Get) && i < 0)
      && |s| <= MAX_EVENTS
  {
    StartKeeps(w);
    RunKeeps(w, es);
    SendingIsInTheAir(Run(w, es));
  }

  lemma SendingIsInTheAir(w: World)
    requires Inv(w)
    ensures var s := w.cal.ev; var i := First(s, IsSending);
      (w.cal.stage == Pushing ==>
         w.air.Some? && w.air.value.Post?
         && i >= 0 && s[i].tag == w.air.value.what.tag && s[i].id == w.air.value.what.id
         && IsUnsent(s[i]) && forall j :: 0 <= j < |s| && s[j].sending ==> j == i)
      && (w.cal.stage == Fetching ==> w.air == Some(Get) && i < 0)
  {
    var s := w.cal.ev;
    var i := First(s, IsSending);
    if w.cal.stage == Pushing {
      assert EventOk(s[i], w);
      forall j | 0 <= j < |s| && s[j].sending ensures j == i {
        assert EventOk(s[j], w);
        assert !(i < j) && !(j < i);
      }
    } else if w.cal.stage == Fetching {
      forall j | 0 <= j < |s| ensures !s[j].sending { assert EventOk(s[j], w); }
    }
  }

  // ---- the queue as a set ------------------------------------------------------------------

  function Queue(s: seq<Event>): set<Content> {
    set e | e in s && e.dirty :: ContentOf(e)
  }

  /** An answer that settles a push: taken, or an edit the server will never take. */
  predicate Settles(n: int, x: Content) { n >= 0 || (x.id != "" && Final(n)) }

  /** The queue with no list, no order and no marks: what each input does to a set of events. */
  function NextQueue(q: set<Content>, w: World, e: Input): set<Content> {
    var c := w.cal;
    if e.Save? && e.draft.title != "" then
      if c.formEdit then
        var i := First(c.ev, IsEditing);
        if i < 0 then q else (q - {ContentOf(c.ev[i])}) + {ContentOf(Edited(c.ev[i], e.draft, c.offset))}
      else if |c.ev| < MAX_EVENTS then
        q + {ContentOf(Added(c, e.draft.title, e.draft.day, e.draft.hour, e.draft.minute))}
      else q
    else if e.Answer? && w.air.Some? && w.air.value.Post? && Settles(e.n, w.air.value.what) then
      set x | x in q && x.tag != w.air.value.what.tag
    else if e.Yes? then
      var i := First(c.ev, IsAsking);
      if i >= 0 && Deletable(c.ev[i]) then q - {ContentOf(c.ev[i])} else q
    else if e.Restart? then set x | x in c.ev && x.dirty && Back(x).Some? :: ContentOf(Back(x).value)
    else q
  }

  lemma QueueWithin(s: seq<Event>, r: seq<Event>)
    requires forall e :: e in s && e.dirty ==> exists f :: f in r && f.dirty && ContentOf(f) == ContentOf(e)
    ensures Queue(s) <= Queue(r)
  {
    forall x | x in Queue(s) ensures x in Queue(r) {
      var e :| e in s && e.dirty && ContentOf(e) == x;
    }
  }

  /** Marks are not part of what is queued. */
  lemma MarksAreNotQueued(s: seq<Event>, r: seq<Event>)
    requires |s| == |r|
    requires forall j :: 0 <= j < |s| ==> r[j].dirty == s[j].dirty && ContentOf(r[j]) == ContentOf(s[j])
    ensures Queue(s) == Queue(r)
  {
    forall e | e in s && e.dirty ensures exists f :: f in r && f.dirty && ContentOf(f) == ContentOf(e) {
      var j :| 0 <= j < |s| && s[j] == e;
      assert r[j] in r;
    }
    forall f | f in r && f.dirty ensures exists e :: e in s && e.dirty && ContentOf(f) == ContentOf(e) {
      var j :| 0 <= j < |r| && r[j] == f;
      assert s[j] in s;
    }
    QueueWithin(s, r);
    QueueWithin(r, s);
  }

  lemma SendNextQueues(c: Calendar, accepted: bool)
    ensures Queue(SendNext(c, accepted).0.ev) == Queue(c.ev)
  {
    MarksAreNotQueued(c.ev, SendNext(c, accepted).0.ev);
  }

  /** With tags distinct, changing event i changes the queue by that event alone. */
  lemma QueueWith(s: seq<Event>, i: nat, e: Event)
    requires Distinct(s) && i < |s| && e.tag == s[i].tag
    ensures Queue(s[i := e]) == (Queue(s) - {ContentOf(s[i])}) + if e.dirty then {ContentOf(e)} else {}
    ensures (Queue(s) - {ContentOf(s[i])}) == set x | x in Queue(s) && x.tag != s[i].tag
  {
    var r := s[i := e];
    forall x | x in Queue(s) ensures x != ContentOf(s[i]) <==> x.tag != s[i].tag {
      var f :| f in s && f.dirty && ContentOf(f) == x;
      var j :| 0 <= j < |s| && s[j] == f;
      assert i < j || j < i || i == j;
    }
    forall x | x in Queue(s) && x.tag != s[i].tag ensures x in Queue(r) {
      var f :| f in s && f.dirty && ContentOf(f) == x;
      var j :| 0 <= j < |s| && s[j] == f;
      assert r[j] == f;
    }
    forall x | x in Queue(r) ensures (x == ContentOf(e) && e.dirty) || (x in Queue(s) && x.tag != s[i].tag) {
      var f :| f in r && f.dirty && ContentOf(f) == x;
      var j :| 0 <= j < |r| && r[j] == f;
      assert j != i ==> f in s && (i < j || j < i);
    }
    assert e.dirty ==> r[i] == e && e in r;
  }

  lemma QueueWithout(s: seq<Event>, i: nat)
    requires Distinct(s) && i < |s|
    ensures Queue(s[..i] + s[i + 1..]) == Queue(s) - {ContentOf(s[i])}
  {
    var r := s[..i] + s[i + 1..];
    var u := s[i := s[i].(dirty := false)];
    QueueWith(s, i, s[i].(dirty := false));
    forall e | e in u && e.dirty ensures e in r {
      var j :| 0 <= j < |u| && u[j] == e;
      assert j != i;
      assert r[if j < i then j else j - 1] == e;
    }
    forall e | e in r && e.dirty ensures e in u {
      var j :| 0 <= j < |r| && r[j] == e;
      assert u[if j < i then j else j + 1] == e;
    }
    QueueWithin(u, r);
    QueueWithin(r, u);
  }

  lemma SortQueues(s: seq<Event>, offset: int)
    ensures Queue(Sort(s, offset)) == Queue(s)
  {
    SortHasThem(s, offset);
    QueueWithin(s, Sort(s, offset));
    QueueWithin(Sort(s, offset), s);
  }

  lemma SaveQueues(w: World, e: Input)
    requires Inv(w) && e.Save?
    ensures Queue(Step(w, e).cal.ev) == NextQueue(Queue(w.cal.ev), w, e)
  {
    hide Sort, Queue;
    var c, d := w.cal, e.draft;
    if d.title != "" && c.formEdit {
      var i := First(c.ev, IsEditing);
      if i < 0 {
        MarksAreNotQueued(c.ev, ClearEditing(c).ev);
      } else {
        var edited := Edited(c.ev[i], d, c.offset);
        QueueWith(c.ev, i, edited);
        MarksAreNotQueued(c.ev[i := edited], Changed(c, i, d));
        SortQueues(Changed(c, i, d), c.offset);
        assert Step(w, e).cal.ev == Sort(Changed(c, i, d), c.offset);
      }
    } else if d.title != "" && |c.ev| < MAX_EVENTS {
      var x := Added(c, d.title, d.day, d.hour, d.minute);
      SortQueues(c.ev + [x], c.offset);
      QueueAppend(c.ev, x);
    }
  }

  lemma QueueAppend(s: seq<Event>, e: Event)
    requires e.dirty
    ensures Queue(s + [e]) == Queue(s) + {ContentOf(e)}
  {
    forall x | x in Queue(s + [e]) ensures x in Queue(s) + {ContentOf(e)} {
      var f :| f in s + [e] && f.dirty && ContentOf(f) == x;
    }
    assert e in s + [e];
  }

  lemma AnswerQueues(w: World, e: Input)
    requires Inv(w) && e.Answer?
    ensures Queue(Step(w, e).cal.ev) == NextQueue(Queue(w.cal.ev), w, e)
  {
    hide Inv, SendNext, Absorb, Queue, Distinct;
    var c := w.cal;
    SendingIsInTheAir(w);
    InvParts(w);
    if c.stage == Pushing {
      var i := First(c.ev, IsSending);
      if Settles(e.n, w.air.value.what) {
        QueueWith(c.ev, i, c.ev[i].(dirty := false, sending := false));
        AnsweredOnce(w);
        SendNextQueues(Answered(c), e.accepted);
      }
    } else if c.stage == Fetching && e.n >= 0 {
      AbsorbQueues(c, e.reply);
    }
  }

  lemma InvParts(w: World)
    requires Inv(w)
    ensures |w.cal.ev| <= MAX_EVENTS && Distinct(w.cal.ev) && (w.cal.stage == Idle ==> w.air == None)
  {
  }

  lemma AbsorbQueues(c: Calendar, reply: seq<Line>)
    requires |c.ev| <= MAX_EVENTS
    ensures Queue(Absorb(c, reply).ev) == Queue(c.ev)
  {
    hide FromReply, Absorb;
    AbsorbedEvents(c, reply);
    QueueWithin(c.ev, Absorb(c, reply).ev);
    QueueWithin(Absorb(c, reply).ev, c.ev);
  }

  lemma RestartQueues(w: World, e: Input)
    requires Inv(w) && CardOk(w) && e.Restart?
    ensures Queue(Step(w, e).cal.ev) == NextQueue(Queue(w.cal.ev), w, e)
  {
    hide Inv, Back, Sort, Distinct;
    var r := Step(w, e).cal.ev;
    SortHasThem(Reread(w.saved), Step(w, e).cal.offset);
    RereadHas(w.cal.ev);
    assert forall x :: x in r <==> x in Held(w.cal.ev);
    forall y | y in Queue(r) ensures y in NextQueue(Queue(w.cal.ev), w, e) {
      var x :| x in r && x.dirty && ContentOf(x) == y;
      var f :| f in w.cal.ev && Back(f) == Some(x);
      BackIsBack(f);
    }
    forall y | y in NextQueue(Queue(w.cal.ev), w, e) ensures y in Queue(r) {
      var f :| f in w.cal.ev && f.dirty && Back(f).Some? && ContentOf(Back(f).value) == y;
      BackIsBack(f);
      assert Back(f).value in r;
    }
  }

  /** The queue is a set of events and nothing more: whatever the sorting, the compaction, the marks
      and the request in the air, each input changes it as NextQueue says.  So an event that is queued
      is sent with what was last saved for it, and is taken off only by the answer to its own push. */
  lemma StepIsNextQueue(w: World, e: Input)
    requires Inv(w) && (e.Restart? ==> CardOk(w))
    ensures Queue(Step(w, e).cal.ev) == NextQueue(Queue(w.cal.ev), w, e)
  {
    hide Inv, CardOk, Queue, Learned, Saves, SyncTick, CommitEdit, Add;
    var c := w.cal;
    InvParts(w);
    if e.Save? {
      SaveQueues(w, e);
    } else if e.Answer? {
      AnswerQueues(w, e);
    } else if e.Begin? {
      var d := if !c.haveClock && e.clock.Some? then c.(haveClock := true, offset := e.clock.value) else c;
      SendNextQueues(d, e.accepted);
    } else if e.Yes? {
      var s := ClearAsking(c).ev;
      MarksAreNotQueued(c.ev, s);
      var i := First(c.ev, IsAsking);
      if i >= 0 && Deletable(c.ev[i]) { QueueWithout(s, i); }
    } else if e.Restart? {
      RestartQueues(w, e);
    } else {
      MarksAreNotQueued(c.ev, Step(w, e).cal.ev);
    }
  }

  predicate HasTag(q: set<Content>, t: nat) { exists x :: x in q && x.tag == t }

  /** The three ways out of the queue: the event's push is answered, it is deleted, or the power goes
      and the card does not give it back. */
  predicate TakesOut(w: World, e: Input, t: nat) {
    match e
    case Answer(n, _, _) =>
      w.air.Some? && w.air.value.Post? && w.air.value.what.tag == t && Settles(n, w.air.value.what)
    case Yes =>
      var i := First(w.cal.ev, IsAsking);
      i >= 0 && w.cal.ev[i].tag == t && t == w.asked && w.cal.ev[i].id == ""
    case Restart(_) => exists x :: x in w.cal.ev && x.tag == t && Back(x) == None
    case _ => false
  }

  lemma OneStepOut(w: World, e: Input, t: nat)
    requires Inv(w) && CardOk(w) && HasTag(Queue(w.cal.ev), t) && !HasTag(Queue(Step(w, e).cal.ev), t)
    ensures TakesOut(w, e, t)
  {
    hide Queue, Step, Back, CardOk;
    StepIsNextQueue(w, e);
    var q := Queue(w.cal.ev);
    var x :| x in q && x.tag == t;
    assert x !in NextQueue(q, w, e);
    if e.Yes? {
      var i := First(w.cal.ev, IsAsking);
      assert EventOk(w.cal.ev[i], w);
    } else if e.Save? {
      SaveKeepsTags(q, w, e, x);
    } else if e.Restart? {
      RestartLoses(w, e, x);
    }
  }

  lemma RestartLoses(w: World, e: Input, x: Content)
    requires e.Restart? && x in Queue(w.cal.ev) && !HasTag(NextQueue(Queue(w.cal.ev), w, e), x.tag)
    ensures TakesOut(w, e, x.tag)
  {
    hide Back;
    var f :| f in w.cal.ev && f.dirty && ContentOf(f) == x;
    if Back(f).Some? { RestartGivesBack(w, e, f); }
  }

  lemma RestartGivesBack(w: World, e: Input, f: Event)
    requires e.Restart? && f in w.cal.ev && f.dirty && Back(f).Some?
    ensures HasTag(NextQueue(Queue(w.cal.ev), w, e), f.tag)
  {
    hide Back;
    BackIsBack(f);
    assert ContentOf(Back(f).value) in NextQueue(Queue(w.cal.ev), w, e);
  }

  lemma SaveKeepsTags(q: set<Content>, w: World, e: Input, x: Content)
    requires e.Save? && x in q
    ensures HasTag(NextQueue(q, w, e), x.tag)
  {
    var i := First(w.cal.ev, IsEditing);
    if x in NextQueue(q, w, e) {
    } else {
      assert ContentOf(Edited(w.cal.ev[i], e.draft, w.cal.offset)) in NextQueue(q, w, e);
    }
  }

  /** No event is lost: one queued at some point of a run, restarts and all, and no longer queued at
      its end had its own push answered on the way, or was asked about and deleted with no id, or was
      not given back by the card. */
  lemma {:induction false} NothingIsLost(w: World, es: seq<Input>, t: nat) returns (k: nat)
    requires Inv(w) && CardOk(w) && HasTag(Queue(w.cal.ev), t) && !HasTag(Queue(Run(w, es).cal.ev), t)
    ensures k < |es| && TakesOut(Run(w, es[..k]), es[k], t)
  {
    hide Inv, CardOk, Queue, Step, HasTag, TakesOut;
    var front := es[..|es| - 1];
    if HasTag(Queue(Run(w, front).cal.ev), t) {
      RunKeeps(w, front);
      OneStepOut(Run(w, front), es[|es| - 1], t);
      k := |es| - 1;
    } else {
      k := NothingIsLost(w, front, t);
      assert front[..k] == es[..k];
    }
  }

  /** An edit saved while a push is in the air outlives the answer exactly when the push was not of
      the event edited: the answer to its own push takes the edit off the queue unsent. */
  lemma EditOutlivesExactly(w: World, d: Draft, reply: seq<Line>, accepted: bool)
    requires Inv(w) && w.cal.stage == Pushing && d.title != "" && w.cal.formEdit && First(w.cal.ev, IsEditing) >= 0
    ensures var x := ContentOf(Edited(w.cal.ev[First(w.cal.ev, IsEditing)], d, w.cal.offset));
      x in Queue(Step(Step(w, Save(d)), Answer(0, reply, accepted)).cal.ev) <==> x.tag != w.air.value.what.tag
  {
    hide Queue, Inv;
    SendingIsInTheAir(w);
    ListKeeps(w, Save(d));
    StepIsNextQueue(w, Save(d));
    StepIsNextQueue(Step(w, Save(d)), Answer(0, reply, accepted));
  }

  // ---- a fetch -----------------------------------------------------------------------------

  /** What a fetch makes of the list: every queued event is in it, unchanged, and nothing else that
      was; the rest is the reply's, and none of it is a second copy of an event still queued. */
  lemma FetchKeepsQueued(c: Calendar, reply: seq<Line>)
    requires |c.ev| <= MAX_EVENTS
    ensures var d := Absorb(c, reply).ev;
      |d| <= MAX_EVENTS && Ordered(d, c.offset)
      && (forall e :: e in d && e.dirty <==> e in c.ev && e.dirty)
      && (forall e, f :: e in d && f in d && e.dirty && !f.dirty ==> f.id != "" && f.id != e.id)
  {
    hide Ordered;
    AbsorbedEvents(c, reply);
    QueuedHas(c.ev);
    var kept := Queued(c.ev);
    var d := Absorb(c, reply);
    SortIsStable(kept + Take(kept, [], reply, c.formEdit, c.editId, c.next), 0, c.offset);
    forall e, f | e in d.ev && f in d.ev && e.dirty && !f.dirty ensures f.id != "" && f.id != e.id {
      assert FromReply(f, c, d);
      var i :| 0 <= i < |kept| && kept[i] == e;
    }
  }

  /** Every line of the reply that has an id and a start, comes before any short line and for which
      there is sure to be room, is in the list: as the reply gives it, unless an edit of that event is
      still queued. */
  lemma EveryLineIsListed(c: Calendar, reply: seq<Line>, k: nat)
    requires k < |reply| && |Queued(c.ev)| + k < MAX_EVENTS
    requires forall j :: 0 <= j <= k ==> reply[j].Line?
    requires reply[k].id != "" && reply[k].start != 0
    ensures var kept, d := Queued(c.ev), Absorb(c, reply).ev;
      KeptId(kept, Cut(reply[k].id, ID_MAX - 1))
      || exists e :: e in d && e == Fetched(reply[k], kept, c.formEdit, c.editId, e.tag)
                     && e.id == Cut(reply[k].id, ID_MAX - 1)
  {
    hide KeptId;
    var kept := Queued(c.ev);
    if !KeptId(kept, Cut(reply[k].id, ID_MAX - 1)) {
      var got := Take(kept, [], reply, c.formEdit, c.editId, c.next);
      var t := TakeLists(c, kept, [], reply, k);
      SortHasThem(kept + got, c.offset);
      assert Fetched(reply[k], kept, c.formEdit, c.editId, t) in kept + got;
    }
  }

  lemma {:induction false} TakeLists(c: Calendar, kept: seq<Event>, got: seq<Event>, reply: seq<Line>, k: nat)
    returns (t: nat)
    requires k < |reply| && |kept| + |got| + k < MAX_EVENTS
    requires forall j :: 0 <= j <= k ==> reply[j].Line?
    requires reply[k].id != "" && reply[k].start != 0 && !KeptId(kept, Cut(reply[k].id, ID_MAX - 1))
    ensures Fetched(reply[k], kept, c.formEdit, c.editId, t) in Take(kept, got, reply, c.formEdit, c.editId, c.next)
    decreases |reply|
  {
    hide KeptId, Fetched;
    var e := Fetched(reply[0], kept, c.formEdit, c.editId, c.next + |got|);
    var next := if Listed(e) then got + [e] else got;
    if k == 0 {
      t := c.next + |got|;
      IsListed(c, kept, reply[0], t);
      TakeExtends(c, kept, next, reply[1..]);
      assert e in next;
    } else {
      t := TakeLists(c, kept, next, reply[1..], k - 1);
    }
  }

  lemma IsListed(c: Calendar, kept: seq<Event>, l: Line, t: nat)
    requires l.Line? && l.id != "" && l.start != 0 && !KeptId(kept, Cut(l.id, ID_MAX - 1))
    ensures Listed(Fetched(l, kept, c.formEdit, c.editId, t))
  {
    hide KeptId;
  }

  lemma {:induction false} TakeExtends(c: Calendar, kept: seq<Event>, got: seq<Event>, reply: seq<Line>)
    ensures got <= Take(kept, got, reply, c.formEdit, c.editId, c.next)
    decreases |reply|
  {
    hide KeptId;
    if |kept| + |got| >= MAX_EVENTS || reply == [] || reply[0].Short? {
    } else {
      var e := Fetched(reply[0], kept, c.formEdit, c.editId, c.next + |got|);
      TakeExtends(c, kept, if Listed(e) then got + [e] else got, reply[1..]);
    }
  }

  // ---- a sync left alone -------------------------------------------------------------------

  /** The pushes there are to make, in the order of the list. */
  function Unsent(s: seq<Event>): seq<Content> {
    if s == [] then []
    else Unsent(s[..|s| - 1]) + if IsUnsent(s[|s| - 1]) then [ContentOf(s[|s| - 1])] else []
  }

  lemma {:induction false} UnsentNone(s: seq<Event>)
    requires forall j :: 0 <= j < |s| ==> !IsUnsent(s[j])
    ensures Unsent(s) == []
  {
    if s != [] { UnsentNone(s[..|s| - 1]); }
  }

  lemma {:induction false} UnsentMarks(s: seq<Event>, r: seq<Event>)
    requires |s| == |r|
    requires forall j :: 0 <= j < |s| ==> IsUnsent(r[j]) == IsUnsent(s[j]) && ContentOf(r[j]) == ContentOf(s[j])
    ensures Unsent(s) == Unsent(r)
  {
    if s != [] { UnsentMarks(s[..|s| - 1], r[..|r| - 1]); }
  }

  /** The first is the one next_dirty finds; with that one sent the rest are left. */
  lemma {:induction false} UnsentFirst(s: seq<Event>, i: nat, e: Event)
    requires i < |s| && IsUnsent(s[i]) && !IsUnsent(e) && forall j :: 0 <= j < i ==> !IsUnsent(s[j])
    ensures Unsent(s) == [ContentOf(s[i])] + Unsent(s[i := e])
  {
    var front := s[..|s| - 1];
    if i == |s| - 1 {
      UnsentNone(front);
      assert s[i := e][..i] == front;
    } else {
      UnsentFirst(front, i, e);
      assert s[i := e][..|s| - 1] == front[i := e];
    }
  }

  /** Every push is taken. */
  function Taken(k: nat): seq<Input> { seq(k, _ => Answer(0, [], true)) }

  /** The sync between two requests of its own: what it sends next is the first event unsent. */
  predicate AtNext(w: World) {
    var i := First(w.cal.ev, IsUnsent);
    if i >= 0 then
      w.cal.stage == Pushing && w.air == Some(Post(ContentOf(w.cal.ev[i]))) && First(w.cal.ev, IsSending) == i
    else w.cal.stage == Fetching && w.air == Some(Get)
  }

  lemma SendNextIsAtNext(c: Calendar, v: World)
    requires (v.cal, v.air) == SendNext(c, true)
    ensures AtNext(v) && Unsent(v.cal.ev) == Unsent(c.ev)
  {
    var d := v.cal;
    UnsentMarks(c.ev, d.ev);
    var i, j := First(c.ev, IsUnsent), First(d.ev, IsUnsent);
    if i >= 0 {
      assert IsUnsent(d.ev[i]) && d.ev[i].sending;
      assert i == j;
      var k := First(d.ev, IsSending);
      assert d.ev[k].sending;
    }
  }

  lemma OnePush(w: World)
    requires AtNext(w) && Unsent(w.cal.ev) != []
    ensures w.air == Some(Post(Unsent(w.cal.ev)[0]))
    ensures var v := Step(w, Answer(0, [], true));
      AtNext(v) && Unsent(v.cal.ev) == Unsent(w.cal.ev)[1..]
      && v.cal == w.cal.(ev := v.cal.ev, stage := v.cal.stage)
      && |v.cal.ev| == |w.cal.ev| && forall j :: 0 <= j < |w.cal.ev| ==> v.cal.ev[j].deleted == w.cal.ev[j].deleted
  {
    hide AtNext, Unsent;
    var c := w.cal;
    var i := First(c.ev, IsUnsent);
    assert i >= 0 by { if i < 0 { UnsentNone(c.ev); } }
    var e := c.ev[i].(dirty := false, sending := false);
    UnsentFirst(c.ev, i, e);
    assert c.stage == Pushing && w.air == Some(Post(ContentOf(c.ev[i]))) && First(c.ev, IsSending) == i by {
      AtNextSends(w);
    }
    assert Answered(c).ev == c.ev[i := e];
    SendNextIsAtNext(Answered(c), Step(w, Answer(0, [], true)));
  }

  lemma AtNextSends(w: World)
    requires AtNext(w) && First(w.cal.ev, IsUnsent) >= 0
    ensures var i := First(w.cal.ev, IsUnsent);
      w.cal.stage == Pushing && w.air == Some(Post(ContentOf(w.cal.ev[i]))) && First(w.cal.ev, IsSending) == i
  {
  }

  lemma {:induction false} Pushes(w: World, k: nat)
    requires AtNext(w) && k <= |Unsent(w.cal.ev)|
    ensures var v := Run(w, Taken(k));
      AtNext(v) && Unsent(v.cal.ev) == Unsent(w.cal.ev)[k..]
      && v.cal == w.cal.(ev := v.cal.ev, stage := v.cal.stage)
      && |v.cal.ev| == |w.cal.ev| && forall j :: 0 <= j < |w.cal.ev| ==> v.cal.ev[j].deleted == w.cal.ev[j].deleted
  {
    hide AtNext, Unsent, Step;
    if k > 0 {
      Pushes(w, k - 1);
      assert Taken(k)[..k - 1] == Taken(k - 1);
      OnePush(Run(w, Taken(k - 1)));
    }
  }

  /** A sync nothing disturbs sends every event unsent once, in the order of the list, with what is
      in the list, then asks for the calendar; and when that comes the list is the server's. */
  lemma SyncEmptiesTheQueue(w: World, reply: seq<Line>)
    requires w.cal.stage == Idle && w.cal.haveClock
    requires forall j :: 0 <= j < |w.cal.ev| ==> !w.cal.ev[j].deleted
    ensures var unsent := Unsent(w.cal.ev);
      var begun := Step(w, Begin(true, None, true));
      (forall k :: 0 <= k < |unsent| ==> Run(begun, Taken(k)).air == Some(Post(unsent[k])))
      && Run(begun, Taken(|unsent|)).air == Some(Get)
      && var done := Step(Run(begun, Taken(|unsent|)), Answer(0, reply, true));
         done.cal.stage == Idle && Queue(done.cal.ev) == {}
         && done.cal.ev == Sort(Take([], [], reply, w.cal.formEdit, w.cal.editId, w.cal.next), w.cal.offset)
  {
    hide Unsent, Take, Sort, Queue, Step, AtNext;
    var begun := Step(w, Begin(true, None, true));
    StepOfBegin(w);
    SendNextIsAtNext(w.cal, begun);
    var unsent := Unsent(w.cal.ev);
    forall k | 0 <= k < |unsent| ensures Run(begun, Taken(k)).air == Some(Post(unsent[k])) {
      Pushes(begun, k);
      OnePush(Run(begun, Taken(k)));
    }
    Pushes(begun, |unsent|);
    var v := Run(begun, Taken(|unsent|));
    LastAnswer(v, reply);
  }

  lemma StepOfBegin(w: World)
    requires w.cal.stage == Idle && w.cal.haveClock
    ensures var v := Step(w, Begin(true, None, true)); (v.cal, v.air) == SendNext(w.cal, true)
  {
    hide SendNext;
  }

  lemma {:induction false} NothingQueued(s: seq<Event>)
    requires forall j :: 0 <= j < |s| ==> !s[j].dirty
    ensures Queued(s) == []
  {
    if s != [] { NothingQueued(s[..|s| - 1]); }
  }

  lemma LastAnswer(v: World, reply: seq<Line>)
    requires AtNext(v) && Unsent(v.cal.ev) == [] && forall j :: 0 <= j < |v.cal.ev| ==> !v.cal.ev[j].deleted
    ensures v.air == Some(Get)
    ensures var done := Step(v, Answer(0, reply, true));
      done.cal.stage == Idle && Queue(done.cal.ev) == {}
      && done.cal.ev == Sort(Take([], [], reply, v.cal.formEdit, v.cal.editId, v.cal.next), v.cal.offset)
  {
    hide Take, Sort;
    var c := v.cal;
    var i := First(c.ev, IsUnsent);
    if i >= 0 { UnsentFirst(c.ev, i, c.ev[i].(dirty := false)); }
    NothingQueued(c.ev);
    var got := Take([], [], reply, c.formEdit, c.editId, c.next);
    assert [] + got == got;
    TakeIsFresh(c, [], [], reply);
    FreshIsClean(got, [], c);
    SortHasThem(got, c.offset);
  }
}
