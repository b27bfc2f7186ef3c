/** Which events the server has, and which the app may delete or send as new: apps/calendar.c, lines
    519-537, 636-676, 798-842, 916-977 and 989-1028.

    A pushed event's id comes back only with the fetch after it; until then nothing on the device
    tells it from one never sent but a clear `dirty`.  Saving the form on such an event sets that
    again. */
module CalendarKnown {
  import opened Common
  import opened Str
  import opened Calendar
  import opened CalendarCache
  import opened CalendarRuns
  import opened CalendarQueue

  /** The server is known to have an event when it has an id or is no longer queued, and not
      otherwise. */
  predicate KnownIn(e: Event, known: set<nat>) {
    e.tag in known <==> e.id != "" || !e.dirty
  }

  predicate AllKnownIn(s: seq<Event>, known: set<nat>) {
    forall e :: e in s ==> KnownIn(e, known)
  }

  predicate KnownOk(w: World) {
    (forall t :: t in w.known ==> t < w.cal.next) && AllKnownIn(w.cal.ev, w.known)
  }

  predicate LosesId(e: Event) {
    e.dirty && e.id != "" && Back(e).Some? && Back(e).value.id == ""
  }

  /** The two steps that make an event the server has look like one it has not: saving the form on an
      event already pushed whose id has not come back, and a restart with an edit queued whose id the
      cache does not give back. */
  predicate Slips(w: World, e: Input) {
    match e
    case Save(d) =>
      FormSaves(w.cal, d) && w.cal.formEdit
      && var x := w.cal.ev[First(w.cal.ev, IsEditing)]; x.id == "" && !x.dirty
    case Restart(_) => exists x :: x in w.cal.ev && LosesId(x)
    case _ => false
  }

  // ---- step by step --------------------------------------------------------------------------

  lemma RemarkedKnown(s: seq<Event>, r: seq<Event>, known: set<nat>)
    requires Remarked(s, r) && AllKnownIn(s, known)
    ensures AllKnownIn(r, known)
  {
    forall e | e in r ensures KnownIn(e, known) {
      var j :| 0 <= j < |r| && r[j] == e;
      assert KnownIn(s[j], known);
    }
  }

  lemma SortedKnown(s: seq<Event>, known: set<nat>, offset: int)
    ensures AllKnownIn(Sort(s, offset), known) <==> AllKnownIn(s, known)
  {
    hide Sort, KnownIn;
    SortHasThem(s, offset);
  }

  lemma UnsavedKnown(w: World, e: Input)
    requires Inv(w) && KnownOk(w) && !e.Restart? && !Saves(w, e)
    ensures KnownOk(Step(w, e)) && !Slips(w, e)
  {
    hide Inv, Move, KnownIn;
    UnsavedIsMarks(w, e);
    RemarkedKnown(w.cal.ev, Move(w, e).cal.ev, w.known);
    assert w.known + {} == w.known;
  }

  lemma AnsweredKnown(w: World, n: int)
    requires Inv(w) && KnownOk(w) && w.cal.stage == Pushing && w.air.Some? && w.air.value.Post?
    requires Settles(n, w.air.value.what)
    ensures AllKnownIn(Answered(w.cal).ev, w.known + if n >= 0 then {w.air.value.what.tag} else {})
    ensures w.air.value.what.tag < w.cal.next
  {
    var s, i, t := w.cal.ev, First(w.cal.ev, IsSending), w.air.value.what.tag;
    SendingIsInTheAir(w);
    assert EventOk(s[i], w) && KnownIn(s[i], w.known);
    forall e | e in Answered(w.cal).ev ensures KnownIn(e, w.known + if n >= 0 then {t} else {}) {
      var j :| 0 <= j < |s| && Answered(w.cal).ev[j] == e;
      assert KnownIn(s[j], w.known);
      assert j != i ==> s[j].tag != t;
    }
  }

  lemma PushKnown(w: World, e: Input)
    requires Inv(w) && KnownOk(w) && e.Answer? && Saves(w, e) && w.cal.stage == Pushing
    ensures KnownOk(Step(w, e))
  {
    hide Inv, SendNext, KnownIn;
    SendingIsInTheAir(w);
    AnsweredKnown(w, e.n);
    AnsweredOnce(w);
    var d := Answered(w.cal);
    SendNextMarks(d, e.accepted);
    RemarkedKnown(d.ev, SendNext(d, e.accepted).0.ev, w.known + Learned(w, e));
  }

  lemma AbsorbedTags(c: Calendar, reply: seq<Line>)
    requires |c.ev| <= MAX_EVENTS
    ensures var d := Absorb(c, reply);
      d.next >= c.next && forall e :: e in d.ev && !e.dirty ==> e.id != "" && c.next <= e.tag < d.next
  {
    hide Absorb, KeptId, Queued;
    AbsorbedEvents(c, reply);
    NextGrows(c, reply);
  }

  lemma NextGrows(c: Calendar, reply: seq<Line>)
    ensures Absorb(c, reply).next >= c.next
  {
    hide Take, Sort, Queued;
  }

  lemma AbsorbedKnown(c: Calendar, reply: seq<Line>, known: set<nat>, learned: set<nat>)
    requires |c.ev| <= MAX_EVENTS && AllKnownIn(c.ev, known) && forall e :: e in c.ev ==> e.tag < c.next
    requires learned == set x | x in Absorb(c, reply).ev && !x.dirty :: x.tag
    ensures AllKnownIn(Absorb(c, reply).ev, known + learned)
  {
    hide Absorb, FromReply;
    var d := Absorb(c, reply);
    AbsorbedEvents(c, reply);
    AbsorbedTags(c, reply);
    forall x | x in d.ev ensures KnownIn(x, known + learned) {
      assert x.dirty ==> x in c.ev && KnownIn(x, known) && x.tag !in learned;
    }
  }

  lemma FetchKnown(w: World, e: Input)
    requires Inv(w) && KnownOk(w) && e.Answer? && Saves(w, e) && w.cal.stage == Fetching
    ensures KnownOk(Step(w, e))
  {
    hide Absorb, Distinct, AllKnownIn;
    AbsorbedTags(w.cal, e.reply);
    forall x | x in w.cal.ev ensures x.tag < w.cal.next { assert EventOk(x, w); }
    AbsorbedKnown(w.cal, e.reply, w.known, Learned(w, e));
  }

  lemma AddKnown(w: World, e: Input)
    requires Inv(w) && KnownOk(w) && e.Save? && Saves(w, e) && !w.cal.formEdit
    ensures KnownOk(Step(w, e)) && !Slips(w, e)
  {
    hide Inv, Sort;
    var c, d := w.cal, e.draft;
    SortedKnown(c.ev + [Added(c, d.title, d.day, d.hour, d.minute)], w.known, c.offset);
  }

  lemma EditKnown(w: World, e: Input)
    requires Inv(w) && KnownOk(w) && e.Save? && Saves(w, e) && w.cal.formEdit
    ensures KnownOk(Step(w, e)) <==> !Slips(w, e)
  {
    hide Inv, Sort, Edited, Changed;
    var c, i := w.cal, First(w.cal.ev, IsEditing);
    CommitSorts(c, e.draft, i);
    SortedKnown(Changed(c, i, e.draft), w.known, c.offset);
    ChangedKnown(c, i, e.draft, w.known);
  }

  lemma ChangedKnown(c: Calendar, i: nat, d: Draft, known: set<nat>)
    requires i < |c.ev| && AllKnownIn(c.ev, known)
    ensures AllKnownIn(Changed(c, i, d), known) <==> c.ev[i].id != "" || c.ev[i].dirty
  {
    var r := Changed(c, i, d);
    assert KnownIn(c.ev[i], known) && r[i] in r;
    forall e | e in r ensures e == r[i] || KnownIn(e, known) {
      var j :| 0 <= j < |r| && r[j] == e;
      assert KnownIn(c.ev[j], known);
    }
  }

  lemma DeleteKnown(w: World, e: Input)
    requires KnownOk(w) && e.Yes? && Saves(w, e)
    ensures KnownOk(Step(w, e))
  {
    hide KnownIn;
    var s := ClearAsking(w.cal).ev;
    RemarkedKnown(w.cal.ev, s, w.known);
    var i := First(w.cal.ev, IsAsking);
    assert forall e :: e in s[..i] + s[i + 1..] ==> e in s;
    assert w.known + {} == w.known;
  }

  lemma RestartKnown(w: World, e: Input)
    requires Inv(w) && CardOk(w) && KnownOk(w) && e.Restart?
    ensures KnownOk(Step(w, e)) <==> !Slips(w, e)
  {
    hide Inv, Back, Sort, Distinct;
    var r := Step(w, e).cal.ev;
    SortHasThem(Reread(w.saved), Step(w, e).cal.offset);
    RereadHas(w.cal.ev);
    assert forall x :: x in r <==> x in Held(w.cal.ev);
    forall x | x in w.cal.ev && Back(x).Some?
      ensures Back(x).value in r && (KnownIn(Back(x).value, w.known) <==> !LosesId(x))
    {
      assert KnownIn(x, w.known);
      BackIsBack(x);
      NoIdBack(x);
    }
    forall x | x in r ensures exists y :: y in w.cal.ev && Back(y) == Some(x) {}
  }

  lemma NoIdBack(e: Event)
    ensures e.id == "" && Back(e).Some? ==> Back(e).value.id == ""
  {
    hide CacheLine, LoadLine;
    if e.id == "" { ListedAgainExactly(e, e.tag); }
  }

  /** One step keeps it exactly when it is not one of the two. */
  lemma StepKnownExactly(w: World, e: Input)
    requires Inv(w) && CardOk(w) && KnownOk(w)
    ensures KnownOk(Step(w, e)) <==> !Slips(w, e)
  {
    hide Inv, CardOk, KnownOk, Move, Learned;
    if e.Restart? { RestartKnown(w, e); }
    else if !Saves(w, e) { UnsavedKnown(w, e); }
    else if e.Yes? { DeleteKnown(w, e); }
    else if e.Answer? {
      if w.cal.stage == Pushing { PushKnown(w, e); } else { FetchKnown(w, e); }
    }
    else if w.cal.formEdit { EditKnown(w, e); }
    else { AddKnown(w, e); }
  }

  // ---- over a run ------------------------------------------------------------------------------

  predicate AlwaysKnown(w: World, es: seq<Input>) {
    forall k :: 0 <= k <= |es| ==> KnownOk(Run(w, es[..k]))
  }

  predicate NeverSlips(w: World, es: seq<Input>) {
    forall k :: 0 <= k < |es| ==> !Slips(Run(w, es[..k]), es[k])
  }

  lemma OneStepMore(w: World, es: seq<Input>)
    requires es != []
    ensures var front, n := es[..|es| - 1], |es| - 1;
      (AlwaysKnown(w, es) <==> AlwaysKnown(w, front) && KnownOk(Run(w, es)))
      && (NeverSlips(w, es) <==> NeverSlips(w, front) && !Slips(Run(w, front), es[n]))
  {
    hide KnownOk, Slips, Run;
    var front, n := es[..|es| - 1], |es| - 1;
    assert forall k :: 0 <= k <= n ==> es[..k] == front[..k];
    assert es[..|es|] == es;
  }

  /** Over any run, restarts and all, what the server has can be told from the list at every moment
      exactly when no step is one of the two. */
  lemma {:induction false} RunKnownExactly(w: World, es: seq<Input>)
    requires Inv(w) && CardOk(w) && KnownOk(w)
    ensures AlwaysKnown(w, es) <==> NeverSlips(w, es)
  {
    hide Inv, CardOk, KnownOk, Slips, Step, AlwaysKnown, NeverSlips;
    if es == [] {
      assert AlwaysKnown(w, es) && NeverSlips(w, es) by { NothingYet(w); }
    } else {
      var front := es[..|es| - 1];
      RunKnownExactly(w, front);
      OneStepMore(w, es);
      RunKeeps(w, front);
      if AlwaysKnown(w, front) {
        assert KnownOk(Run(w, front)) by { KnownAtLast(w, front); }
        StepKnownExactly(Run(w, front), es[|es| - 1]);
      }
    }
  }

  lemma NothingYet(w: World)
    requires KnownOk(w)
    ensures AlwaysKnown(w, []) && NeverSlips(w, [])
  {
  }

  lemma KnownAtLast(w: World, es: seq<Input>)
    requires AlwaysKnown(w, es)
    ensures KnownOk(Run(w, es))
  {
    assert es[..|es|] == es;
  }

  /** So, from a new device, as long as neither has happened: a push that makes a new event is never
      of one the server is known to have, and a delete is of such a one exactly when the event deleted
      is not queued. */
  lemma KnownFromNew(es: seq<Input>)
    requires NeverSlips(NEW_DEVICE, es)
    ensures var w := Run(NEW_DEVICE, es); var i := First(w.cal.ev, IsAsking);
      (w.air.Some? && w.air.value.Post? && w.air.value.what.id == "" ==> w.air.value.what.tag !in w.known)
      && (DeleteSaves(w.cal) ==> i >= 0 && (w.cal.ev[i].tag in w.known <==> !w.cal.ev[i].dirty))
  {
    hide Run, Slips;
    NewIsKnown();
    RunKnownExactly(NEW_DEVICE, es);
    RunKeeps(NEW_DEVICE, es);
    KnownAtLast(NEW_DEVICE, es);
    NotSentTwice(Run(NEW_DEVICE, es));
  }

  lemma NewIsKnown()
    ensures Inv(NEW_DEVICE) && CardOk(NEW_DEVICE) && KnownOk(NEW_DEVICE)
  {
  }

  lemma NotSentTwice(w: World)
    requires Inv(w) && KnownOk(w)
    ensures var i := First(w.cal.ev, IsAsking);
      (w.air.Some? && w.air.value.Post? && w.air.value.what.id == "" ==> w.air.value.what.tag !in w.known)
      && (DeleteSaves(w.cal) ==> i >= 0 && (w.cal.ev[i].tag in w.known <==> !w.cal.ev[i].dirty))
  {
    SendingIsInTheAir(w);
    var i := First(w.cal.ev, IsSending);
    if i >= 0 { assert KnownIn(w.cal.ev[i], w.known); }
    var j := First(w.cal.ev, IsAsking);
    if j >= 0 { assert KnownIn(w.cal.ev[j], w.known); }
  }

  lemma {:induction false} UnsentHas(s: seq<Event>, e: Event)
    requires e in s && IsUnsent(e)
    ensures ContentOf(e) in Unsent(s)
  {
    if e != s[|s| - 1] { UnsentHas(s[..|s| - 1], e); }
  }

  /** And the first of the two is never harmless: saving the form on an event already pushed whose id
      has not come back makes the next sync, left alone, send it as a new one. */
  lemma SlipIsSentAgain(w: World, d: Draft)
    requires KnownOk(w) && Slips(w, Save(d)) && w.cal.stage == Idle && w.cal.haveClock
    requires forall j :: 0 <= j < |w.cal.ev| ==> !w.cal.ev[j].deleted
    ensures var begun := Step(Step(w, Save(d)), Begin(true, None, true));
      exists k: nat, x :: Run(begun, Taken(k)).air == Some(Post(x)) && x.id == "" && x.tag in w.known
  {
    hide KnownOk, Run, Queue, Take, Unsent, Edited, Changed;
    var c, i := w.cal, First(w.cal.ev, IsEditing);
    var v := Step(w, Save(d));
    CommitSorts(c, d, i);
    var x := Changed(c, i, d)[i];
    EditedInPlace(w, i, d);
    SortHasThem(Changed(c, i, d), c.offset);
    UnsentHas(v.cal.ev, x);
    SyncEmptiesTheQueue(v, []);
    var k :| 0 <= k < |Unsent(v.cal.ev)| && Unsent(v.cal.ev)[k] == ContentOf(x);
  }

  lemma EditedInPlace(w: World, i: nat, d: Draft)
    requires i < |w.cal.ev| && KnownOk(w) && w.cal.ev[i].id == "" && !w.cal.ev[i].dirty
    requires forall j :: 0 <= j < |w.cal.ev| ==> !w.cal.ev[j].deleted
    ensures var r := Changed(w.cal, i, d);
      r[i] in r && IsUnsent(r[i]) && r[i].id == "" && r[i].tag in w.known && forall x :: x in r ==> !x.deleted
  {
    assert KnownIn(w.cal.ev[i], w.known);
  }

  // ---- the runs that show it -----------------------------------------------------------------

  const LUNCH: Draft := Draft("lunch", 0, 12, 0)

  function Lunch(dirty: bool, sending: bool, editing: bool, asking: bool): Event {
    Event(0, "", "lunch", 43200, 46800, false, dirty, false, sending, editing, asking, 0)
  }

  function Day(e: Event, stage: Stage, formEdit: bool): Calendar {
    Calendar([e], stage, 0, true, formEdit, "", 1)
  }

  /** An event is added and pushed, the server takes it, and the fetch after that fails. */
  function TakenUnfetched(): seq<Input> {
    [Save(LUNCH)] + [Begin(true, Some(0), true)] + [Answer(0, [], true)] + [Answer(-1, [], true)]
  }

  lemma RunAppend(w: World, es: seq<Input>, e: Input)
    ensures Run(w, es + [e]) == Step(Run(w, es), e)
  {
    assert (es + [e])[..|es|] == es;
  }

  lemma SortOne(e: Event, offset: int)
    ensures Sort([e], offset) == [e]
  {
    assert [e][..0] == [];
  }

  lemma FirstOfOne(e: Event, p: Event -> bool)
    ensures First([e], p) == if p(e) then 0 else -1
  {
  }

  /** The world after the first steps: the event on the list as it is saved, and nothing marked. */
  function Listed1(e: Event, saved: Event, known: set<nat>): World {
    World(Day(e, Idle, false), None, 0, 0, [saved], known)
  }

  function JustAdded(): World {
    var e := Lunch(true, false, false, false);
    World(Day(e, Idle, false).(haveClock := false), None, 0, 0, [e], {})
  }

  function InTheAir(): World {
    var e := Lunch(true, true, false, false);
    World(Day(e, Pushing, false), Some(Post(ContentOf(e))), 0, 0, [Lunch(true, false, false, false)], {})
  }

  function Fetching1(): World {
    var e := Lunch(false, false, false, false);
    World(Day(e, Fetching, false), Some(Get), 0, 0, [e], {0})
  }

  lemma LunchAdded()
    ensures Step(NEW_DEVICE, Save(LUNCH)) == JustAdded()
  {
    hide Sort;
    var e := Lunch(true, false, false, false);
    assert Cut("lunch", SUMMARY_MAX) == "lunch" && Unquoted("lunch") == "lunch";
    assert Added(NEW_DEVICE.cal, "lunch", 0, 12, 0) == e;
    assert NEW_DEVICE.cal.ev + [e] == [e];
    SortOne(e, 0);
  }

  lemma LunchSent()
    ensures Step(JustAdded(), Begin(true, Some(0), true)) == InTheAir()
  {
    hide First;
    var e := Lunch(true, false, false, false);
    FirstOfOne(e, IsUnsent);
    assert MarkSending([e], 0) == [Lunch(true, true, false, false)];
  }

  lemma LunchAnswered()
    ensures Step(InTheAir(), Answer(0, [], true)) == Fetching1()
  {
    hide First;
    var e, f := Lunch(true, true, false, false), Lunch(false, false, false, false);
    FirstOfOne(e, IsSending);
    FirstOfOne(f, IsUnsent);
    assert [e][0 := f] == [f];
  }

  lemma FetchFails()
    ensures Step(Fetching1(), Answer(-1, [], true))
         == Listed1(Lunch(false, false, false, false), Lunch(false, false, false, false), {0})
  {
  }

  lemma NothingRun()
    ensures Run(NEW_DEVICE, []) == NEW_DEVICE
  {
  }

  lemma LunchIsTaken()
    ensures Run(NEW_DEVICE, TakenUnfetched())
         == Listed1(Lunch(false, false, false, false), Lunch(false, false, false, false), {0})
  {
    hide Run, Step;
    var es: seq<Input> := [Save(LUNCH)];
    NothingRun();
    RunAppend(NEW_DEVICE, [], Save(LUNCH));
    assert [] + es == es;
    LunchAdded();
    RunAppend(NEW_DEVICE, es, Begin(true, Some(0), true));
    LunchSent();
    RunAppend(NEW_DEVICE, es + [Begin(true, Some(0), true)], Answer(0, [], true));
    LunchAnswered();
    RunAppend(NEW_DEVICE, es + [Begin(true, Some(0), true)] + [Answer(0, [], true)], Answer(-1, [], true));
    FetchFails();
  }

  /** The event is on the list with no id, the server has it, and Delete takes it. */
  lemma TakenButDeleted()
    ensures var w := Run(NEW_DEVICE, TakenUnfetched());
      |w.cal.ev| == 1 && w.cal.ev[0].id == "" && w.cal.ev[0].tag in w.known
    ensures Run(NEW_DEVICE, TakenUnfetched() + [Ask(0)] + [Yes]).cal.ev == []
  {
    hide Run, TakenUnfetched;
    LunchIsTaken();
    RunAppend(NEW_DEVICE, TakenUnfetched(), Ask(0));
    RunAppend(NEW_DEVICE, TakenUnfetched() + [Ask(0)], Yes);
    LunchAsked(Lunch(false, false, false, false), {0});
    LunchDeleted(Lunch(false, false, false, false), {0});
  }

  lemma LunchAsked(e: Event, known: set<nat>)
    requires Deletable(e) && e.tag == 0
    ensures Step(Listed1(e, e, known), Ask(0)) == Listed1(e.(asking := true), e, known)
  {
    assert MarkAsking([e], 0) == [e.(asking := true)];
  }

  lemma LunchDeleted(e: Event, known: set<nat>)
    requires Deletable(e)
    ensures Step(Listed1(e.(asking := true), e, known), Yes).cal.ev == []
  {
    hide First;
    FirstOfOne(e.(asking := true), IsAsking);
    assert |MarkAsking([e.(asking := true)], -1)| == 1;
  }

  /** Opened and saved again it is queued once more: the next sync sends the server a second event, and
      Delete takes a queued event that the server has. */
  lemma TakenButSentAgain()
    ensures var es := TakenUnfetched() + [Open(0)] + [Save(LUNCH)];
      var w, u := Run(NEW_DEVICE, es + [Begin(true, None, true)]), Run(NEW_DEVICE, es + [Ask(0)]);
      w.air == Some(Post(ContentOf(Lunch(true, true, false, false)))) && 0 in w.known
      && HasTag(Queue(u.cal.ev), 0) && TakesOut(u, Yes, 0) && 0 in u.known && Step(u, Yes).cal.ev == []
  {
    hide Run, TakenUnfetched, First, Queue;
    var e, f := Lunch(false, false, false, false), Lunch(true, false, false, false);
    LunchIsTaken();
    RunAppend(NEW_DEVICE, TakenUnfetched(), Open(0));
    RunAppend(NEW_DEVICE, TakenUnfetched() + [Open(0)], Save(LUNCH));
    LunchOpened();
    LunchSaved();
    var es := TakenUnfetched() + [Open(0)] + [Save(LUNCH)];
    RunAppend(NEW_DEVICE, es, Begin(true, None, true));
    LunchSentAgain();
    RunAppend(NEW_DEVICE, es, Ask(0));
    LunchAsked(f, {0});
    LunchDeleted(f, {0});
    LunchQueued(f.(asking := true));
    FirstOfOne(f.(asking := true), IsAsking);
  }

  lemma LunchOpened()
    ensures var e := Lunch(false, false, false, false);
      Step(Listed1(e, e, {0}), Open(0)) == Opened1()
  {
    var e := Lunch(false, false, false, false);
    assert MarkEditing([e], 0) == [e.(editing := true)];
  }

  function Opened1(): World {
    World(Day(Lunch(false, false, true, false), Idle, true), None, 0, 0, [Lunch(false, false, false, false)], {0})
  }

  lemma LunchSaved()
    ensures var f := Lunch(true, false, false, false); Step(Opened1(), Save(LUNCH)) == Listed1(f, f, {0})
  {
    hide Sort, First;
    var e, f := Lunch(false, false, true, false), Lunch(true, false, false, false);
    FirstOfOne(e, IsEditing);
    assert Cut("lunch", SUMMARY_MAX) == "lunch";
    assert Edited(e, LUNCH, 0) == f.(editing := true);
    assert [e][0 := f.(editing := true)] == [f.(editing := true)];
    assert MarkEditing([f.(editing := true)], -1) == [f];
    SortOne(f, 0);
  }

  lemma LunchSentAgain()
    ensures var f := Lunch(true, false, false, false);
      var v := Step(Listed1(f, f, {0}), Begin(true, None, true));
      v.air == Some(Post(ContentOf(Lunch(true, true, false, false)))) && v.known == {0}
  {
    hide First;
    FirstOfOne(Lunch(true, false, false, false), IsUnsent);
  }

  lemma LunchQueued(e: Event)
    requires e.dirty
    ensures HasTag(Queue([e]), e.tag)
  {
    assert e in [e] && ContentOf(e) in Queue([e]);
  }

  // ---- the edit the answer takes with it -----------------------------------------------------

  const DINNER: Draft := Draft("dinner", 0, 19, 0)

  /** An event is added, the form opened on it, and a sync begun. */
  function SentWhileOpen(): seq<Input> {
    [Save(LUNCH)] + [Open(0)] + [Begin(true, Some(0), true)]
  }

  function OpenInTheAir(): World {
    var e := Lunch(true, true, true, false);
    World(Day(e, Pushing, true), Some(Post(ContentOf(e))), 0, 0, [Lunch(true, false, false, false)], {})
  }

  function OpenQueued(): World {
    var e := Lunch(true, false, false, false);
    World(Day(e.(editing := true), Idle, true).(haveClock := false), None, 0, 0, [e], {})
  }

  lemma LunchOpenedQueued()
    ensures Step(JustAdded(), Open(0)) == OpenQueued()
  {
    assert MarkEditing([Lunch(true, false, false, false)], 0) == [Lunch(true, false, true, false)];
  }

  lemma LunchSentOpen()
    ensures Step(OpenQueued(), Begin(true, Some(0), true)) == OpenInTheAir()
  {
    hide First;
    var e := Lunch(true, false, true, false);
    FirstOfOne(e, IsUnsent);
    assert MarkSending([e], 0) == [Lunch(true, true, true, false)];
  }

  lemma OpenIsSent()
    ensures Run(NEW_DEVICE, SentWhileOpen()) == OpenInTheAir()
  {
    hide Run, Step;
    var es: seq<Input> := [Save(LUNCH)];
    NothingRun();
    RunAppend(NEW_DEVICE, [], Save(LUNCH));
    assert [] + es == es;
    LunchAdded();
    RunAppend(NEW_DEVICE, es, Open(0));
    LunchOpenedQueued();
    RunAppend(NEW_DEVICE, es + [Open(0)], Begin(true, Some(0), true));
    LunchSentOpen();
  }

  lemma OpenIsOk()
    ensures Inv(OpenInTheAir())
  {
    hide Run;
    OpenIsSent();
    NewIsKnown();
    RunKeeps(NEW_DEVICE, SentWhileOpen());
  }

  lemma StillInTheAir()
    ensures Step(OpenInTheAir(), Save(DINNER)).air == OpenInTheAir().air
  {
    hide Sort, First, Edited;
  }

  lemma NotAsSent()
    ensures var w := OpenInTheAir(); Some(Post(ContentOf(Edited(w.cal.ev[0], DINNER, 0)))) != w.air
  {
    assert Cut("dinner", SUMMARY_MAX) == "dinner";
  }

  /** Saved while that push is in the air, the edit is queued; and the answer to the push takes it off
      again, never sent. */
  lemma EditIsLostInTheAir()
    ensures Run(NEW_DEVICE, SentWhileOpen()) == OpenInTheAir()
    ensures var w := OpenInTheAir(); var x := ContentOf(Edited(w.cal.ev[0], DINNER, 0));
      var v := Step(w, Save(DINNER));
      Some(Post(x)) != w.air
      && x in Queue(v.cal.ev) && !HasTag(Queue(Step(v, Answer(0, [], true)).cal.ev), x.tag)
  {
    hide Queue, First, SentWhileOpen, Run, Step, Instant, Word, Cut, Inv;
    OpenIsSent();
    OpenIsOk();
    var w := OpenInTheAir();
    FirstOfOne(w.cal.ev[0], IsEditing);
    StepIsNextQueue(w, Save(DINNER));
    ListKeeps(w, Save(DINNER));
    StillInTheAir();
    StepIsNextQueue(Step(w, Save(DINNER)), Answer(0, [], true));
    NotAsSent();
  }
}
