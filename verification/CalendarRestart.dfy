/** Calendar's queue while the power is off: apps/calendar.c, lines 436-509, 664-668, 818, 890-891,
    943-944, 1026 and 2041.

    A restart in CalendarRuns lists the events last saved, each as its own line gives it back.  Here
    that is what reading the file gives, at every moment of a run, and the queue it leaves is compared
    with the one before it. */
module CalendarRestart {
  import opened Common
  import opened Str
  import opened Calendar
  import opened CalendarCache
  import opened CalendarRuns
  import opened CalendarQueue

  predicate AllSound(s: seq<Event>) {
    forall e :: e in s ==> Sound(e)
  }

  /** What the form takes and the reply's lines can hold: no newlines, and instants of 32 bits. */
  predicate Typed(e: Input) {
    match e
    case Save(d) => '\n' !in d.title
    case Answer(_, reply, _) => forall l :: l in reply && l.Line? ==> SoundLine(l)
    case _ => true
  }

  predicate SoundLine(l: Line)
    requires l.Line?
  {
    '\n' !in l.id && '\n' !in l.summary && l.start < 0x1_0000_0000 && l.end < 0x1_0000_0000
  }

  // ---- every event fits its line ---------------------------------------------------------------

  lemma RemarkedSound(s: seq<Event>, r: seq<Event>)
    requires Remarked(s, r) && AllSound(s)
    ensures AllSound(r)
  {
    forall e | e in r ensures Sound(e) {
      var j :| 0 <= j < |r| && r[j] == e;
      assert Sound(s[j]);
    }
  }

  lemma SortedSound(s: seq<Event>, offset: int)
    requires AllSound(s)
    ensures AllSound(Sort(s, offset))
  {
    hide Sort, Sound;
    SortHasThem(s, offset);
  }

  lemma CutHasNoNewline(s: string, n: nat)
    requires '\n' !in s
    ensures '\n' !in Cut(s, n) && '\n' !in Unquoted(Cut(s, n)) && |Cut(s, n)| <= n
  {
  }

  lemma WordIsShort(x: int)
    ensures Word(x) < 0x1_0000_0000
  {
  }

  lemma AddedSound(c: Calendar, d: Draft)
    requires '\n' !in d.title
    ensures Sound(Added(c, d.title, d.day, d.hour, d.minute))
  {
    hide Cut, Unquoted, Word;
    CutHasNoNewline(d.title, SUMMARY_MAX);
    WordIsShort(d.day * DAY_SECS + d.hour * 3600 + d.minute * 60 - c.offset);
    WordIsShort(Instant(d.day, d.hour, d.minute, c.offset) + 3600);
  }

  lemma EditedSound(e: Event, d: Draft, offset: int)
    requires Sound(e) && '\n' !in d.title
    ensures Sound(Edited(e, d, offset))
  {
    hide Cut, Unquoted, Word;
    var len := if e.end > e.start then e.end - e.start else if e.allDay then DAY_SECS else 3600;
    CutHasNoNewline(d.title, SUMMARY_MAX);
    WordIsShort(d.day * DAY_SECS);
    WordIsShort(d.day * DAY_SECS + d.hour * 3600 + d.minute * 60 - offset);
    WordIsShort(Edited(e, d, offset).start + len);
  }

  lemma FetchedSound(l: Line, kept: seq<Event>, formEdit: bool, editId: string, tag: nat)
    requires l.Line? && SoundLine(l)
    ensures Sound(Fetched(l, kept, formEdit, editId, tag))
  {
    hide KeptId;
  }

  lemma {:induction false} TakeSound(c: Calendar, kept: seq<Event>, got: seq<Event>, reply: seq<Line>)
    requires AllSound(got) && forall l :: l in reply && l.Line? ==> SoundLine(l)
    ensures AllSound(Take(kept, got, reply, c.formEdit, c.editId, c.next))
    decreases |reply|
  {
    hide Fetched, Sound, SoundLine;
    if |kept| + |got| >= MAX_EVENTS || reply == [] || reply[0].Short? {
    } else {
      var e := Fetched(reply[0], kept, c.formEdit, c.editId, c.next + |got|);
      FetchedSound(reply[0], kept, c.formEdit, c.editId, c.next + |got|);
      TakeSound(c, kept, if Listed(e) then got + [e] else got, reply[1..]);
    }
  }

  lemma AbsorbSound(c: Calendar, reply: seq<Line>)
    requires AllSound(c.ev) && forall l :: l in reply && l.Line? ==> SoundLine(l)
    ensures AllSound(Absorb(c, reply).ev)
  {
    hide Take, Sound, SoundLine, Sort, Queued;
    QueuedHas(c.ev);
    TakeSound(c, Queued(c.ev), [], reply);
    SortedSound(Queued(c.ev) + Take(Queued(c.ev), [], reply, c.formEdit, c.editId, c.next), c.offset);
  }

  lemma {:induction false} NoNewBlanks(s: string)
    requires '\n' !in s
    ensures '\n' !in AfterBlanks(s)
  {
    if s != "" && s[0] == ' ' { NoNewBlanks(s[1..]); }
  }

  lemma ScanLeaves(s: string)
    requires '\n' !in s
    ensures '\n' !in ScanUl(s).1
  {
    hide AfterBlanks, DigitRun;
    NoNewBlanks(s);
  }

  lemma LoadedHasNoNewline(line: string, tag: nat)
    requires '\n' !in line
    ensures var e := LoadLine(line, tag); e.Some? ==> '\n' !in e.value.id && '\n' !in e.value.summary
  {
    hide ScanUl, AfterBlanks, WordRun;
    var s := if |line| > 5 then line[5..] else "";
    ScanLeaves(s);
    ScanLeaves(ScanUl(s).1);
    var s3 := AfterBlanks(ScanUl(ScanUl(s).1).1);
    NoNewBlanks(ScanUl(ScanUl(s).1).1);
    NoNewBlanks(s3[WordRun(s3, ID_MAX - 1)..]);
  }

  lemma BackSound(e: Event)
    requires Sound(e)
    ensures Back(e).Some? ==> Sound(Back(e).value)
  {
    hide CacheLine, LoadLine;
    LineFits(e);
    BackIsBack(e);
    LoadedHasNoNewline(CacheLine(e), e.tag);
  }

  lemma RestartSound(w: World, e: Input)
    requires AllSound(w.saved) && e.Restart?
    ensures AllSound(Step(w, e).cal.ev)
  {
    hide Back, Sort, Sound;
    RereadHas(w.saved);
    forall x | x in Reread(w.saved) ensures Sound(x) {
      var f :| f in w.saved && Back(f) == Some(x);
      BackSound(f);
    }
    SortedSound(Reread(w.saved), Step(w, e).cal.offset);
  }

  lemma PushSound(w: World, e: Input)
    requires Inv(w) && AllSound(w.cal.ev) && e.Answer? && w.cal.stage == Pushing
    ensures AllSound(Step(w, e).cal.ev)
  {
    hide SendNext, Inv;
    var d := Answered(w.cal);
    AnsweredOnce(w);
    forall x | x in d.ev ensures Sound(x) {
      var j :| 0 <= j < |d.ev| && d.ev[j] == x;
      assert Sound(w.cal.ev[j]);
    }
    SendNextMarks(d, e.accepted);
    RemarkedSound(d.ev, SendNext(d, e.accepted).0.ev);
  }

  lemma SaveSound(w: World, e: Input)
    requires AllSound(w.cal.ev) && e.Save? && Typed(e) && Saves(w, e)
    ensures AllSound(Step(w, e).cal.ev)
  {
    hide Sort, Sound, Added, Edited, Changed;
    var c, d := w.cal, e.draft;
    if c.formEdit {
      var i := First(c.ev, IsEditing);
      CommitSorts(c, d, i);
      EditedSound(c.ev[i], d, c.offset);
      ChangedSound(c, i, d);
      SortedSound(Changed(c, i, d), c.offset);
    } else {
      AddedSound(c, d);
      SortedSound(c.ev + [Added(c, d.title, d.day, d.hour, d.minute)], c.offset);
    }
  }

  lemma ChangedSound(c: Calendar, i: nat, d: Draft)
    requires i < |c.ev| && AllSound(c.ev) && Sound(Edited(c.ev[i], d, c.offset))
    ensures AllSound(Changed(c, i, d))
  {
    hide Edited;
    var s := c.ev[i := Edited(c.ev[i], d, c.offset)];
    assert AllSound(s);
    RemarkedSound(s, Changed(c, i, d));
  }

  lemma FewerSound(s: seq<Event>, i: nat)
    requires AllSound(s) && i < |s|
    ensures AllSound(s[..i] + s[i + 1..])
  {
    hide Sound;
    assert forall e :: e in s[..i] + s[i + 1..] ==> e in s;
  }

  lemma DeleteSound(w: World)
    requires AllSound(w.cal.ev) && Saves(w, Yes)
    ensures AllSound(Step(w, Yes).cal.ev)
  {
    hide AllSound, First;
    var s := ClearAsking(w.cal).ev;
    RemarkedSound(w.cal.ev, s);
    FewerSound(s, First(w.cal.ev, IsAsking));
  }

  lemma FetchSound(w: World, e: Input)
    requires AllSound(w.cal.ev) && e.Answer? && Typed(e) && Saves(w, e) && w.cal.stage == Fetching
    ensures AllSound(Step(w, e).cal.ev)
  {
    hide AllSound, Absorb;
    AbsorbSound(w.cal, e.reply);
  }

  lemma StepSound(w: World, e: Input)
    requires Inv(w) && AllSound(w.cal.ev) && AllSound(w.saved) && Typed(e)
    ensures AllSound(Step(w, e).cal.ev) && AllSound(Step(w, e).saved)
  {
    hide Inv, AllSound, Typed, SyncTick, SyncBegin, CommitEdit, Add, DeleteAsked, Learned;
    if e.Restart? { RestartSound(w, e); }
    else if !Saves(w, e) {
      UnsavedIsMarks(w, e);
      RemarkedSound(w.cal.ev, Move(w, e).cal.ev);
    }
    else if e.Save? { SaveSound(w, e); }
    else if e.Yes? { DeleteSound(w); }
    else if w.cal.stage == Pushing { PushSound(w, e); }
    else { FetchSound(w, e); }
  }

  lemma {:induction false} RunSound(w: World, es: seq<Input>)
    requires Inv(w) && CardOk(w) && AllSound(w.cal.ev) && AllSound(w.saved)
    requires forall e :: e in es ==> Typed(e)
    ensures AllSound(Run(w, es).cal.ev) && AllSound(Run(w, es).saved)
  {
    hide Inv, CardOk, AllSound, Step, Typed;
    if es != [] {
      RunSound(w, es[..|es| - 1]);
      RunKeeps(w, es[..|es| - 1]);
      StepSound(Run(w, es[..|es| - 1]), es[|es| - 1]);
    }
  }

  /** At any moment of any run, what the app lists when it is next opened is what it reads from the
      file it last wrote. */
  lemma RestartReadsTheCard(w: World, es: seq<Input>, clock: Option<int>)
    requires Start(w) && AllSound(w.cal.ev) && AllSound(w.saved) && forall e :: e in es ==> Typed(e)
    ensures var v := Run(w, es); var u := Step(v, Restart(clock));
      |v.saved| <= MAX_EVENTS && Alike(Load(Cache(v.saved), u.cal.offset), u.cal.ev)
  {
    hide Run, Start, Inv, Load, Cache, Alike, Reread, Sort;
    StartKeeps(w);
    RunSound(w, es);
    RunKeeps(w, es);
    var v := Run(w, es);
    assert forall i :: 0 <= i < |v.saved| ==> v.saved[i] in v.saved;
    RestartIsReread(v.saved, Step(v, Restart(clock)).cal.offset);
  }

  /** A restart at any moment leaves the queue as it was, each event with its id, its title and its
      times, exactly when every queued event has a title that does not start with a blank and an id
      with no blank in it that is not a lone dash. */
  lemma RestartKeepsQueueExactly(w: World, clock: Option<int>)
    requires Inv(w) && CardOk(w) && AllSound(w.cal.ev)
    ensures Queue(Step(w, Restart(clock)).cal.ev) == Queue(w.cal.ev)
      <==> forall x :: x in w.cal.ev && x.dirty ==> Lasting(x)
  {
    hide Inv, CardOk, Back, Step, Lasting, LoadLine, CacheLine;
    var q, r := Queue(w.cal.ev), NextQueue(Queue(w.cal.ev), w, Restart(clock));
    StepIsNextQueue(w, Restart(clock));
    forall x | x in w.cal.ev && Lasting(x) ensures Back(x).Some? && ContentOf(Back(x).value) == ContentOf(x) {
      LastingIsBack(x);
    }
    if forall x :: x in w.cal.ev && x.dirty ==> Lasting(x) {
      assert q <= r && r <= q;
    } else if q == r {
      var x :| x in w.cal.ev && x.dirty && !Lasting(x);
      assert ContentOf(x) in r;
      var y :| y in w.cal.ev && y.dirty && Back(y).Some? && ContentOf(Back(y).value) == ContentOf(x);
      BackIsBack(y);
      SameContentLasting(x, Back(y).value);
      assert false;
    }
  }

  lemma LastingIsBack(x: Event)
    requires Sound(x) && Lasting(x)
    ensures Back(x).Some? && ContentOf(Back(x).value) == ContentOf(x)
  {
    hide LoadLine, CacheLine, Lasting;
    LineComesBackExactly(x, x.tag);
  }

  lemma SameContentLasting(x: Event, y: Event)
    requires ContentOf(x) == ContentOf(y)
    ensures Lasting(x) <==> Lasting(y)
  {
  }

  const UNTITLED: Draft := Draft(" ", 0, 9, 0)

  lemma BlankIsLost(e: Event)
    requires e == Added(NEW_DEVICE.cal, " ", 0, 9, 0)
    ensures Back(e) == None && e.dirty
  {
    hide CacheLine, LoadLine;
    BlankTitleIsLost(NEW_DEVICE.cal, 0, 9, 0, e.tag);
  }

  lemma OneSaved(e: Event)
    requires e == Added(NEW_DEVICE.cal, " ", 0, 9, 0)
    ensures var w := Step(NEW_DEVICE, Save(UNTITLED)); w.cal.ev == [e] && w.saved == [e]
  {
    hide Added, Sort;
    assert NEW_DEVICE.cal.ev + [e] == [e];
    SortOfOrdered([e], 0);
  }

  lemma NothingReread(w: World, e: Event)
    requires w.saved == [e] && Back(e) == None
    ensures Step(w, Restart(None)).cal.ev == []
  {
    hide Back, Sort;
    SortOfOrdered([], 0);
    assert [e][..0] == [];
    assert Reread([e]) == [];
  }

  /** An event named with one blank is queued, and after a restart it is not. */
  lemma BlankTitleIsNotQueued()
    ensures var w := Step(NEW_DEVICE, Save(UNTITLED));
      |w.cal.ev| == 1 && w.cal.ev[0].dirty && Step(w, Restart(None)).cal.ev == []
  {
    hide Added, Back, Step;
    var e := Added(NEW_DEVICE.cal, " ", 0, 9, 0);
    OneSaved(e);
    BlankIsLost(e);
    NothingReread(Step(NEW_DEVICE, Save(UNTITLED)), e);
  }
}
