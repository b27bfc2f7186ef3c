/** Calendar's cache file, a line an event: apps/calendar.c, lines 436-509.  It is also where the queue
    of unsent events lives while the power is off. */
module CalendarCache {
  import opened Common
  import opened Str
  import opened Calendar

  const LINE_MAX: nat := 98

  // ---- writing: cache_save -----------------------------------------------------------------

  function Bit(b: bool): string { if b then "1" else "0" }

  function CacheLine(e: Event): string {
    Bit(e.allDay) + " " + Bit(e.dirty) + " " + Bit(e.deleted) + " " + Numbers(e)
  }

  function Numbers(e: Event): string {
    Decimal(e.start) + " " + (Decimal(e.end) + " " + Words(e))
  }

  function Words(e: Event): string { (if e.id != "" then e.id else "-") + " " + e.summary }

  function Cache(ev: seq<Event>): string {
    if ev == [] then "" else Cache(ev[..|ev| - 1]) + CacheLine(ev[|ev| - 1]) + "\n"
  }

  // ---- reading: cache_load -----------------------------------------------------------------

  function AfterBlanks(s: string): string {
    if s != "" && s[0] == ' ' then AfterBlanks(s[1..]) else s
  }

  /** How many digits s starts with. */
  function DigitRun(s: string): (n: nat)
    ensures n <= |s|
    ensures forall i :: 0 <= i < n ==> IsDigit(s[i])
    ensures n < |s| ==> !IsDigit(s[n])
  {
    if s != "" && IsDigit(s[0]) then 1 + DigitRun(s[1..]) else 0
  }

  /** scan_ul: the number after any blanks, and what is left of the line. */
  function ScanUl(s: string): (nat, string) {
    var t := AfterBlanks(s);
    (Word(Value(t[..DigitRun(t)])), t[DigitRun(t)..])
  }

  /** The characters up to a blank, no more than n. */
  function WordRun(s: string, n: nat): (k: nat)
    ensures k <= |s| && k <= n
    ensures forall i :: 0 <= i < k ==> s[i] != ' '
    ensures k < n && k < |s| ==> s[k] == ' '
  {
    if s == "" || s[0] == ' ' || n == 0 then 0 else 1 + WordRun(s[1..], n - 1)
  }

  /** A line as an event; None if it is not one.  What the source would read past the end of a line
      too short for its flags is taken to be nothing. */
  function LoadLine(line: string, tag: nat): Option<Event> {
    if line == "" || (line[0] != '0' && line[0] != '1') then None
    else
      var (start, s1) := ScanUl(if |line| > 5 then line[5..] else "");
      var (end, s2) := ScanUl(s1);
      var s3 := AfterBlanks(s2);
      var k := WordRun(s3, ID_MAX - 1);
      var id := if s3[..k] == "-" then "" else s3[..k];
      var summary := Cut(AfterBlanks(s3[k..]), SUMMARY_MAX);
      if summary == "" then None
      else Some(Event(tag, id, summary, start, end, line[0] == '1', |line| > 2 && line[2] == '1',
                      |line| > 4 && line[4] == '1', false, false, false, 0))
  }

  function Take1(got: seq<Event>, line: string): seq<Event> {
    var e := LoadLine(line, |got|);
    if e.Some? then got + [e.value] else got
  }

  /** The events of the file, given the line so far and those already read. */
  function LoadFrom(text: string, line: string, got: seq<Event>): seq<Event>
    decreases |text|
  {
    if text == "" || |got| >= MAX_EVENTS then got
    else if text[0] != '\n' then LoadFrom(text[1..], if |line| < LINE_MAX - 1 then line + [text[0]] else line, got)
    else LoadFrom(text[1..], "", Take1(got, line))
  }

  function Load(text: string, offset: int): seq<Event> {
    Sort(LoadFrom(text, "", []), offset)
  }

  // ---- the round trip, a line --------------------------------------------------------------

  /** What the struct's fields can hold. */
  predicate Sized(e: Event) {
    |e.id| < ID_MAX && |e.summary| <= SUMMARY_MAX && e.start < 0x1_0000_0000 && e.end < 0x1_0000_0000
  }

  predicate Sound(e: Event) {
    Sized(e) && '\n' !in e.id && '\n' !in e.summary
  }

  /** A title that starts with something, and an id without blanks that is not the mark for none. */
  predicate Lasting(e: Event) {
    e.summary != "" && e.summary[0] != ' ' && ' ' !in e.id && e.id != "-"
  }

  /** The event as a restart finds it: what is not in the file is forgotten. */
  function Reloaded(e: Event, tag: nat): Event {
    e.(tag := tag, sending := false, editing := false, asking := false, remind := 0)
  }

  lemma {:induction false} BlanksAreGone(s: string)
    ensures var r := AfterBlanks(s); r != "" ==> r[0] != ' '
  {
    if s != "" && s[0] == ' ' { BlanksAreGone(s[1..]); }
  }

  lemma LoadedIsLasting(line: string, tag: nat)
    ensures var e := LoadLine(line, tag); e.Some? ==> Lasting(e.value)
  {
    hide ScanUl;
    if line != "" && (line[0] == '0' || line[0] == '1') {
      var s1 := ScanUl(if |line| > 5 then line[5..] else "").1;
      var s3 := AfterBlanks(ScanUl(s1).1);
      BlanksAreGone(s3[WordRun(s3, ID_MAX - 1)..]);
    }
  }

  lemma {:induction false} RunOfDigits(d: string, rest: string)
    requires AllDigits(d) && (rest == "" || !IsDigit(rest[0]))
    ensures DigitRun(d + rest) == |d|
  {
    if d != "" {
      assert (d + rest)[1..] == d[1..] + rest;
      RunOfDigits(d[1..], rest);
    } else {
      assert d + rest == rest;
    }
  }

  lemma {:induction false} RunOfWord(w: string, rest: string, n: nat)
    requires ' ' !in w && |w| <= n && rest != "" && rest[0] == ' '
    ensures WordRun(w + rest, n) == |w|
  {
    if w != "" {
      assert (w + rest)[1..] == w[1..] + rest;
      RunOfWord(w[1..], rest, n - 1);
    } else {
      assert w + rest == rest;
    }
  }

  lemma OneBlank(s: string)
    requires s != "" && s[0] != ' '
    ensures AfterBlanks(s) == s && AfterBlanks(" " + s) == s
  {
    assert (" " + s)[1..] == s;
  }

  lemma ScanOfDecimal(v: nat, rest: string)
    requires rest == "" || !IsDigit(rest[0])
    ensures ScanUl(" " + (Decimal(v) + rest)) == (Word(v), rest)
  {
    hide Decimal, AfterBlanks, DigitRun, Value, Word;
    var d := Decimal(v);
    ValueOfDecimal(v);
    RunOfDigits(d, rest);
    assert IsDigit((d + rest)[0]);
    OneBlank(d + rest);
    assert (d + rest)[..|d|] == d && (d + rest)[|d|..] == rest;
  }

  lemma NumbersScan(e: Event)
    ensures ScanUl(" " + Numbers(e)) == (Word(e.start), " " + (Decimal(e.end) + (" " + Words(e))))
    ensures ScanUl(" " + (Decimal(e.end) + (" " + Words(e)))) == (Word(e.end), " " + Words(e))
  {
    hide ScanUl, Word, Decimal, Words;
    var last := " " + Words(e);
    var tail := " " + (Decimal(e.end) + last);
    assert Numbers(e) == Decimal(e.start) + tail;
    assert " " + Numbers(e) == " " + (Decimal(e.start) + tail);
    assert last[0] == ' ' && tail[0] == ' ';
    ScanOfDecimal(e.start, tail);
    ScanOfDecimal(e.end, last);
  }

  lemma LineParts(e: Event)
    ensures var line := CacheLine(e);
      |line| > 5 && line[0..1] == Bit(e.allDay) && line[2..3] == Bit(e.dirty) && line[4..5] == Bit(e.deleted)
      && line[5..] == " " + Numbers(e)
  {
    hide Numbers;
    var a, b, d, n := Bit(e.allDay), Bit(e.dirty), Bit(e.deleted), Numbers(e);
    var line := a + " " + b + " " + d + " " + n;
    assert CacheLine(e) == line && |a| == 1 && |b| == 1 && |d| == 1;
    assert line[..5] == a + " " + b + " " + d;
    assert line[0] == a[0] && line[2] == b[0] && line[4] == d[0];
    assert line[5..] == " " + n;
  }

  lemma WordsScan(e: Event)
    requires |e.id| < ID_MAX && ' ' !in e.id
    ensures var s3 := AfterBlanks(" " + Words(e)); var k := WordRun(s3, ID_MAX - 1);
      s3 == Words(e) && s3[..k] == (if e.id != "" then e.id else "-") && AfterBlanks(s3[k..]) == AfterBlanks(e.summary)
  {
    hide WordRun;
    var w := if e.id != "" then e.id else "-";
    assert (" " + Words(e))[1..] == Words(e) && Words(e) == w + (" " + e.summary);
    RunOfWord(w, " " + e.summary, ID_MAX - 1);
    assert Words(e)[|w|..] == " " + e.summary && (" " + e.summary)[1..] == e.summary;
  }

  /** An event whose id has no blank in it is listed again exactly when its title is not all blanks:
      with the blanks before the title gone, and with its id unless that is a lone dash. */
  lemma ListedAgainExactly(e: Event, tag: nat)
    requires |e.id| < ID_MAX && ' ' !in e.id
    ensures var b := LoadLine(CacheLine(e), tag);
      (b.Some? <==> AfterBlanks(e.summary) != "")
      && (b.Some? ==> b.value.id == if e.id == "-" then "" else e.id)
      && (b.Some? ==> b.value.summary == Cut(AfterBlanks(e.summary), SUMMARY_MAX))
  {
    hide CacheLine, ScanUl, Words, Numbers, AfterBlanks;
    LineParts(e);
    NumbersScan(e);
    WordsScan(e);
    var line := CacheLine(e);
    assert line[0] == line[0..1][0] && line[2] == line[2..3][0] && line[4] == line[4..5][0];
  }

  /** An event comes back from its line as it was exactly when its title does not start with a blank
      (and there is one), and its id has no blank in it and is not a lone dash. */
  lemma LineComesBackExactly(e: Event, tag: nat)
    requires Sized(e)
    ensures LoadLine(CacheLine(e), tag) == Some(Reloaded(e, tag)) <==> Lasting(e)
  {
    hide CacheLine, ScanUl, Words, Numbers, AfterBlanks;
    if Lasting(e) {
      LineParts(e);
      NumbersScan(e);
      WordsScan(e);
      OneBlank(e.summary);
      var line := CacheLine(e);
      assert line[0] == line[0..1][0] && line[2] == line[2..3][0] && line[4] == line[4..5][0];
    } else {
      LoadedIsLasting(CacheLine(e), tag);
    }
  }

  /** An event named with a single blank is taken by the form and is gone after a restart. */
  lemma BlankTitleIsLost(c: Calendar, day: int, hour: int, minute: int, tag: nat)
    ensures LoadLine(CacheLine(Added(c, " ", day, hour, minute)), tag) == None
  {
    hide Decimal, ScanUl, CacheLine;
    var e := Added(c, " ", day, hour, minute);
    assert e.id == "" && e.summary == " ";
    LineParts(e);
    NumbersScan(e);
    assert Words(e) == "- " + " ";
    assert (" " + Words(e))[1..] == "- " + " ";
    var s3 := "- " + " ";
    assert AfterBlanks(" " + Words(e)) == s3;
    RunOfWord("-", "  ", ID_MAX - 1);
    assert s3 == "-" + "  " && s3[1..] == "  ";
    assert "  "[1..] == " " && " "[1..] == "";
    assert AfterBlanks("  ") == AfterBlanks(" ") == AfterBlanks("") == "";
  }

  // ---- the round trip, the file ------------------------------------------------------------

  /** No line is cut by the buffer it is made in. */
  lemma LineFits(e: Event)
    requires Sound(e)
    ensures |CacheLine(e)| + 1 < LINE_MAX && '\n' !in CacheLine(e)
  {
    assert Pow10(10) == 10_000_000_000 by {
      assert Pow10(5) == 100_000;
      assert Pow10(10) == 100_000 * Pow10(5);
    }
    DecimalLength(e.start, 10);
    DecimalLength(e.end, 10);
    NoNewlineInDigits(Decimal(e.start));
    NoNewlineInDigits(Decimal(e.end));
  }

  lemma NoNewlineInDigits(s: string)
    requires AllDigits(s)
    ensures '\n' !in s
  {
  }

  lemma {:induction false} LoadOfLine(done: string, l: string, rest: string, got: seq<Event>)
    requires '\n' !in l && |done| + |l| < LINE_MAX && |got| < MAX_EVENTS
    ensures LoadFrom(l + "\n" + rest, done, got) == LoadFrom(rest, "", Take1(got, done + l))
    decreases |l|
  {
    hide Take1;
    var text := l + "\n" + rest;
    if l == "" {
      assert done + l == done && text[1..] == rest;
    } else {
      assert (done + [l[0]]) + l[1..] == done + l;
      assert text[1..] == l[1..] + "\n" + rest;
      LoadOfLine(done + [l[0]], l[1..], rest, got);
    }
  }

  /** The events a file of these lines gives. */
  function TakeAll(ev: seq<Event>): (r: seq<Event>)
    ensures |r| <= |ev|
  {
    if ev == [] then [] else Take1(TakeAll(ev[..|ev| - 1]), CacheLine(ev[|ev| - 1]))
  }

  lemma {:induction false} LoadOfCache(ev: seq<Event>, rest: string)
    requires |ev| <= MAX_EVENTS && forall i :: 0 <= i < |ev| ==> Sound(ev[i])
    ensures LoadFrom(Cache(ev) + rest, "", []) == LoadFrom(rest, "", TakeAll(ev))
  {
    hide Sound, CacheLine, Take1, LoadFrom;
    if ev == [] {
      assert Cache(ev) + rest == rest;
    } else {
      var front, last := ev[..|ev| - 1], ev[|ev| - 1];
      var line := CacheLine(last);
      LoadOfCache(front, line + "\n" + rest);
      assert Cache(ev) + rest == Cache(front) + (line + "\n" + rest);
      LineFits(last);
      LoadOfLine("", line, rest, TakeAll(front));
      assert "" + line == line;
    }
  }

  /** The list as a restart finds it. */
  function AllReloaded(ev: seq<Event>): seq<Event> {
    seq(|ev|, i requires 0 <= i < |ev| => Reloaded(ev[i], i))
  }

  lemma {:induction false} LastingAreTaken(ev: seq<Event>)
    requires forall i :: 0 <= i < |ev| ==> Sized(ev[i]) && Lasting(ev[i])
    ensures TakeAll(ev) == AllReloaded(ev)
  {
    hide Sized, Lasting, LoadLine, CacheLine, Reloaded;
    if ev != [] {
      var front, last := ev[..|ev| - 1], ev[|ev| - 1];
      LastingAreTaken(front);
      LineComesBackExactly(last, |front|);
      assert AllReloaded(ev) == AllReloaded(front) + [Reloaded(last, |front|)];
    }
  }

  lemma NothingLeft(got: seq<Event>)
    ensures LoadFrom("", "", got) == got
  {
  }

  /** A restart: the list saved and in order comes back event for event, unsent ones unsent, as long
      as every title starts with something. */
  lemma CacheComesBack(ev: seq<Event>, offset: int)
    requires |ev| <= MAX_EVENTS && Ordered(ev, offset)
    requires forall i :: 0 <= i < |ev| ==> Sound(ev[i]) && Lasting(ev[i])
    ensures Load(Cache(ev), offset) == AllReloaded(ev)
  {
    hide Sized, Lasting, Cache, Ordered, AllReloaded, LoadFrom, Sort, TakeAll;
    LoadOfCache(ev, "");
    LastingAreTaken(ev);
    assert Cache(ev) + "" == Cache(ev);
    NothingLeft(TakeAll(ev));
    ReloadedOrdered(ev, offset);
    SortOfOrdered(AllReloaded(ev), offset);
  }

  lemma ReloadedOrdered(ev: seq<Event>, offset: int)
    requires Ordered(ev, offset)
    ensures Ordered(AllReloaded(ev), offset)
  {
    forall i, j | 0 <= i < j < |ev| ensures Key(AllReloaded(ev)[i], offset) <= Key(AllReloaded(ev)[j], offset) {
      assert Key(ev[i], offset) <= Key(ev[j], offset);
    }
  }

  // ---- a restart, of any list --------------------------------------------------------------

  /** An event as its own line gives it back, still known for the event it is; None if it is not
      listed again. */
  function Back(e: Event): Option<Event> { LoadLine(CacheLine(e), e.tag) }

  function Reread(s: seq<Event>): (r: seq<Event>)
    ensures |r| <= |s|
  {
    if s == [] then []
    else
      var front, e := Reread(s[..|s| - 1]), Back(s[|s| - 1]);
      if e.Some? then front + [e.value] else front
  }

  /** The same events but for their tags. */
  predicate Alike(s: seq<Event>, r: seq<Event>) {
    |s| == |r| && forall i :: 0 <= i < |s| ==> s[i] == r[i].(tag := s[i].tag)
  }

  lemma TagsAreNotRead(line: string, t: nat, u: nat)
    ensures LoadLine(line, t).Some? == LoadLine(line, u).Some?
    ensures LoadLine(line, t).Some? ==> LoadLine(line, t).value == LoadLine(line, u).value.(tag := t)
  {
    hide ScanUl, WordRun, AfterBlanks;
  }

  lemma {:induction false} TakenIsReread(ev: seq<Event>)
    ensures Alike(TakeAll(ev), Reread(ev))
  {
    hide LoadLine, CacheLine;
    if ev != [] {
      var front, last := ev[..|ev| - 1], ev[|ev| - 1];
      TakenIsReread(front);
      TagsAreNotRead(CacheLine(last), |TakeAll(front)|, last.tag);
    }
  }

  lemma KeyAlike(e: Event, f: Event, offset: int)
    requires e == f.(tag := e.tag)
    ensures Key(e, offset) == Key(f, offset)
  {
  }

  lemma {:induction false} SlideAlike(s: seq<Event>, r: seq<Event>, e: Event, f: Event, offset: int)
    requires Alike(s, r) && e == f.(tag := e.tag)
    ensures Alike(Slide(s, e, offset), Slide(r, f, offset))
  {
    hide Key;
    KeyAlike(e, f, offset);
    if s != [] {
      KeyAlike(s[|s| - 1], r[|s| - 1], offset);
      SlideAlike(s[..|s| - 1], r[..|s| - 1], e, f, offset);
    }
  }

  lemma {:induction false} SortAlike(s: seq<Event>, r: seq<Event>, offset: int)
    requires Alike(s, r)
    ensures Alike(Sort(s, offset), Sort(r, offset))
  {
    hide Slide;
    if s != [] {
      SortAlike(s[..|s| - 1], r[..|s| - 1], offset);
      SlideAlike(Sort(s[..|s| - 1], offset), Sort(r[..|s| - 1], offset), s[|s| - 1], r[|s| - 1], offset);
    }
  }

  /** What a restart reads from the file of any list is that list reread line by line, and sorted. */
  lemma RestartIsReread(ev: seq<Event>, offset: int)
    requires |ev| <= MAX_EVENTS && forall i :: 0 <= i < |ev| ==> Sound(ev[i])
    ensures Alike(Load(Cache(ev), offset), Sort(Reread(ev), offset))
  {
    hide Sound, Cache, Alike, Sort, LoadFrom;
    LoadOfCache(ev, "");
    assert Cache(ev) + "" == Cache(ev);
    NothingLeft(TakeAll(ev));
    TakenIsReread(ev);
    SortAlike(TakeAll(ev), Reread(ev), offset);
  }

  lemma {:induction false} RereadHas(s: seq<Event>)
    ensures forall e :: e in Reread(s) <==> exists f :: f in s && Back(f) == Some(e)
  {
    hide Back;
    if s != [] {
      var front, last := s[..|s| - 1], s[|s| - 1];
      RereadHas(front);
      assert s == front + [last];
      forall e ensures e in Reread(s) <==> exists f :: f in s && Back(f) == Some(e) {
        if f :| f in front && Back(f) == Some(e) { assert f in s; }
        if Back(last) == Some(e) { assert last in s; }
        if e in Reread(s) && e !in Reread(front) { assert Back(last) == Some(e); }
      }
    }
  }

  /** What an event read back is: clean of marks, and as it will be read from then on. */
  lemma BackIsBack(e: Event)
    ensures var b := Back(e);
      b.Some? ==>
        b.value.tag == e.tag && b.value.dirty == e.dirty && Lasting(b.value) && Sized(b.value)
        && !b.value.sending && !b.value.editing && !b.value.asking && Back(b.value) == b
  {
    hide CacheLine, ScanUl, Lasting;
    LineParts(e);
    LoadedIsLasting(CacheLine(e), e.tag);
    var b := Back(e);
    if b.Some? {
      assert CacheLine(e)[2] == CacheLine(e)[2..3][0];
      LoadedIsSized(CacheLine(e), e.tag);
      LineComesBackExactly(b.value, e.tag);
      LoadedIsUnmarked(CacheLine(e), e.tag);
    }
  }

  lemma LoadedIsSized(line: string, tag: nat)
    ensures var e := LoadLine(line, tag); e.Some? ==> Sized(e.value)
  {
    hide AfterBlanks, DigitRun, Value;
  }

  lemma LoadedIsUnmarked(line: string, tag: nat)
    ensures var e := LoadLine(line, tag); e.Some? ==> Reloaded(e.value, tag) == e.value
  {
    hide AfterBlanks, DigitRun, Value, ScanUl, WordRun;
  }

  /** The marks are not in the line. */
  lemma MarksAreNotKept(e: Event, f: Event)
    requires f == e.(sending := f.sending, editing := f.editing, asking := f.asking)
    ensures Back(f) == Back(e)
  {
  }

  // ---- two lines of the file -----------------------------------------------------------------

  lemma TimesInDigits()
    ensures Decimal(86400) == "86400" && Decimal(90000) == "90000"
  {
    hide Decimal;
    DecimalStep(8);
    DecimalStep(86);
    DecimalStep(864);
    DecimalStep(8640);
    DecimalStep(86400);
    DecimalStep(9);
    DecimalStep(90);
    DecimalStep(900);
    DecimalStep(9000);
    DecimalStep(90000);
  }

  /** An event of an hour not yet sent, and a day that the server has: the flags, the times, the id or a dash,
      and the title. */
  lemma LinesAsWritten()
    ensures CacheLine(Event(1, "", "lunch", 86400, 90000, false, true, false, false, false, false, 0))
         == "0 1 0 86400 90000 - lunch"
    ensures CacheLine(Event(1, "ab", "trip", 90000, 86400, true, false, true, false, false, false, 0))
         == "1 0 1 90000 86400 ab trip"
  {
    hide Decimal;
    TimesInDigits();
    assert "86400" + " " + ("90000" + " " + ("-" + " " + "lunch")) == "86400 90000 - lunch";
    assert "90000" + " " + ("86400" + " " + ("ab" + " " + "trip")) == "90000 86400 ab trip";
    assert "0" + " " + "1" + " " + "0" + " " + "86400 90000 - lunch" == "0 1 0 86400 90000 - lunch";
    assert "1" + " " + "0" + " " + "1" + " " + "90000 86400 ab trip" == "1 0 1 90000 86400 ab trip";
  }
}
