/** Calendar as the source holds it: forty events in an array, sorted, compacted and marked in place
    (apps/calendar.c, lines 376-386, 436-537, 614-893, 896-952, 979-1021).  Each method does to the
    list what the function of the same name in Calendar says. */
module CalendarStore {
  import opened Common
  import opened Str
  import opened Calendar
  import opened CalendarCache

  const BLANK: Event := Event(0, "", "", 0, 0, false, false, false, false, false, false, 0)

  class Store {
    const ev: array<Event>
    var n: nat
    var stage: Stage
    var offset: int
    var haveClock: bool
    var formEdit: bool
    var editId: string
    var next: nat
    /** The cache file, if there is one. */
    var file: Option<string>

    ghost predicate Valid()
      reads this`n
    {
      ev.Length == MAX_EVENTS && n <= MAX_EVENTS
    }

    function List(): seq<Event>
      reads this`n, ev
      requires Valid()
    {
      ev[..n]
    }

    function View(): Calendar
      reads this, ev
      requires Valid()
    {
      Calendar(ev[..n], stage, offset, haveClock, formEdit, editId, next)
    }

    constructor (card: Option<string>)
      ensures Valid() && fresh(ev) && View() == Calendar([], Idle, 0, false, false, "", 0) && file == card
    {
      file := card;
      ev := new Event[MAX_EVENTS](_ => BLANK);
      n, stage, offset, haveClock, formEdit, editId, next := 0, Idle, 0, false, false, "", 0;
    }

    /** sort_events: an insertion sort. */
    method SortEvents()
      requires Valid()
      modifies ev
      ensures Valid() && List() == Sort(old(List()), offset)
    {
      hide Key, Slide;
      ghost var was := List();
      assert was[..0] == [];
      var i := 0;
      while i < n
        invariant 0 <= i <= n
        invariant ev[..i] == Sort(was[..i], offset)
        invariant forall k :: i <= k < n ==> ev[k] == was[k]
      {
        assert was[..i + 1][..i] == was[..i];
        SlideDown(i);
        i := i + 1;
      }
      assert was[..n] == was;
    }

    /** One pass of it: event i goes down to its place among those before it. */
    method SlideDown(i: nat)
      requires Valid() && i < n
      modifies ev
      ensures ev[..i + 1] == Slide(old(ev[..i]), old(ev[i]), offset)
      ensures forall k :: i < k < ev.Length ==> ev[k] == old(ev[k])
    {
      hide Key;
      ghost var s := ev[..i];
      var t := ev[i];
      var j := i;
      while j > 0 && Key(ev[j - 1], offset) > Key(t, offset)
        invariant 0 <= j <= i
        invariant forall k :: 0 <= k < j ==> ev[k] == s[k]
        invariant forall k :: j < k <= i ==> ev[k] == s[k - 1] && Key(ev[k], offset) > Key(t, offset)
        invariant forall k :: i < k < ev.Length ==> ev[k] == old(ev[k])
      {
        ev[j] := ev[j - 1];
        j := j - 1;
      }
      ev[j] := t;
      Shifted(s, ev[..i + 1], t, offset, j);
    }

    static lemma Shifted(s: seq<Event>, r: seq<Event>, t: Event, offset: int, j: nat)
      requires j <= |s| && |r| == |s| + 1 && r[j] == t
      requires forall k :: 0 <= k < j ==> r[k] == s[k]
      requires forall k :: j < k <= |s| ==> r[k] == s[k - 1] && Key(r[k], offset) > Key(t, offset)
      requires j == 0 || Key(s[j - 1], offset) <= Key(t, offset)
      ensures r == Slide(s, t, offset)
    {
      hide Key, Slide;
      assert r == s[..j] + [t] + s[j..];
      forall k | j <= k < |s| ensures Key(s[k], offset) > Key(t, offset) { assert r[k + 1] == s[k]; }
      SlideTo(s, t, offset, j);
    }

    /** Where Slide puts an event. */
    static lemma {:induction false} SlideTo(s: seq<Event>, t: Event, offset: int, j: nat)
      requires j <= |s| && (j == 0 || Key(s[j - 1], offset) <= Key(t, offset))
      requires forall k :: j <= k < |s| ==> Key(s[k], offset) > Key(t, offset)
      ensures Slide(s, t, offset) == s[..j] + [t] + s[j..]
    {
      hide Key;
      if j == |s| {
        assert s[..j] == s;
      } else {
        var front := s[..|s| - 1];
        SlideTo(front, t, offset, j);
        assert front[j..] + [s[|s| - 1]] == s[j..] && front[..j] == s[..j];
      }
    }

    /** next_dirty, sending_index, editing_index and asking_index, by what each looks for. */
    method Find(p: Event -> bool) returns (i: int)
      requires Valid()
      ensures i == First(List(), p)
    {
      i := 0;
      while i < n
        invariant 0 <= i <= n
        invariant forall j :: 0 <= j < i ==> !p(ev[j])
      {
        if p(ev[i]) {
          assert p(List()[i]);
          return;
        }
        i := i + 1;
      }
      return -1;
    }

    /** mark_sending. */
    method MarkTheSending(i: int)
      requires Valid()
      modifies ev
      ensures Valid() && List() == MarkSending(old(List()), i)
    {
      var j := 0;
      while j < n
        invariant 0 <= j <= n
        invariant forall k :: 0 <= k < j ==> ev[k] == old(ev[k]).(sending := false)
        invariant forall k :: j <= k < n ==> ev[k] == old(ev[k])
      {
        ev[j] := ev[j].(sending := false);
        j := j + 1;
      }
      if 0 <= i < n { ev[i] := ev[i].(sending := true); }
    }

    method ClearTheEditing()
      requires Valid()
      modifies this`formEdit, this`editId, ev
      ensures Valid() && View() == ClearEditing(old(View()))
    {
      var i := 0;
      while i < n
        invariant 0 <= i <= n
        invariant forall k :: 0 <= k < i ==> ev[k] == old(ev[k]).(editing := false)
        invariant forall k :: i <= k < n ==> ev[k] == old(ev[k])
        modifies ev
      {
        ev[i] := ev[i].(editing := false);
        i := i + 1;
      }
      formEdit, editId := false, "";
    }

    method ClearTheAsking()
      requires Valid()
      modifies ev
      ensures Valid() && View() == ClearAsking(old(View()))
    {
      var i := 0;
      while i < n
        invariant 0 <= i <= n
        invariant forall k :: 0 <= k < i ==> ev[k] == old(ev[k]).(asking := false)
        invariant forall k :: i <= k < n ==> ev[k] == old(ev[k])
        modifies ev
      {
        ev[i] := ev[i].(asking := false);
        i := i + 1;
      }
    }

    // ---- the cache, written ----------------------------------------------------------------

    /** The bytes cache_save hands to safe_write, in order. */
    method CacheText() returns (text: string)
      requires Valid()
      ensures text == Cache(List())
    {
      hide CacheLine;
      ghost var all := List();
      text := "";
      for i := 0 to n
        invariant text == Cache(all[..i])
      {
        assert all[..i + 1][..i] == all[..i] && all[i] == ev[i];
        text := text + CacheLine(ev[i]) + "\n";
      }
      assert all[..n] == all;
    }

    /** cache_save, on a card that takes the file. */
    method CacheSave()
      requires Valid()
      modifies this`file
      ensures file == Some(Cache(List()))
    {
      var text := CacheText();
      file := Some(text);
    }

    /** The marks are not in the file. */
    static lemma {:induction false} SameCache(s: seq<Event>, r: seq<Event>)
      requires |s| == |r| && forall j :: 0 <= j < |s| ==> r[j] == s[j].(sending := r[j].sending)
      ensures Cache(s) == Cache(r)
    {
      if s != [] { SameCache(s[..|s| - 1], r[..|r| - 1]); }
    }

    // ---- the fetch -------------------------------------------------------------------------

    method HasKeptId(keep: nat, id: string) returns (found: bool)
      requires Valid() && keep <= n
      ensures found == KeptId(ev[..keep], id)
    {
      var i := 0;
      while i < keep
        invariant 0 <= i <= keep
        invariant forall k :: 0 <= k < i ==> !(ev[k].id != "" && ev[k].id == id)
      {
        if ev[i].id != "" && ev[i].id == id {
          assert ev[..keep][i].id == id;
          return true;
        }
        i := i + 1;
      }
      return false;
    }

    /** The first half of absorb: what is queued moves to the front, and the rest is dropped. */
    method KeepQueued()
      requires Valid()
      modifies this`n, ev
      ensures Valid() && List() == Queued(old(List()))
    {
      ghost var was := List();
      var keep, i := 0, 0;
      assert was[..0] == [];
      while i < n
        invariant 0 <= keep <= i <= n
        invariant ev[..keep] == Queued(was[..i])
        invariant forall k :: i <= k < n ==> ev[k] == was[k]
        modifies ev
      {
        assert was[..i + 1][..i] == was[..i];
        if ev[i].dirty {
          if keep != i { ev[keep] := ev[i]; }
          keep := keep + 1;
        }
        i := i + 1;
      }
      assert was[..n] == was;
      n := keep;
    }

    /** The second: the reply's events after those kept. */
    method TakeReply(reply: seq<Line>)
      requires Valid()
      modifies this`n, this`next, ev
      ensures Valid() && n >= old(n) && next == old(next) + (n - old(n))
      ensures ev[..old(n)] == old(List())
      ensures ev[old(n)..n] == Take(old(List()), [], reply, formEdit, editId, old(next))
    {
      hide Fetched, KeptId;
      ghost var kept, tag := List(), next;
      var keep, i := n, 0;
      while n < MAX_EVENTS && i < |reply| && reply[i].Line?
        invariant Valid() && keep <= n && i <= |reply| && next == tag + (n - keep)
        invariant ev[..keep] == kept
        invariant Take(kept, ev[keep..n], reply[i..], formEdit, editId, tag)
               == Take(kept, [], reply, formEdit, editId, tag)
        modifies this`n, this`next, ev
      {
        ghost var got := ev[keep..n];
        assert reply[i..][0] == reply[i] && reply[i..][1..] == reply[i + 1..];
        ev[n] := MakeEvent(reply[i], keep);
        assert ev[..keep] == kept && ev[keep..n] == got && ev[keep..n + 1] == got + [ev[n]];
        if Listed(ev[n]) { n, next := n + 1, next + 1; }
        i := i + 1;
      }
      assert n < MAX_EVENTS ==> reply[i..] == [] || reply[i..][0] == reply[i];
    }

    /** A line as an event: one edited here keeps what was edited, and the server's copy is given no
        id, so it is not listed. */
    method MakeEvent(l: Line, keep: nat) returns (e: Event)
      requires Valid() && keep <= n && l.Line?
      ensures e == Fetched(l, ev[..keep], formEdit, editId, next)
    {
      hide KeptId;
      var summary := Cut(if l.summary != "" then l.summary else "(no title)", SUMMARY_MAX);
      e := Event(next, Cut(l.id, ID_MAX - 1), summary, l.start, l.end, l.allDay,
                 false, false, false, false, false, l.remind);
      if e.end == 0 { e := e.(end := Word(e.start + 3600)); }
      if e.id != "" {
        var mine := HasKeptId(keep, e.id);
        if mine { e := e.(id := ""); }
      }
      if e.id != "" && formEdit && editId != "" && e.id == editId { e := e.(editing := true); }
    }

    method AbsorbReply(reply: seq<Line>)
      requires Valid()
      modifies this`n, this`next, this`file, ev
      ensures Valid() && View() == Absorb(old(View()), reply)
      ensures file == Some(Cache(List()))
    {
      hide Sort, Take, Queued, Cache;
      KeepQueued();
      ghost var kept := List();
      TakeReply(reply);
      assert List() == kept + ev[|kept|..n];
      SortEvents();
      CacheSave();
    }

    // ---- the sync --------------------------------------------------------------------------

    /** The tail of both sync_begin and the push half of sync_tick. */
    method Send(accepted: bool) returns (sent: Option<Request>)
      requires Valid()
      modifies this`stage, ev
      ensures Valid() && (View(), sent) == SendNext(old(View()), accepted)
      ensures |List()| == |old(List())|
      ensures forall j :: 0 <= j < n ==> List()[j] == old(List())[j].(sending := List()[j].sending)
    {
      hide First;
      var i := Find(IsUnsent);
      if !accepted {
        stage := Idle;
        return None;
      }
      if i >= 0 {
        sent := Some(Post(ContentOf(ev[i])));
        MarkTheSending(i);
        stage := Pushing;
      } else {
        sent := Some(Get);
        stage := Fetching;
      }
    }

    method Begin(netReady: bool, clock: Option<int>, accepted: bool) returns (sent: Option<Request>)
      requires Valid()
      modifies this`stage, this`offset, this`haveClock, ev
      ensures Valid() && (View(), sent) == SyncBegin(old(View()), netReady, clock, accepted)
    {
      hide SendNext;
      if stage != Idle || !netReady { return None; }
      if !haveClock && clock.Some? { haveClock, offset := true, clock.value; }
      if !haveClock { return None; }
      sent := Send(accepted);
    }

    method Settle(i: nat)
      requires Valid() && i < n
      modifies ev
      ensures Valid() && List() == old(List())[i := old(ev[i]).(dirty := false, sending := false)]
    {
      ev[i] := ev[i].(dirty := false, sending := false);
    }

    /** The push half, once the answer settles it. */
    method Pushed(accepted: bool) returns (sent: Option<Request>)
      requires Valid() && stage == Pushing
      modifies this`stage, this`file, ev
      ensures Valid() && (View(), sent) == SendNext(Answered(old(View())), accepted)
      ensures file == Some(Cache(List()))
    {
      hide SendNext, First, Cache;
      var i := Find(IsSending);
      if i >= 0 { Settle(i); }
      CacheSave();
      ghost var written := List();
      sent := Send(accepted);
      SameCache(written, List());
    }

    /** An edit that the server will never take: it is no longer queued. */
    method Refused() returns (dropped: bool)
      requires Valid()
      modifies ev
      ensures Valid() && var i := First(old(List()), IsSending);
        dropped == (i >= 0 && old(List())[i].id != "")
        && View() == if dropped then Answered(old(View())) else old(View())
    {
      hide First;
      var i := Find(IsSending);
      if i < 0 || ev[i].id == "" { return false; }
      Settle(i);
      return true;
    }

    method Tick(answer: int, reply: seq<Line>, accepted: bool) returns (sent: Option<Request>)
      requires Valid()
      modifies this, ev
      ensures Valid() && (View(), sent) == SyncTick(old(View()), answer, reply, accepted)
      ensures file == if TickSaves(old(View()), answer) then Some(Cache(List())) else old(file)
    {
      hide SendNext, Absorb, First, Cache, Answered;
      if stage == Idle { return None; }
      var r := answer;
      if r < 0 && stage == Pushing && Final(r) {
        var dropped := Refused();
        if dropped { r := 0; }
      }
      if r < 0 {
        stage := Idle;
        return None;
      }
      if stage == Pushing {
        sent := Pushed(accepted);
        return;
      }
      AbsorbReply(reply);
      stage := Idle;
      return None;
    }

    // ---- adding, editing, deleting ---------------------------------------------------------

    method AddEvent(title: string, day: int, hour: int, minute: int) returns (r: int)
      requires Valid()
      modifies this`n, this`next, this`file, ev
      ensures Valid() && (View(), r) == Add(old(View()), title, day, hour, minute)
      ensures file == if r == 0 then Some(Cache(List())) else old(file)
    {
      hide Sort, Cache;
      if n >= MAX_EVENTS { return -1; }
      ghost var was := List();
      var start := Instant(day, hour, minute, offset);
      ev[n] := Event(next, "", Unquoted(Cut(title, SUMMARY_MAX)), start, Word(start + 3600), false,
                     true, false, false, false, false, 0);
      n := n + 1;
      next := next + 1;
      assert List() == was + [ev[n - 1]];
      SortEvents();
      CacheSave();
      return 0;
    }

    method OpenForm(i: int) returns (r: int)
      requires Valid()
      modifies this`formEdit, this`editId, ev
      ensures Valid() && (View(), r) == BeginEdit(old(View()), i)
    {
      if i < 0 || i >= n || ev[i].deleted { return -1; }
      ghost var was := List();
      ClearTheEditing();
      ev[i] := ev[i].(editing := true);
      assert List() == MarkEditing(was, i);
      formEdit, editId := true, ev[i].id;
      return 0;
    }

    method SaveForm(d: Draft) returns (r: int)
      requires Valid()
      modifies this`formEdit, this`editId, this`file, ev
      ensures Valid() && (View(), r) == CommitEdit(old(View()), d)
      ensures file == if r == 0 then Some(Cache(List())) else old(file)
    {
      hide Sort, First, Edited, Cache;
      var i := Find(IsEditing);
      if i < 0 {
        ClearTheEditing();
        return -1;
      }
      Write(i, d);
      ClearTheEditing();
      SortEvents();
      CacheSave();
      return 0;
    }

    method Write(i: nat, d: Draft)
      requires Valid() && i < n
      modifies ev
      ensures Valid() && List() == old(List())[i := Edited(old(ev[i]), d, offset)]
    {
      hide Instant, Word, Cut;
      var e := ev[i];
      var len := if e.end > e.start then e.end - e.start else if e.allDay then DAY_SECS else 3600;
      e := e.(summary := Cut(d.title, SUMMARY_MAX));
      e := e.(start := if e.allDay then Word(d.day * DAY_SECS) else Instant(d.day, d.hour, d.minute, offset));
      ev[i] := e.(end := Word(e.start + len), dirty := true);
    }

    method Ask(i: int)
      requires Valid()
      modifies ev
      ensures Valid() && View() == AskDelete(old(View()), i)
    {
      if i < 0 || i >= n || ev[i].id != "" || ev[i].sending { return; }
      ghost var was := List();
      ClearTheAsking();
      ev[i] := ev[i].(asking := true);
      assert List() == MarkAsking(was, i);
    }

    /** The answer yes: the event goes, if it still has no id and is not being sent. */
    method Delete() returns (gone: bool)
      requires Valid()
      modifies this`n, this`file, ev
      ensures Valid() && (View(), gone) == DeleteAsked(old(View()))
      ensures file == if gone then Some(Cache(List())) else old(file)
    {
      hide First, MarkAsking, Cache;
      var i := Find(IsAsking);
      if i >= 0 { StillThere(List(), i); }
      ClearTheAsking();
      if i < 0 || ev[i].id != "" || ev[i].sending { return false; }
      RemoveAt(i);
      CacheSave();
      return true;
    }

    static lemma StillThere(s: seq<Event>, i: nat)
      requires i < |s|
      ensures |MarkAsking(s, -1)| == |s| && Deletable(MarkAsking(s, -1)[i]) == Deletable(s[i])
    {
    }

    method RemoveAt(i: nat)
      requires Valid() && i < n
      modifies this`n, ev
      ensures Valid() && List() == old(List())[..i] + old(List())[i + 1..]
    {
      var j := i;
      while j + 1 < n
        invariant i <= j < n
        invariant forall k :: 0 <= k < n ==> ev[k] == if i <= k < j then old(ev[k + 1]) else old(ev[k])
        modifies ev
      {
        ev[j] := ev[j + 1];
        j := j + 1;
      }
      n := n - 1;
    }

    // ---- the cache, read -------------------------------------------------------------------

    /** cache_load, of what safe_open_read finds; with no file the list is empty. */
    method CacheLoad()
      requires Valid()
      modifies this`n, ev
      ensures Valid()
      ensures List() == if file.Some? then Load(file.value, offset) else []
    {
      hide LoadLine, Sort;
      n := 0;
      if file.None? { return; }
      var text, line, i := file.value, "", 0;
      assert text[0..] == text;
      while i < |text| && n < MAX_EVENTS
        invariant Valid() && i <= |text|
        invariant LoadFrom(text[i..], line, List()) == LoadFrom(text, "", [])
      {
        assert text[i..][0] == text[i] && text[i..][1..] == text[i + 1..];
        if text[i] != '\n' {
          if |line| < LINE_MAX - 1 { line := line + [text[i]]; }
        } else {
          TakeLine(line);
          line := "";
        }
        i := i + 1;
      }
      SortEvents();
    }

    method TakeLine(line: string)
      requires Valid() && n < MAX_EVENTS
      modifies this`n, ev
      ensures Valid() && List() == Take1(old(List()), line)
    {
      var e := ReadLine(line, n);
      if e.Some? {
        ev[n] := e.value;
        n := n + 1;
      }
    }

    static method ReadLine(line: string, tag: nat) returns (e: Option<Event>)
      ensures e == LoadLine(line, tag)
    {
      hide Value, Word, ScanUl, WordRun, AfterBlanks;
      if line == "" || line[0] < '0' || line[0] > '1' { return None; }
      var s := if |line| > 5 then line[5..] else "";
      var start, end: nat;
      start, s := ReadUl(s);
      end, s := ReadUl(s);
      s := SkipBlanks(s);
      var id: string;
      id, s := TakeWord(s, ID_MAX - 1);
      if id == "-" { id := ""; }
      s := SkipBlanks(s);
      if Cut(s, SUMMARY_MAX) == "" { return None; }
      return Some(Event(tag, id, Cut(s, SUMMARY_MAX), start, end, line[0] == '1', |line| > 2 && line[2] == '1',
                        |line| > 4 && line[4] == '1', false, false, false, 0));
    }

    static method TakeWord(s: string, n: nat) returns (w: string, rest: string)
      ensures w == s[..WordRun(s, n)] && rest == s[WordRun(s, n)..]
    {
      hide WordRun;
      var p := 0;
      w := "";
      assert s[0..] == s;
      while p < |s| && s[p] != ' ' && |w| < n
        invariant 0 <= p <= |s| && p <= n && w == s[..p]
        invariant WordRun(s, n) == p + WordRun(s[p..], n - p)
      {
        WordMoves(s[p..], n - p);
        assert s[p..][1..] == s[p + 1..];
        w := w + [s[p]];
        p := p + 1;
      }
      WordEnds(s[p..], n - p);
      rest := s[p..];
    }

    static lemma WordMoves(s: string, n: nat)
      requires s != "" && s[0] != ' ' && n > 0
      ensures WordRun(s, n) == 1 + WordRun(s[1..], n - 1)
    {
    }

    static lemma WordEnds(s: string, n: nat)
      requires s == "" || s[0] == ' ' || n == 0
      ensures WordRun(s, n) == 0
    {
    }

    static method SkipBlanks(s: string) returns (r: string)
      ensures r == AfterBlanks(s)
    {
      r := s;
      while r != "" && r[0] == ' '
        invariant AfterBlanks(r) == AfterBlanks(s)
        decreases |r|
      {
        r := r[1..];
      }
    }

    /** scan_ul, its number wrapping as an unsigned long of 32 bits does. */
    static method ReadUl(s: string) returns (v: nat, rest: string)
      ensures (v, rest) == ScanUl(s)
    {
      hide Word, DigitRun, AfterBlanks;
      var t := SkipBlanks(s);
      v := 0;
      NoWord();
      var p := 0;
      while p < |t| && IsDigit(t[p])
        invariant 0 <= p <= |t| && AllDigits(t[..p]) && v == Word(Value(t[..p]))
      {
        assert t[..p + 1][..p] == t[..p];
        WrapStep(Value(t[..p]), DigitVal(t[p]));
        v := Word(v * 10 + DigitVal(t[p]));
        p := p + 1;
      }
      RunOfDigits(t[..p], t[p..]);
      assert t[..p] + t[p..] == t;
      rest := t[p..];
    }

    static lemma NoWord()
      ensures AllDigits("") && Word(Value("")) == 0
    {
    }

    static lemma WrapStep(v: nat, d: nat)
      ensures Word(Word(v) * 10 + d) == Word(v * 10 + d)
    {
      var m := 0x1_0000_0000;
      assert v == m * (v / m) + v % m;
      assert v * 10 + d == m * (v / m * 10) + (v % m * 10 + d);
      SameWord(v % m * 10 + d, v / m * 10);
    }

    static lemma SameWord(x: nat, k: nat)
      ensures Word(0x1_0000_0000 * k + x) == Word(x)
    {
    }
  }
}
