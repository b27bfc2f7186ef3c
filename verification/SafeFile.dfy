/** Saving a small file so that a power cut cannot lose it: apps/safefile.h, lines 24-84.

    The card is a map from names to contents whose rename will not replace a file.  The class has the
    source's four calls; the machine below takes them apart into single steps on the card, a byte at
    a time, with the power allowed to go between any two. */
module SafeFile {
  import opened Common

  const PATH_MAX: nat := 80

  /** What api->fmt leaves of s in a buffer of n bytes. */
  function Fmt(s: string, n: nat): string
    requires n > 0
  {
    if |s| < n then s else s[..n - 1]
  }

  function TmpOf(path: string): string { Fmt(path + ".tmp", PATH_MAX + 4) }

  // ---- the card and the calls --------------------------------------------------------------

  class Card {
    var files: map<string, string>

    constructor (files: map<string, string>)
      ensures this.files == files
    {
      this.files := files;
    }

    /** 0, or -1: no such file, or one in the way. */
    method Rename(from: string, to: string) returns (r: int)
      modifies this
      ensures r == if from in old(files) && to !in old(files) then 0 else -1
      ensures files == if r == 0 then old(files)[to := old(files)[from]] - {from} else old(files)
    {
      if from !in files || to in files { return -1; }
      files := files[to := files[from]] - {from};
      return 0;
    }

    method Remove(path: string)
      modifies this
      ensures files == old(files) - {path}
    {
      files := files - {path};
    }
  }

  /** safe_open_read: the contents of the file, after putting back a temp that a cut stranded. */
  method OpenRead(card: Card, path: string) returns (found: Option<string>)
    modifies card
    ensures var tmp, was := TmpOf(path), old(card.files);
      if path in was then found == Some(was[path]) && card.files == was
      else if tmp in was then found == Some(was[tmp]) && card.files == was[path := was[tmp]] - {tmp}
      else found == None && card.files == was
  {
    if path in card.files { return Some(card.files[path]); }
    var tmp := TmpOf(path);
    if tmp !in card.files { return None; }
    var r := card.Rename(tmp, path);
    if r != 0 { return None; }
    return if path in card.files then Some(card.files[path]) else None;
  }

  class SafeFile {
    const card: Card
    const path: string
    const tmp: string
    var isOpen: bool
    var bad: bool

    predicate Valid()
      reads this, card
    {
      isOpen ==> tmp in card.files
    }

    /** safe_begin: the temp is made empty, unless the card does not open it; isOpen is its answer. */
    constructor (card: Card, path: string, opens: bool)
      modifies card
      ensures this.card == card && this.path == Fmt(path, PATH_MAX) && this.tmp == TmpOf(path)
      ensures Valid() && isOpen == opens && !bad
      ensures card.files == if opens then old(card.files)[tmp := ""] else old(card.files)
    {
      this.card := card;
      this.path, this.tmp := Fmt(path, PATH_MAX), TmpOf(path);
      isOpen, bad := opens, false;
      new;
      if opens { card.files := card.files[tmp := ""]; }
    }

    /** safe_write: `room` is how many bytes the card takes.  A short write spoils the save, and
        nothing more is written. */
    method Write(s: string, room: nat)
      requires Valid()
      modifies this`bad, card
      ensures Valid() && bad == (old(bad) || (isOpen && room < |s|))
      ensures card.files == if !isOpen || old(bad) then old(card.files)
                            else old(card.files)[tmp := old(card.files)[tmp] + s[..if room < |s| then room else |s|]]
    {
      if !isOpen || bad { return; }
      var n := if room < |s| then room else |s|;
      card.files := card.files[tmp := card.files[tmp] + s[..n]];
      if n != |s| { bad := true; }
    }

    /** safe_commit: the temp becomes the file, or goes if a write came up short. */
    method Commit() returns (r: int)
      requires Valid()
      modifies this`isOpen, card
      ensures Valid() && !isOpen
      ensures !old(isOpen) ==> r == -1 && card.files == old(card.files)
      ensures old(isOpen) && bad ==> r == -1 && card.files == old(card.files) - {tmp}
      ensures old(isOpen) && !bad && path != tmp ==>
        r == 0 && card.files == (old(card.files) - {path})[path := old(card.files)[tmp]] - {tmp}
    {
      if !isOpen { return -1; }
      isOpen := false;
      if bad {
        card.Remove(tmp);
        return -1;
      }
      card.Remove(path);
      r := card.Rename(tmp, path);
    }
  }

  function Joined(parts: seq<string>): string {
    if parts == [] then "" else Joined(parts[..|parts| - 1]) + parts[|parts| - 1]
  }

  /** The card has room for each of the writes. */
  predicate Taken(parts: seq<string>, rooms: seq<nat>)
    requires |parts| == |rooms|
  {
    forall i :: 0 <= i < |parts| ==> |parts[i]| <= rooms[i]
  }

  /** A whole save, in as many writes as its caller makes: either the file is the new contents, and its
      temp is gone, or a write came up short or the temp could not be made, and the file is as it was.
      No other file is touched. */
  method SaveAll(card: Card, path: string, opens: bool, parts: seq<string>, rooms: seq<nat>) returns (r: int)
    requires |path| < PATH_MAX && |parts| == |rooms|
    modifies card
    ensures r == 0 <==> opens && Taken(parts, rooms)
    ensures r == 0 ==> card.files == old(card.files)[path := Joined(parts)] - {TmpOf(path)}
    ensures r != 0 ==> card.files == if opens then old(card.files) - {TmpOf(path)} else old(card.files)
  {
    ghost var was := card.files;
    TmpDiffers(path);
    var f := new SafeFile(card, path, opens);
    if !f.isOpen { return -1; }
    var i := 0;
    while i < |parts|
      invariant 0 <= i <= |parts| && f.Valid() && f.isOpen
      invariant f.bad <==> !Taken(parts[..i], rooms[..i])
      invariant card.files - {f.tmp} == was - {f.tmp}
      invariant !f.bad ==> card.files[f.tmp] == Joined(parts[..i])
    {
      assert parts[..i + 1][..i] == parts[..i] && rooms[..i + 1][..i] == rooms[..i];
      OneMoreTaken(parts, rooms, i);
      f.Write(parts[i], rooms[i]);
      assert parts[i][..|parts[i]|] == parts[i];
      i := i + 1;
    }
    assert parts[..i] == parts && rooms[..i] == rooms;
    ghost var now := card.files;
    r := f.Commit();
    Replaced(was, now, path, f.tmp);
  }

  lemma OneMoreTaken(parts: seq<string>, rooms: seq<nat>, i: nat)
    requires i < |parts| == |rooms|
    ensures Taken(parts[..i + 1], rooms[..i + 1]) <==> Taken(parts[..i], rooms[..i]) && |parts[i]| <= rooms[i]
  {
    if Taken(parts[..i + 1], rooms[..i + 1]) {
      forall j | 0 <= j < i ensures |parts[j]| <= rooms[j] { assert parts[..i + 1][j] == parts[j]; }
      assert parts[..i + 1][i] == parts[i];
    }
    if Taken(parts[..i], rooms[..i]) {
      forall j | 0 <= j < i ensures |parts[j]| <= rooms[j] { assert parts[..i][j] == parts[j]; }
    }
  }

  /** Only the temp has changed on the card, and then it is moved onto the file, or goes. */
  lemma Replaced(was: map<string, string>, now: map<string, string>, path: string, tmp: string)
    requires now - {tmp} == was - {tmp} && path != tmp && tmp in now
    ensures now - {tmp} == was - {tmp}
    ensures (now - {path})[path := now[tmp]] - {tmp} == was[path := now[tmp]] - {tmp}
  {
    forall x | x != tmp ensures (x in now <==> x in was) && (x in now ==> now[x] == was[x]) {
      assert x in now <==> x in now - {tmp};
      assert x in was <==> x in was - {tmp};
      if x in now { assert (now - {tmp})[x] == now[x] && (was - {tmp})[x] == was[x]; }
    }
    var a, b := (now - {path})[path := now[tmp]] - {tmp}, was[path := now[tmp]] - {tmp};
    assert a.Keys == b.Keys;
    assert forall x :: x in a ==> a[x] == b[x];
  }

  lemma TmpDiffers(path: string)
    requires |path| < PATH_MAX
    ensures TmpOf(path) == path + ".tmp" && TmpOf(path) != path && Fmt(path, PATH_MAX) == path
  {
    assert |TmpOf(path)| == |path| + 4;
  }

  /** A save goes to the file it was asked for exactly when the path is shorter than the buffer. */
  lemma PathFitsExactly(path: string)
    ensures Fmt(path, PATH_MAX) == path <==> |path| < PATH_MAX
  {
    if |path| >= PATH_MAX { assert |Fmt(path, PATH_MAX)| == PATH_MAX - 1; }
  }

  /** The temp of a file that can be saved is its name with .tmp after it, whole; that of a longer name is cut
      to 83 characters. */
  lemma TempIsBeside(path: string)
    ensures |path| < 80 ==> TmpOf(path) == path + ['.', 't', 'm', 'p'] && TmpOf(path) != path
    ensures |path| >= 80 ==> TmpOf(path) == (path + ['.', 't', 'm', 'p'])[..83]
  {
  }

  // ---- the same, a step at a time ----------------------------------------------------------

  /** The two files of one save. */
  datatype Disk = Disk(name: Option<string>, tmp: Option<string>)

  /** What the program is doing: nothing, with the power off or on; writing a save, of which `done`
      bytes are in the temp; or between the remove and the rename. */
  datatype Mode = Off | Ready | Writing(contents: string, done: nat, bad: bool) | Removed(contents: string)

  /** With the steps, what a reader is owed: the last contents saved or read, and a save begun since. */
  datatype Machine = Machine(disk: Disk, mode: Mode, last: string, pending: Option<string>)

  datatype Event = Boot | Begin(contents: string) | PutByte | RunShort | GiveUp | RemoveOld | RenameNew | Cut

  /** What safe_open_read leaves on the card, and would return. */
  function Recover(d: Disk): Disk {
    if d.name.None? && d.tmp.Some? then Disk(d.tmp, None) else d
  }

  predicate Can(m: Machine, e: Event) {
    match e
    case Boot => m.mode.Off?
    case Begin(_) => m.mode.Ready?
    case PutByte => m.mode.Writing? && !m.mode.bad && m.mode.done < |m.mode.contents|
    case RunShort => m.mode.Writing? && !m.mode.bad && m.mode.done < |m.mode.contents|
    case GiveUp => m.mode.Writing? && m.mode.bad
    case RemoveOld => m.mode.Writing? && !m.mode.bad && m.mode.done == |m.mode.contents|
    case RenameNew => m.mode.Removed?
    case Cut => true
  }

  /** One step on the card.  Every start begins with safe_open_read. */
  function Step(m: Machine, e: Event): Machine
    requires Can(m, e)
  {
    match e
    case Boot =>
      var d := Recover(m.disk);
      Machine(d, Ready, if d.name.Some? then d.name.value else "", None)
    case Begin(contents) =>
      m.(disk := m.disk.(tmp := Some("")), mode := Writing(contents, 0, false), pending := Some(contents))
    case PutByte =>
      m.(disk := m.disk.(tmp := Some(m.mode.contents[..m.mode.done + 1])), mode := m.mode.(done := m.mode.done + 1))
    case RunShort => m.(mode := m.mode.(bad := true))
    case GiveUp => m.(disk := m.disk.(tmp := None), mode := Ready, pending := None)
    case RemoveOld => m.(disk := m.disk.(name := None), mode := Removed(m.mode.contents))
    case RenameNew => Machine(Disk(m.disk.tmp, None), Ready, m.mode.contents, None)
    case Cut => m.(mode := Off)
  }

  predicate Lawful(m: Machine, es: seq<Event>)
    decreases |es|
  {
    es == [] || (Can(m, es[0]) && Lawful(Step(m, es[0]), es[1..]))
  }

  function Run(m: Machine, es: seq<Event>): Machine
    requires Lawful(m, es)
    decreases |es|
  {
    if es == [] then m else Run(Step(m, es[0]), es[1..])
  }

  /** The card always has one whole version: in the file, or in a finished temp with the file gone. */
  predicate Inv(m: Machine) {
    match m.mode
    case Off =>
      (m.disk.name == Some(m.last) || (m.pending.Some? && m.disk.name == m.pending))
      || (m.disk.name.None? && m.pending.Some? && m.disk.tmp == m.pending)
    case Ready => m.disk.name == Some(m.last) && m.pending.None?
    case Writing(contents, done, _) =>
      m.disk.name == Some(m.last) && m.pending == Some(contents)
      && done <= |contents| && m.disk.tmp == Some(contents[..done])
    case Removed(contents) =>
      m.disk.name.None? && m.pending == Some(contents) && m.disk.tmp == Some(contents)
  }

  lemma StepKeeps(m: Machine, e: Event)
    requires Inv(m) && Can(m, e)
    ensures Inv(Step(m, e))
  {
    if m.mode.Writing? {
      assert m.mode.done == |m.mode.contents| ==> m.mode.contents[..m.mode.done] == m.mode.contents;
    }
  }

  lemma {:induction false} RunKeeps(m: Machine, es: seq<Event>)
    requires Inv(m) && Lawful(m, es)
    ensures Inv(Run(m, es))
    decreases |es|
  {
    if es != [] {
      StepKeeps(m, es[0]);
      RunKeeps(Step(m, es[0]), es[1..]);
    }
  }

  /** Crash safety.  The file exists; run any saves and restarts, with the power going between any two
      steps on the card; then a cut and a restart.  What safe_open_read returns is the last contents
      saved (or read), or the whole of the one save that was under way: never part of it, never none.
      With no save under way it is the last contents. */
  lemma CutsNeverTear(contents: string, tmp: Option<string>, es: seq<Event>)
    requires Lawful(Machine(Disk(Some(contents), tmp), Off, contents, None), es)
    ensures var m := Run(Machine(Disk(Some(contents), tmp), Off, contents, None), es);
      var found := Recover(m.disk).name;
      (found == Some(m.last) || (m.pending.Some? && found == m.pending))
      && (m.pending.None? ==> found == Some(m.last))
      && Step(Step(m, Cut), Boot).last == found.value
  {
    var start := Machine(Disk(Some(contents), tmp), Off, contents, None);
    RunKeeps(start, es);
  }

  /** The moment a save counts is the removal of the old file: before it a restart finds the old
      contents, from it on the new. */
  lemma CommitPoint(m: Machine, e: Event)
    requires Inv(m) && Can(m, e) && !m.mode.Off?
    ensures var before, after := Recover(m.disk).name, Recover(Step(m, e).disk).name;
      (if e.RemoveOld? then after == Some(m.mode.contents) && before == Some(m.last) else after == before)
  {
    if m.mode.Writing? {
      assert m.mode.done == |m.mode.contents| ==> m.mode.contents[..m.mode.done] == m.mode.contents;
    }
  }

  /** The steps of one uncut save from byte k on. */
  function SaveFrom(contents: string, k: nat): seq<Event>
    requires k <= |contents|
    decreases |contents| - k
  {
    if k < |contents| then [PutByte] + SaveFrom(contents, k + 1) else [RemoveOld, RenameNew]
  }

  lemma {:induction false} SaveFromWrites(m: Machine, contents: string, k: nat)
    requires k <= |contents| && m.mode == Writing(contents, k, false) && m.disk.tmp == Some(contents[..k])
    ensures Lawful(m, SaveFrom(contents, k))
    ensures Run(m, SaveFrom(contents, k)) == Machine(Disk(Some(contents), None), Ready, contents, None)
    decreases |contents| - k
  {
    if k < |contents| {
      SaveFromWrites(Step(m, PutByte), contents, k + 1);
    } else {
      assert contents[..k] == contents;
      var m1 := Step(m, RemoveOld);
      var m2 := Step(m1, RenameNew);
      assert [RenameNew][1..] == [] && [RemoveOld, RenameNew][1..] == [RenameNew];
      assert Lawful(m2, []) && Run(m2, []) == m2;
      assert Lawful(m1, [RenameNew]) && Run(m1, [RenameNew]) == m2;
    }
  }

  /** Uncut, the steps do what the calls do: the file is the new contents and the temp is gone. */
  lemma UncutSave(m: Machine, contents: string)
    requires m.mode.Ready?
    ensures var es := [Begin(contents)] + SaveFrom(contents, 0);
      Lawful(m, es) && Run(m, es) == Machine(Disk(Some(contents), None), Ready, contents, None)
  {
    SaveFromWrites(Step(m, Begin(contents)), contents, 0);
    assert ([Begin(contents)] + SaveFrom(contents, 0))[1..] == SaveFrom(contents, 0);
  }

  // ---- the first save of all ---------------------------------------------------------------

  /** The card k steps into a save of `contents`. */
  function CutAt(d: Disk, contents: string, k: nat): Disk
    requires k <= |contents| + 3
  {
    if k == 0 then d
    else if k <= |contents| + 1 then d.(tmp := Some(contents[..k - 1]))
    else if k == |contents| + 2 then Disk(None, Some(contents))
    else Disk(Some(contents), None)
  }

  lemma {:induction false} SaveSteps(contents: string, j: nat)
    requires j <= |contents|
    ensures |SaveFrom(contents, j)| == |contents| - j + 2
    decreases |contents| - j
  {
    if j < |contents| { SaveSteps(contents, j + 1); }
  }

  lemma {:induction false} PartOfSave(m: Machine, contents: string, j: nat, k: nat)
    requires j <= |contents| && m.mode == Writing(contents, j, false) && m.disk.tmp == Some(contents[..j])
    requires k <= |SaveFrom(contents, j)|
    ensures var es := SaveFrom(contents, j)[..k]; var left := |contents| - j;
      Lawful(m, es)
      && Run(m, es).disk == (if k <= left then m.disk.(tmp := Some(contents[..j + k]))
                             else if k == left + 1 then Disk(None, Some(contents))
                             else Disk(Some(contents), None))
    decreases |contents| - j
  {
    var es := SaveFrom(contents, j);
    SaveSteps(contents, j);
    if j < |contents| {
      SaveSteps(contents, j + 1);
      var n := Step(m, PutByte);
      PartOfSave(n, contents, j + 1, if k == 0 then 0 else k - 1);
      assert es[1..] == SaveFrom(contents, j + 1);
      if k > 0 { assert es[..k][1..] == SaveFrom(contents, j + 1)[..k - 1]; }
    } else {
      assert contents[..j] == contents;
      var m1 := Step(m, RemoveOld);
      assert es == [RemoveOld, RenameNew];
      assert es[..0] == [] && es[..1] == [RemoveOld] && es[..2] == es;
      assert [RemoveOld][1..] == [] && es[1..] == [RenameNew] && [RenameNew][1..] == [];
      assert Lawful(m1, []) && Lawful(m1, [RenameNew]);
    }
  }

  /** That is where the machine is, k steps into an uncut save. */
  lemma CutAtIsRun(m: Machine, contents: string, k: nat)
    requires m.mode.Ready? && k <= |contents| + 3
    ensures var es := [Begin(contents)] + SaveFrom(contents, 0);
      |es| == |contents| + 3 && Lawful(m, es[..k]) && Run(m, es[..k]).disk == CutAt(m.disk, contents, k)
  {
    var es := [Begin(contents)] + SaveFrom(contents, 0);
    var n := Step(m, Begin(contents));
    SaveSteps(contents, 0);
    PartOfSave(n, contents, 0, if k == 0 then 0 else k - 1);
    if k > 0 {
      assert es[..k][1..] == SaveFrom(contents, 0)[..k - 1];
    }
  }

  /** A cut during a save leaves the old contents or the whole new ones, wherever it falls, exactly
      when the file was there before the save (or the save is of nothing): without a file, a half
      written temp is taken for it. */
  lemma FirstSaveIsSafeExactly(d: Disk, contents: string)
    requires d.name.None? ==> d.tmp.None?
    ensures (forall k :: 0 <= k <= |contents| + 3 ==>
               Recover(CutAt(d, contents, k)).name == d.name || Recover(CutAt(d, contents, k)).name == Some(contents))
       <==> d.name.Some? || contents == ""
  {
    if d.name.None? && contents != "" {
      assert Recover(CutAt(d, contents, 1)).name == Some(contents[..0]);
      assert contents[..0] != contents;
    } else if d.name.None? {
      assert contents[..0] == contents;
    }
  }
}
