/** The log as the source holds it: a fixed array shifted in place, a count, and the floor's fields.
    Each method does what the function of the same name in PainLog says of the log's value. */
module PainStore {
  import opened Common
  import opened Str
  import opened PainText
  import L = PainLog

  class Store {
    const max: nat
    const e: array<Entry>
    var n: nat
    var nextSeq: nat
    var skipped: nat
    var older: nat
    var hasFloor: bool
    var floorDay: int
    var floorMin: int
    var floorSeq: nat

    ghost predicate Valid()
      reads this
    {
      max >= 2 && e.Length == max && n <= max
    }

    function Entries(): seq<Entry>
      reads this, e
      requires Valid()
    {
      e[..n]
    }

    function Floor(): Option<L.Key>
      reads this
    {
      if hasFloor then Some(L.Key(floorDay, floorMin, floorSeq)) else None
    }

    function View(): L.Log
      reads this, e
      requires Valid()
    {
      L.Log(e[..n], nextSeq, skipped, older, Floor())
    }

    /** An empty log, as pain_init leaves it. */
    constructor (max: nat)
      requires max >= 2
      ensures Valid() && fresh(e) && this.max == max && View() == L.EMPTY
    {
      this.max := max;
      e := new Entry[max](_ => Entry(0, 0, 0, 0, 0, ""));
      n, nextSeq, skipped, older := 0, 1, 0, 0;
      hasFloor, floorDay, floorMin, floorSeq := false, 0, 0, 0;
    }

    /** pain_init. */
    method Init()
      requires Valid()
      modifies this
      ensures Valid() && View() == L.EMPTY
    {
      n, nextSeq, skipped, older := 0, 1, 0, 0;
      hasFloor, floorDay, floorMin, floorSeq := false, 0, 0, 0;
    }

    /** pain_upper, by binary search. */
    method Upper(k: L.Key) returns (lo: nat)
      requires Valid() && L.Sorted(Entries())
      ensures lo == L.Upper(Entries(), k)
    {
      lo := 0;
      var hi := n;
      while lo < hi
        invariant 0 <= lo <= hi <= n
        invariant forall i :: 0 <= i < lo ==> L.Cmp(L.KeyOf(e[i]), k) <= 0
        invariant forall i :: hi <= i < n ==> L.Cmp(L.KeyOf(e[i]), k) > 0
      {
        hide L.Cmp, L.Upper;
        var mid := (lo + hi) / 2;
        Around(Entries(), mid, k);
        if L.Cmp(L.KeyOf(e[mid]), k) <= 0 { lo := mid + 1; } else { hi := mid; }
      }
      L.UpperUnique(Entries(), k, lo);
    }

    static lemma Around(es: seq<Entry>, mid: nat, k: L.Key)
      requires L.Sorted(es) && mid < |es|
      ensures L.Cmp(L.KeyOf(es[mid]), k) <= 0 ==> forall i :: 0 <= i <= mid ==> L.Cmp(L.KeyOf(es[i]), k) <= 0
      ensures L.Cmp(L.KeyOf(es[mid]), k) > 0 ==> forall i :: mid <= i < |es| ==> L.Cmp(L.KeyOf(es[i]), k) > 0
    {
      hide L.Cmp;
      forall i | 0 <= i < |es|
        ensures i <= mid && L.Cmp(L.KeyOf(es[mid]), k) <= 0 ==> L.Cmp(L.KeyOf(es[i]), k) <= 0
        ensures mid <= i && L.Cmp(L.KeyOf(es[mid]), k) > 0 ==> L.Cmp(L.KeyOf(es[i]), k) > 0
      {
        var a, b := L.KeyOf(es[i]), L.KeyOf(es[mid]);
        assert i < mid ==> L.Leq(es[i], es[mid]);
        assert mid < i ==> L.Leq(es[mid], es[i]);
        if i < mid && L.Cmp(b, k) <= 0 { L.CmpTransitive(a, b, k); }
        if mid < i && L.Cmp(b, k) > 0 {
          L.CmpAntisymmetric(b, k);
          L.CmpTransitive(k, b, a);
          L.CmpAntisymmetric(a, k);
        }
      }
    }

    /** pain_remove_at: the entries after idx move down one. */
    method RemoveAt(idx: nat)
      requires Valid() && idx < n
      modifies this`n, e
      ensures Valid() && Entries() == L.RemoveAt(old(Entries()), idx)
    {
      var i := idx;
      while i + 1 < n
        invariant idx <= i < n
        invariant forall k :: 0 <= k < n ==> e[k] == if idx <= k < i then old(e[k + 1]) else old(e[k])
        modifies e
      {
        e[i] := e[i + 1];
        i := i + 1;
      }
      n := n - 1;
    }

    /** pain_insert_at: the entries from `at` move up one.  Room is the caller's business. */
    method InsertAt(at: nat, t: Entry)
      requires Valid() && at <= n < max
      modifies this`n, e
      ensures Valid() && Entries() == L.InsertAt(old(Entries()), at, t)
    {
      ghost var es := Entries();
      var i := n;
      while i > at
        invariant at <= i <= n
        invariant forall k :: 0 <= k < i ==> e[k] == es[k]
        invariant forall k :: i < k <= n ==> e[k] == es[k - 1]
        modifies e
      {
        e[i] := e[i - 1];
        i := i - 1;
      }
      e[at] := t;
      n := n + 1;
      MovedUp(es, e[..n], at, t);
    }

    static lemma MovedUp(es: seq<Entry>, moved: seq<Entry>, at: nat, t: Entry)
      requires at <= |es| && |moved| == |es| + 1 && moved[at] == t
      requires forall k :: 0 <= k < at ==> moved[k] == es[k]
      requires forall k :: at < k < |moved| ==> moved[k] == es[k - 1]
      ensures moved == L.InsertAt(es, at, t)
    {
    }

    /** The two together, as every caller uses them. */
    method InsertSorted(t: Entry) returns (at: nat)
      requires Valid() && L.Sorted(Entries()) && n < max
      modifies this`n, e
      ensures Valid() && L.Sorted(Entries())
      ensures at == L.Upper(old(Entries()), L.KeyOf(t)) && Entries() == L.Insert(old(Entries()), t)
      ensures L.Chronological(Entries()) && at < n && e[at] == t
    {
      hide L.Cmp, L.Sorted, L.Chronological;
      L.InsertSorted(Entries(), t);
      at := Upper(L.KeyOf(t));
      InsertAt(at, t);
      L.SortedIsChronological(Entries());
      assert Entries()[at] == t;
    }

    method RaiseFloor()
      requires Valid()
      modifies this`hasFloor, this`floorDay, this`floorMin, this`floorSeq
      ensures Valid() && View() == L.RaiseFloor(old(View()))
    {
      if n == 0 { return; }
      hasFloor, floorDay, floorMin, floorSeq := true, e[0].day, e[0].minute, e[0].seqNo;
    }

    predicate BelowFloor(t: Entry)
      reads this
    {
      hasFloor && L.Cmp(L.KeyOf(t), L.Key(floorDay, floorMin, floorSeq)) < 0
    }

    method Add(day: int, minute: int, level: int, area: int, note: string) returns (r: int)
      requires Valid() && L.Sorted(Entries())
      modifies this, e
      ensures Valid()
      ensures (View(), r) == L.Add(old(View()), max, day, minute, level, area, note)
      ensures L.Chronological(Entries()) && (r >= 0 ==> r < n && e[r].seqNo == old(nextSeq))
    {
      hide L.Chronological, L.Cmp, L.Sorted, L.Insert, L.Upper, L.Retire, Make;
      L.SortedIsChronological(Entries());
      var made := Make(day, minute, level, area, note);
      if made.None? { return L.E_ARG; }
      var t := made.value.(seqNo := nextSeq);
      if BelowFloor(t) { return L.E_OLD; }
      if n >= max {
        if L.Cmp(L.KeyOf(t), L.KeyOf(e[0])) < 0 {
          L.CmpAntisymmetric(L.KeyOf(t), L.KeyOf(e[0]));
          return L.E_OLD;
        }
        L.CmpAntisymmetric(L.KeyOf(t), L.KeyOf(e[0]));
        RetireOldest();
      }
      r := InsertSorted(t);
      nextSeq := nextSeq + 1;
    }

    method RetireOldest()
      requires Valid() && L.Sorted(Entries()) && n == max
      modifies this`n, this`older, this`hasFloor, this`floorDay, this`floorMin, this`floorSeq, e
      ensures Valid() && n < max && L.Sorted(Entries())
      ensures View() == L.Retire(old(View()))
    {
      hide L.Cmp, L.Sorted;
      ghost var es := Entries();
      L.SortedSubset(es, 0);
      RemoveAt(0);
      assert Entries() == es[1..];
      older := older + 1;
      RaiseFloor();
    }

    method Edit(idx: int, with: Entry) returns (r: int)
      requires Valid() && L.Sorted(Entries())
      modifies this, e
      ensures Valid()
      ensures (View(), r) == L.Edit(old(View()), idx, with)
      ensures L.Chronological(Entries()) && (r >= 0 ==> r < n && e[r].seqNo == old(e[idx]).seqNo)
    {
      hide L.Chronological, L.Cmp, L.Sorted, L.Insert, L.Upper, Make;
      L.SortedIsChronological(Entries());
      if idx < 0 || idx >= n { return L.E_ARG; }
      var made := Make(with.day, with.minute, with.level, with.area, with.note);
      if made.None? { return L.E_ARG; }
      var t := made.value.(seqNo := e[idx].seqNo);
      if BelowFloor(t) { return L.E_OLD; }
      ghost var es := Entries();
      RemoveAt(idx);
      L.SortedSubset(es, idx);
      r := InsertSorted(t);
    }

    method SetNote(idx: int, note: string) returns (r: int)
      requires Valid()
      modifies e
      ensures Valid()
      ensures (View(), r) == L.SetNote(old(View()), idx, note)
    {
      if idx < 0 || idx >= n { return L.E_ARG; }
      var clean := CleanNote(note);
      e[idx] := e[idx].(note := clean);
      return L.OK;
    }

    method Delete(idx: int) returns (r: int)
      requires Valid()
      modifies this`n, e
      ensures Valid()
      ensures (View(), r) == L.Delete(old(View()), idx)
    {
      if idx < 0 || idx >= n { return L.E_ARG; }
      RemoveAt(idx);
      return L.OK;
    }

    method TakeLine(line: string)
      requires Valid() && L.Sorted(Entries())
      modifies this, e
      ensures Valid() && L.Sorted(Entries())
      ensures View() == L.TakeLine(old(View()), max, line)
    {
      hide L.Cmp, Parse;
      if line == "" { return; }
      var parsed := Parse(line);
      if parsed.None? {
        skipped := skipped + 1;
        return;
      }
      TakeEntry(parsed.value);
    }

    method TakeEntry(t: Entry)
      requires Valid() && L.Sorted(Entries())
      modifies this, e
      ensures Valid() && L.Sorted(Entries())
      ensures View() == L.TakeEntry(old(View()), max, t)
    {
      hide L.Chronological, L.Cmp, L.Sorted, L.Insert;
      ghost var was := View();
      if t.seqNo >= nextSeq { nextSeq := t.seqNo + 1; }
      if n >= max {
        older := older + 1;
        L.CmpAntisymmetric(L.KeyOf(t), L.KeyOf(e[0]));
        if L.Cmp(L.KeyOf(t), L.KeyOf(e[0])) < 0 { return; }
        L.SortedSubset(was.es, 0);
        RemoveAt(0);
      }
      var at := InsertSorted(t);
    }

    /** pain_load: `card` is what safe_open_read finds. */
    method Load(card: Option<string>)
      requires Valid()
      modifies this, e
      ensures Valid() && View() == L.Load(max, card)
      ensures L.Chronological(Entries())
    {
      hide L.Cmp, L.TakeLine, L.Chronological;
      Init();
      L.SortedIsChronological(Entries());
      if card.None? { return; }
      var lines := EachLine(card.value, LINE_IN);
      assert lines[..0] == [];
      for i := 0 to |lines|
        invariant Valid() && L.Sorted(Entries())
        invariant View() == L.TakeLines(L.EMPTY, max, lines[..i])
      {
        assert lines[..i + 1][..i] == lines[..i];
        TakeLine(lines[i]);
      }
      assert lines[..|lines|] == lines;
      L.SortedIsChronological(Entries());
      if older > 0 { RaiseFloor(); }
    }

    /** pain_save: the bytes handed to safe_write, in order. */
    method Save(card: Option<string>) returns (text: string)
      requires Valid() && L.AllValid(Entries())
      ensures text == L.Save(View(), card)
    {
      hide L.Cmp, FormatLine, ValidEntry, L.CarryLine, L.CarryLines, L.Saved;
      text := "";
      if hasFloor && card.Some? {
        text := Carry(card.value);
      }
      ghost var carried, es := text, Entries();
      for i := 0 to n
        invariant text == carried + L.SaveEntries(es[..i])
      {
        assert es[..i + 1][..i] == es[..i] && es[i] == e[i];
        var line := NewLine(e[i]);
        text := text + line;
      }
      assert es[..n] == es;
    }

    method Carry(card: string) returns (text: string)
      requires Valid() && hasFloor
      ensures text == L.CarryLines(Floor().value, Lines(card))
    {
      hide L.Cmp, Parse, ValidEntry;
      text := "";
      var lines := EachLine(card, LINE_IN);
      for i := 0 to |lines|
        invariant text == L.CarryLines(Floor().value, lines[..i])
      {
        assert lines[..i + 1][..i] == lines[..i];
        var t := Parse(lines[i]);
        if t.None? || !BelowFloor(t.value) { continue; }
        ParsedIsValid(lines[i]);
        var line := NewLine(t.value);
        text := text + line;
      }
      assert lines[..|lines|] == lines;
    }

    /** One entry formatted into a buffer of its own, with its newline. */
    static method NewLine(t: Entry) returns (line: string)
      requires ValidEntry(t) && t.seqNo < 0x1_0000_0000
      ensures line == L.Saved(t)
    {
      hide FormatLine, ValidEntry;
      var s := new char[LINE_MAX];
      var p := Format(t, s);
      ghost var formatted := s[..p];
      s[p] := '\n';
      assert s[..p] == formatted;
      line := s[..p + 1];
      assert line == s[..p] + [s[p]];
    }
  }
}
