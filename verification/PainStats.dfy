/** The statistics of the pain log: apps/pain_log.h, lines 386-455.

    One pass that keeps the running day and its worst level.  It is right because the log is sorted:
    the contracts speak of the set of entries counted and never of their order. */
module PainStats {
  import opened PainText
  import opened PainLog

  const BAD: int := 7

  datatype Stats = Stats(n: nat, avg10: int, worst: int, worstDay: int, days: nat, badDays: nat)

  /** Whether an entry is counted: undated ones by choice, dated ones within the range. */
  predicate Counts(e: Entry, from: int, to: int, withUndated: bool) {
    if e.day == NO_DAY then withUndated else from <= e.day <= to
  }

  function Counted(es: seq<Entry>, from: int, to: int, withUndated: bool): seq<Entry> {
    if es == [] then []
    else
      Counted(es[..|es| - 1], from, to, withUndated)
      + if Counts(es[|es| - 1], from, to, withUndated) then [es[|es| - 1]] else []
  }

  function Sum(cs: seq<Entry>): int {
    if cs == [] then 0 else Sum(cs[..|cs| - 1]) + cs[|cs| - 1].level
  }

  function Days(cs: seq<Entry>): set<int> {
    set e | e in cs && e.day != NO_DAY :: e.day
  }

  /** The days on which some entry is bad: the ones whose worst entry is. */
  function BadDays(cs: seq<Entry>): set<int> {
    set e | e in cs && e.day != NO_DAY && e.level >= BAD :: e.day
  }

  function Undated(cs: seq<Entry>, atLeast: int): nat {
    if cs == [] then 0
    else
      Undated(cs[..|cs| - 1], atLeast)
      + if cs[|cs| - 1].day == NO_DAY && cs[|cs| - 1].level >= atLeast then 1 else 0
  }

  /** The latest day on which the highest level was reached, whatever the order of the entries. */
  ghost predicate IsWorst(cs: seq<Entry>, worst: int, day: int) {
    if cs == [] then worst == -1 && day == NO_DAY
    else
      (forall e :: e in cs ==> e.level <= worst && (e.level == worst ==> e.day <= day))
      && exists e :: e in cs && e.level == worst && e.day == day
  }

  /** The mean in tenths, rounded to the nearest and halves up. */
  predicate IsMean10(sum: int, n: nat, avg10: int) {
    if n == 0 then avg10 == 0 else 20 * sum - n < 2 * n * avg10 <= 20 * sum + n
  }

  predicate LevelsAndDays(es: seq<Entry>) {
    forall i :: 0 <= i < |es| ==> es[i].level >= 0 && es[i].day >= 0
  }

  /** The day the pass is on, -1 before the first, and the worst of it. */
  ghost predicate Current(cs: seq<Entry>, curDay: int, curMax: int) {
    (if curDay == -1 then Days(cs) == {} && curMax == -1 else curDay > 0 && curDay in Days(cs))
    && (forall e :: e in cs && e.day == curDay ==> e.level <= curMax)
    && (forall e :: e in cs ==> e.day <= curDay || e.day == NO_DAY)
    && (curDay != -1 ==> exists e :: e in cs && e.day == curDay && e.level == curMax)
  }

  /** What the pass holds of the part it has seen. */
  ghost predicate Seen(cs: seq<Entry>, s: Stats, sum: int, curDay: int, curMax: int) {
    s.n == |cs| && sum == Sum(cs) && IsWorst(cs, s.worst, s.worstDay)
    && s.days == |Days(cs)| + Undated(cs, 0)
    && s.badDays == |BadDays(cs) - {curDay}| + Undated(cs, BAD)
    && Current(cs, curDay, curMax)
  }

  /** The entries counted, each as often as it is in the log: those of the range's days, both ends in it, and
      those of no day if they are asked for. */
  lemma {:induction false} CountedAre(es: seq<Entry>, from: int, to: int, withUndated: bool, e: Entry)
    ensures multiset(Counted(es, from, to, withUndated))[e]
         == if (e.day == 0 && withUndated) || (e.day != 0 && from <= e.day && e.day <= to) then multiset(es)[e] else 0
  {
    if es != [] {
      CountedAre(es[..|es| - 1], from, to, withUndated, e);
      assert es == es[..|es| - 1] + [es[|es| - 1]];
    }
  }

  /** A sum and a count have one mean in tenths, and it is nearer than half a tenth, or half a tenth above. */
  lemma MeanIsOne(sum: int, n: nat, a: int, b: int)
    requires IsMean10(sum, n, a) && IsMean10(sum, n, b)
    ensures a == b && (n > 0 ==> 20 * sum - n < 2 * n * a && 2 * n * a <= 20 * sum + n)
  {
    if n > 0 {
      var m := 2 * n;
      assert a > b ==> m * (a - b) >= m by { if a > b { AtLeastOnce(m, a - b); } }
      assert b > a ==> m * (b - a) >= m by { if b > a { AtLeastOnce(m, b - a); } }
    }
  }

  lemma AtLeastOnce(m: nat, d: nat)
    requires d > 0
    ensures m * d >= m
  {
    assert m * d == m + m * (d - 1);
  }

  lemma DaysAppend(cs: seq<Entry>, e: Entry)
    ensures Days(cs + [e]) == Days(cs) + if e.day != NO_DAY then {e.day} else {}
    ensures BadDays(cs + [e]) == BadDays(cs) + if e.day != NO_DAY && e.level >= BAD then {e.day} else {}
    ensures forall x :: x in cs + [e] <==> x in cs || x == e
  {
  }

  lemma SumAppend(cs: seq<Entry>, e: Entry)
    ensures Sum(cs + [e]) == Sum(cs) + e.level
    ensures Undated(cs + [e], 0) == Undated(cs, 0) + if e.day == NO_DAY && e.level >= 0 then 1 else 0
    ensures Undated(cs + [e], BAD) == Undated(cs, BAD) + if e.day == NO_DAY && e.level >= BAD then 1 else 0
  {
    assert (cs + [e])[..|cs|] == cs;
  }

  lemma WorstAppend(cs: seq<Entry>, worst: int, day: int, e: Entry)
    requires IsWorst(cs, worst, day) && e.level >= 0 && e.day >= 0
    requires forall x :: x in cs ==> x.day <= e.day
    ensures if e.level >= worst then IsWorst(cs + [e], e.level, e.day) else IsWorst(cs + [e], worst, day)
  {
    assert forall x :: x in cs + [e] <==> x in cs || x == e;
    assert e in cs + [e];
  }

  /** One step of the pass. */
  function Count(s: Stats, curDay: int, curMax: int, e: Entry): (r: (Stats, int, int))
    ensures r.0.avg10 == s.avg10
  {
    var t := s.(n := s.n + 1,
                worst := if e.level >= s.worst then e.level else s.worst,
                worstDay := if e.level >= s.worst then e.day else s.worstDay);
    if e.day == NO_DAY then
      (t.(days := t.days + 1, badDays := if e.level >= BAD then t.badDays + 1 else t.badDays), curDay, curMax)
    else if e.day != curDay then
      (t.(days := t.days + 1, badDays := if curMax >= BAD then t.badDays + 1 else t.badDays), e.day, e.level)
    else if e.level > curMax then (t, curDay, e.level)
    else (t, curDay, curMax)
  }

  lemma CurrentIsDated(cs: seq<Entry>, curDay: int, curMax: int)
    requires Current(cs, curDay, curMax) && curDay != -1
    ensures curDay in Days(cs)
  {
  }

  lemma StillCurrent(cs: seq<Entry>, curDay: int, curMax: int, e: Entry)
    requires Current(cs, curDay, curMax) && e.day == NO_DAY
    ensures Current(cs + [e], curDay, curMax)
  {
    hide Days;
    DaysAppend(cs, e);
    assert Days(cs) + {} == Days(cs);
  }

  lemma SameCurrent(cs: seq<Entry>, curDay: int, curMax: int, e: Entry)
    requires Current(cs, curDay, curMax) && e.day != NO_DAY && e.day == curDay && e.day >= 0
    ensures Current(cs + [e], curDay, if e.level > curMax then e.level else curMax)
  {
    hide Days;
    DaysAppend(cs, e);
    assert e in cs + [e];
  }

  lemma NewCurrent(cs: seq<Entry>, curDay: int, curMax: int, e: Entry)
    requires Current(cs, curDay, curMax) && e.day != NO_DAY && e.day != curDay && e.day >= 0
    requires forall x :: x in cs ==> x.day <= e.day
    ensures Current(cs + [e], e.day, e.level) && e.day !in Days(cs) && e.day !in BadDays(cs)
  {
    hide Days, BadDays;
    DaysAppend(cs, e);
    DaysAre(cs);
    assert e in cs + [e];
  }

  lemma CountUndated(cs: seq<Entry>, s: Stats, sum: int, curDay: int, curMax: int, e: Entry)
    requires Seen(cs, s, sum, curDay, curMax) && e.level >= 0 && e.day >= 0
    requires forall x :: x in cs ==> x.day <= e.day
    requires e.day == NO_DAY
    ensures var (s', d', m') := Count(s, curDay, curMax, e); Seen(cs + [e], s', sum + e.level, d', m')
  {
    hide IsWorst, Sum, Undated, Days, BadDays, Current;
    DaysAppend(cs, e);
    SumAppend(cs, e);
    WorstAppend(cs, s.worst, s.worstDay, e);
    StillCurrent(cs, curDay, curMax, e);
    assert BadDays(cs + [e]) - {curDay} == BadDays(cs) - {curDay};
    assert Days(cs) + {} == Days(cs);
  }

  lemma CountSameDay(cs: seq<Entry>, s: Stats, sum: int, curDay: int, curMax: int, e: Entry)
    requires Seen(cs, s, sum, curDay, curMax) && e.level >= 0 && e.day >= 0
    requires forall x :: x in cs ==> x.day <= e.day
    requires e.day != NO_DAY && e.day == curDay
    ensures var (s', d', m') := Count(s, curDay, curMax, e); Seen(cs + [e], s', sum + e.level, d', m')
  {
    hide IsWorst, Sum, Undated, Days, BadDays, Current;
    DaysAppend(cs, e);
    SumAppend(cs, e);
    WorstAppend(cs, s.worst, s.worstDay, e);
    SameCurrent(cs, curDay, curMax, e);
    assert BadDays(cs + [e]) - {curDay} == BadDays(cs) - {curDay};
    CurrentIsDated(cs, curDay, curMax);
    assert Days(cs + [e]) == Days(cs);
  }

  lemma CountNewDay(cs: seq<Entry>, s: Stats, sum: int, curDay: int, curMax: int, e: Entry)
    requires Seen(cs, s, sum, curDay, curMax) && e.level >= 0 && e.day >= 0
    requires forall x :: x in cs ==> x.day <= e.day
    requires e.day != NO_DAY && e.day != curDay
    ensures var (s', d', m') := Count(s, curDay, curMax, e); Seen(cs + [e], s', sum + e.level, d', m')
  {
    hide IsWorst, Sum, Undated, Days, BadDays, Current;
    DaysAppend(cs, e);
    SumAppend(cs, e);
    WorstAppend(cs, s.worst, s.worstDay, e);
    NewCurrent(cs, curDay, curMax, e);
    assert BadDays(cs + [e]) - {e.day} == BadDays(cs);
    DayCloses(cs, s, sum, curDay, curMax);
  }

  lemma CountSees(cs: seq<Entry>, s: Stats, sum: int, curDay: int, curMax: int, e: Entry)
    requires Seen(cs, s, sum, curDay, curMax) && e.level >= 0 && e.day >= 0
    requires forall x :: x in cs ==> x.day <= e.day
    ensures var (s', d', m') := Count(s, curDay, curMax, e); Seen(cs + [e], s', sum + e.level, d', m')
  {
    hide Seen;
    if e.day == NO_DAY {
      CountUndated(cs, s, sum, curDay, curMax, e);
    } else if e.day == curDay {
      CountSameDay(cs, s, sum, curDay, curMax, e);
    } else {
      CountNewDay(cs, s, sum, curDay, curMax, e);
    }
  }

  /** The current day is among the bad ones when its maximum says so. */
  lemma DayCloses(cs: seq<Entry>, s: Stats, sum: int, curDay: int, curMax: int)
    requires Seen(cs, s, sum, curDay, curMax)
    ensures |BadDays(cs)| == |BadDays(cs) - {curDay}| + if curMax >= BAD then 1 else 0
  {
    hide IsWorst, Sum, Undated, Days, BadDays;
    DaysAre(cs);
    if curMax >= BAD {
      assert curDay in BadDays(cs);
      assert BadDays(cs) == (BadDays(cs) - {curDay}) + {curDay};
    } else {
      assert curDay !in BadDays(cs);
      assert BadDays(cs) - {curDay} == BadDays(cs);
    }
  }

  lemma DaysAre(cs: seq<Entry>)
    ensures forall d :: d in Days(cs) <==> exists e :: e in cs && e.day == d && d != NO_DAY
    ensures forall d :: d in BadDays(cs) <==> exists e :: e in cs && e.day == d && d != NO_DAY && e.level >= BAD
    ensures forall e :: e in cs && e.day != NO_DAY ==> e.day in Days(cs)
  {
  }

  lemma SortedDays(es: seq<Entry>, i: nat, from: int, to: int, withUndated: bool)
    requires Sorted(es) && i < |es|
    ensures forall x :: x in Counted(es[..i], from, to, withUndated) ==> x.day <= es[i].day
  {
    CountedIn(es[..i], from, to, withUndated);
    forall x | x in es[..i] ensures x.day <= es[i].day {
      var k :| 0 <= k < i && es[k] == x;
      assert Leq(es[k], es[i]);
    }
  }

  lemma {:induction false} CountedIn(es: seq<Entry>, from: int, to: int, withUndated: bool)
    ensures forall x :: x in Counted(es, from, to, withUndated) ==> x in es
  {
    if es != [] {
      CountedIn(es[..|es| - 1], from, to, withUndated);
    }
  }

  lemma CountedAppend(es: seq<Entry>, e: Entry, from: int, to: int, withUndated: bool)
    ensures Counted(es + [e], from, to, withUndated)
         == Counted(es, from, to, withUndated) + if Counts(e, from, to, withUndated) then [e] else []
  {
    assert (es + [e])[..|es|] == es;
  }

  lemma MeanRounds(sum: int, n: nat)
    requires n > 0
    ensures IsMean10(sum, n, (sum * 10 + n / 2) / n)
  {
    var q := (sum * 10 + n / 2) / n;
    assert q * n <= sum * 10 + n / 2 < q * n + n;
    assert 2 * n * q == 2 * (q * n);
  }

  /** pain_stats_calc on the first n entries of a sorted log. */
  method StatsCalc(e: array<Entry>, n: nat, from: int, to: int, withUndated: bool) returns (s: Stats)
    requires n <= e.Length && Sorted(e[..n]) && LevelsAndDays(e[..n])
    ensures var cs := Counted(e[..n], from, to, withUndated);
      s.n == |cs|
      && IsMean10(Sum(cs), |cs|, s.avg10)
      && IsWorst(cs, s.worst, s.worstDay)
      && s.days == |Days(cs)| + Undated(cs, 0)
      && s.badDays == |BadDays(cs)| + Undated(cs, BAD)
  {
    hide Sorted, IsWorst, IsMean10, Sum, Undated, Seen, Days, BadDays, Counted, LevelsAndDays;
    ghost var es := e[..n];
    var sum, curMax, curDay := 0, -1, -1;
    s := Stats(0, 0, -1, NO_DAY, 0, 0);
    assert Counted(es[..0], from, to, withUndated) == [] by { NoneCounted(es[..0], from, to, withUndated); }
    SeenNothing();
    for i := 0 to n
      invariant Seen(Counted(es[..i], from, to, withUndated), s, sum, curDay, curMax) && s.avg10 == 0
    {
      PassStep(es, i, from, to, withUndated, s, sum, curDay, curMax);
      if !Counts(e[i], from, to, withUndated) { continue; }
      sum := sum + e[i].level;
      var (s', d', m') := Count(s, curDay, curMax, e[i]);
      s, curDay, curMax := s', d', m';
    }
    assert es[..n] == es;
    ghost var cs := Counted(es, from, to, withUndated);
    LastDay(cs, s, sum, curDay, curMax);
    NoMean(sum);
    if curMax >= BAD { s := s.(badDays := s.badDays + 1); }
    if s.n > 0 {
      MeanRounds(sum, s.n);
      s := s.(avg10 := (sum * 10 + s.n / 2) / s.n);
    }
  }

  lemma NoneCounted(es: seq<Entry>, from: int, to: int, withUndated: bool)
    requires es == []
    ensures Counted(es, from, to, withUndated) == []
  {
  }

  lemma PassStep(es: seq<Entry>, i: nat, from: int, to: int, withUndated: bool,
                 s: Stats, sum: int, curDay: int, curMax: int)
    requires i < |es| && Sorted(es) && LevelsAndDays(es)
    requires Seen(Counted(es[..i], from, to, withUndated), s, sum, curDay, curMax)
    ensures var (s', d', m') := Count(s, curDay, curMax, es[i]);
      var cs := Counted(es[..i + 1], from, to, withUndated);
      if Counts(es[i], from, to, withUndated) then Seen(cs, s', sum + es[i].level, d', m')
      else Seen(cs, s, sum, curDay, curMax)
  {
    hide Seen, Days, BadDays, Counted, Sorted, Count;
    var cs := Counted(es[..i], from, to, withUndated);
    assert es[..i + 1] == es[..i] + [es[i]];
    CountedAppend(es[..i], es[i], from, to, withUndated);
    if Counts(es[i], from, to, withUndated) {
      SortedDays(es, i, from, to, withUndated);
      CountSees(cs, s, sum, curDay, curMax, es[i]);
    } else {
      assert cs + [] == cs;
    }
  }

  lemma NoMean(sum: int)
    ensures IsMean10(sum, 0, 0)
  {
  }

  lemma SeenNothing()
    ensures Seen([], Stats(0, 0, -1, NO_DAY, 0, 0), 0, -1, -1)
  {
    assert Days([]) == {} && BadDays([]) == {};
  }

  /** The last day is closed after the loop. */
  lemma LastDay(cs: seq<Entry>, s: Stats, sum: int, curDay: int, curMax: int)
    requires Seen(cs, s, sum, curDay, curMax)
    ensures s.badDays + (if curMax >= BAD then 1 else 0) == |BadDays(cs)| + Undated(cs, BAD)
    ensures s.n == |cs| && sum == Sum(cs) && IsWorst(cs, s.worst, s.worstDay)
    ensures s.days == |Days(cs)| + Undated(cs, 0)
  {
    DayCloses(cs, s, sum, curDay, curMax);
  }

  // ---- the chart: pain_daily_max -----------------------------------------------------------

  /** The true maximum of a day: -1 when nothing was logged on it. */
  ghost predicate IsDayMax(es: seq<Entry>, day: int, max: int) {
    (forall i :: 0 <= i < |es| && es[i].day == day && day != NO_DAY ==> es[i].level <= max)
    && (max == -1 || (day != NO_DAY && exists i :: 0 <= i < |es| && es[i].day == day && es[i].level == max))
  }

  method DailyMax(e: array<Entry>, n: nat, last: int, days: nat, out: array<int>)
    requires n <= e.Length && LevelsAndDays(e[..n]) && out.Length == days
    modifies out
    ensures forall k :: 0 <= k < days ==> IsDayMax(e[..n], last - days + 1 + k, out[k])
  {
    hide IsDayMax;
    var first := last - days + 1;
    for i := 0 to days
      invariant forall k :: 0 <= k < i ==> out[k] == -1
    {
      out[i] := -1;
    }
    forall k | 0 <= k < days ensures IsDayMax(e[..0], first + k, out[k]) { NoMaxYet(e[..0], first + k); }
    for i := 0 to n
      invariant forall k :: 0 <= k < days ==> IsDayMax(e[..i], first + k, out[k])
    {
      var d := e[i].day;
      ghost var was := out[..];
      if d != NO_DAY && first <= d <= last {
        var k := d - first;
        if e[i].level > out[k] { out[k] := e[i].level; }
      }
      assert e[..i + 1] == e[..i] + [e[i]];
      forall k | 0 <= k < days ensures IsDayMax(e[..i + 1], first + k, out[k]) {
        DayMaxStep(e[..i], e[i], first + k, was[k]);
      }
    }
  }

  lemma NoMaxYet(es: seq<Entry>, day: int)
    requires es == []
    ensures IsDayMax(es, day, -1)
  {
  }

  lemma DayMaxStep(es: seq<Entry>, e: Entry, day: int, max: int)
    requires IsDayMax(es, day, max)
    ensures IsDayMax(es + [e], day, if e.day == day && day != NO_DAY && e.level > max then e.level else max)
  {
    var t := es + [e];
    assert t[|es|] == e;
    assert forall i :: 0 <= i < |es| ==> t[i] == es[i];
  }
}
