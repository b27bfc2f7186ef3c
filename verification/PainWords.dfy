/** The pain log's words, as the file and the person give them: apps/pain_log.h, lines 143-206 and 488-605.
    What a note keeps, which area a word is, and which dates and times are read. */
module PainWords {
  import opened Common
  import opened Str
  import opened DateTime
  import opened PainText

  // ---- notes -----------------------------------------------------------------------------------

  /** The words of a text: the runs of characters that are printed and not blank. */
  function Words(s: string): (ws: seq<string>)
    ensures s != "" && '!' <= s[0] <= '~' ==> ws != []
  {
    if s == "" then []
    else if !('!' <= s[0] <= '~') then Words(s[1..])
    else if |s| == 1 || !('!' <= s[1] <= '~') then [[s[0]]] + Words(s[1..])
    else var ws := Words(s[1..]); [[s[0]] + ws[0]] + ws[1..]
  }

  function Spaced(ws: seq<string>): string {
    if ws == [] then "" else if |ws| == 1 then ws[0] else ws[0] + (" " + Spaced(ws[1..]))
  }

  lemma SpacedCons(w: string, ws: seq<string>)
    ensures Spaced([w] + ws) == w + if ws == [] then "" else " " + Spaced(ws)
  {
    assert ([w] + ws)[1..] == ws;
    if ws == [] { assert w + "" == w; }
  }

  lemma SpacedLonger(c: char, ws: seq<string>)
    requires ws != []
    ensures Spaced([[c] + ws[0]] + ws[1..]) == [c] + Spaced(ws)
  {
    hide Spaced;
    var w, more := ws[0], ws[1..];
    assert ws == [w] + more;
    SpacedCons(w, more);
    SpacedCons([c] + w, more);
    var rest := if more == [] then "" else " " + Spaced(more);
    assert [c] + w + rest == [c] + (w + rest);
  }

  lemma {:induction false} SqueezeIsWords(s: string, started: bool, gap: bool)
    ensures Squeeze(s, started, gap)
         == (if started && Words(s) != [] && (gap || Gap(s[0])) then " " else "") + Spaced(Words(s))
  {
    hide Spaced;
    NoWords();
    if s != "" {
      var t := s[1..];
      SqueezeIsWords(t, started || !Gap(s[0]), Gap(s[0]));
      if !Gap(s[0]) {
        WordGoesOn(s);
        var lead, more := if gap && started then " " else "", Squeeze(t, true, false);
        assert lead + [s[0]] + more == lead + ([s[0]] + more);
      }
    }
  }

  /** A character of a word, and what follows it. */
  lemma WordGoesOn(s: string)
    requires s != "" && !Gap(s[0])
    ensures var t := s[1..];
      Spaced(Words(s)) == [s[0]] + ((if Words(t) != [] && Gap(t[0]) then " " else "") + Spaced(Words(t)))
  {
    hide Spaced;
    NoWords();
    var t := s[1..];
    if t == "" || Gap(t[0]) {
      assert Words(s) == [[s[0]]] + Words(t);
      SpacedCons([s[0]], Words(t));
    } else {
      SpacedLonger(s[0], Words(t));
      assert "" + Spaced(Words(t)) == Spaced(Words(t));
    }
  }

  lemma NoWords()
    ensures Spaced([]) == "" && Words("") == []
  {
  }

  /** A note is its words with one blank between them, as far as 31 characters go: all of them, or as much as
      fits and does not end in a blank. */
  lemma NoteKeepsWords(s: string)
    ensures var note, all := Clean(s), Spaced(Words(s));
      note <= all
      && (note == all || |note| == 31 || (|note| == 30 && all[30] == ' '))
      && (|all| <= 31 ==> note == all)
  {
    hide Squeeze, Words, Spaced;
    SqueezeIsWords(s, false, false);
    var all := Squeeze(s, false, false);
    assert "" + Spaced(Words(s)) == Spaced(Words(s));
    CleanIsClean(s);
    if |all| <= 31 { WholeNote(s); }
  }

  lemma WholeNote(s: string)
    requires |Squeeze(s, false, false)| <= 31
    ensures Clean(s) == Squeeze(s, false, false)
  {
    SqueezeIsTidy(s, false, false);
  }

  // ---- areas -----------------------------------------------------------------------------------

  function Small(s: string): string { seq(|s|, i requires 0 <= i < |s| => Lower(s[i])) }

  lemma SameWordIs(s: string, name: string)
    ensures SameWord(s, name) <==> Small(s) == name
  {
  }

  /** The area of a word, in capitals or not. */
  lemma AreaOfWord(s: string)
    ensures AreaOf(s) == if Small(s) == "cramps" then 0 else if Small(s) == "back" then 1
                         else if Small(s) == "head" then 2 else 3
  {
    hide SameWord, Small;
    SameWordIs(s, "cramps");
    SameWordIs(s, "back");
    SameWordIs(s, "head");
  }

  // ---- dates and times -------------------------------------------------------------------------

  /** The text of a date of four, two and two digits. */
  function DateText(t: Date): string
    requires 0 <= t.y && 0 <= t.m && 0 <= t.d
  {
    Digits(t.y, 4) + "-" + Digits(t.m, 2) + "-" + Digits(t.d, 2)
  }

  lemma NumIsDigits(s: string, off: nat, n: nat)
    requires off <= |s| && Num(s, off, n) >= 0
    ensures off + n <= |s| && s[off..off + n] == Digits(Num(s, off, n), n)
  {
    DigitsOfValue(s[off..off + n]);
  }

  /** The file's dates, exactly: a dash for no day, and the real dates after the first of January 1970. */
  lemma DaysReadExactly(s: string, day: int)
    requires NUL !in s
    ensures ParseDay(s) == Some(day)
       <==> (s == "-" && day == 0)
            || exists t: Date :: ValidDate(t) && 1970 <= t.y <= 9999 && s == DateText(t) && day == DaysFromCivil(t) > 0
  {
    hide DaysFromCivil, Num, Digits, DaysInMonth, ParseDay, DateText;
    JustADash();
    if ParseDay(s) == Some(day) && s != "-" {
      DayIsDate(s, day);
    }
    forall t: Date | ValidDate(t) && 1970 <= t.y <= 9999 && s == DateText(t) && day == DaysFromCivil(t) > 0
      ensures ParseDay(s) == Some(day)
    {
      DateIsRead(t);
    }
  }

  lemma JustADash()
    ensures ParseDay("-") == Some(0) && ParseTime("-") == Some(0xFFFF)
  {
  }

  lemma DateIsRead(t: Date)
    requires ValidDate(t) && 1970 <= t.y <= 9999 && DaysFromCivil(t) > 0
    ensures ParseDay(DateText(t)) == Some(DaysFromCivil(t))
  {
    hide DaysFromCivil, Num, Digits;
    assert t.m <= 12 && t.d <= 31;
    NumsOfDate(DateText(t), t.y, t.m, t.d);
    assert DateText(t)[0] != '-';
  }

  lemma DayIsDate(s: string, day: int)
    requires NUL !in s && ParseDay(s) == Some(day) && s != "-"
    ensures exists t: Date :: ValidDate(t) && 1970 <= t.y <= 9999 && s == DateText(t) && day == DaysFromCivil(t) > 0
  {
    hide DaysFromCivil, Num, Digits, DaysInMonth;
    var t := Date(Num(s, 0, 4), Num(s, 5, 2), Num(s, 8, 2));
    NumIsDigits(s, 0, 4);
    NumIsDigits(s, 5, 2);
    NumIsDigits(s, 8, 2);
    ValueBound(s[0..4]);
    FourDigitsAtMost();
    assert |s| == 10;
    assert s == s[0..4] + [s[4]] + s[5..7] + [s[7]] + s[8..10];
    assert s == DateText(t) && ValidDate(t);
  }

  lemma FourDigitsAtMost()
    ensures Pow10(4) == 10_000
  {
    assert Pow10(2) == 100;
  }

  /** The text of a time, its hour of one digit or two. */
  predicate IsTime(s: string, h: nat, m: nat) {
    h < 24 && m < 60
    && (s == Digits(h, 2) + ":" + Digits(m, 2) || (h < 10 && s == Digits(h, 1) + ":" + Digits(m, 2)))
  }

  /** The file's times, exactly: a dash for no time, and those of a day of twenty-four hours. */
  lemma TimesReadExactly(s: string, minute: int)
    requires NUL !in s
    ensures ParseTime(s) == Some(minute)
       <==> (s == "-" && minute == 0xFFFF) || exists h: nat, m: nat :: IsTime(s, h, m) && minute == h * 60 + m
  {
    hide ParseTime, IsTime;
    JustADash();
    if ParseTime(s) == Some(minute) && s != "-" { var h, m := TimeIsTime(s, minute); }
    forall h: nat, m: nat | IsTime(s, h, m) && minute == h * 60 + m ensures ParseTime(s) == Some(minute) {
      TimeIsRead(s, h, m);
    }
  }

  lemma TimeIsTime(s: string, minute: int) returns (h: nat, m: nat)
    requires NUL !in s && ParseTime(s) == Some(minute) && s != "-"
    ensures IsTime(s, h, m) && minute == h * 60 + m
  {
    hide Num, Digits;
    var hl := if At(s, 1) == ':' then 1 else 2;
    NumIsDigits(s, 0, hl);
    NumIsDigits(s, hl + 1, 2);
    h, m := Num(s, 0, hl), Num(s, hl + 1, 2);
    ValueBound(s[0..hl]);
    assert Pow10(1) == 10;
    assert |s| == hl + 3;
    assert s == s[0..hl] + [s[hl]] + s[hl + 1..hl + 3];
  }

  lemma TimeIsRead(s: string, h: nat, m: nat)
    requires IsTime(s, h, m)
    ensures ParseTime(s) == Some(h * 60 + m)
  {
    hide Num, Digits;
    assert Pow10(1) == 10 && Pow10(2) == 100;
    var hl := |s| - 3;
    assert s[0..hl] == Digits(h, hl) && s[hl + 1..hl + 3] == Digits(m, 2);
    NumOfDigits(s, 0, hl, h);
    NumOfDigits(s, hl + 1, 2, m);
    assert IsDigit(Digits(h, hl)[0]) && s[0] == Digits(h, hl)[0];
    assert hl == 2 ==> IsDigit(Digits(h, hl)[1]) && s[1] == Digits(h, hl)[1];
  }

  /** A seq is one to nine digits; a line without one has 0. */
  lemma SeqsReadExactly(f: string, v: nat)
    ensures ParseSeq(f) == Some(v) <==> (f == "" && v == 0) || (1 <= |f| <= 9 && AllDigits(f) && v == Value(f))
  {
  }

  // ---- a line ----------------------------------------------------------------------------------

  lemma DayAsWritten()
    ensures DayText(20000) == "2024-10-04" && DayText(0) == "-"
  {
    hide CivilFromDays, Digits;
    var t := Date(2024, 10, 4);
    assert ValidDate(t) && DaysFromCivil(t) == 20000;
    DateRoundTrip(t);
    TwoDigits(20);
    TwoDigits(10);
    TwoDigits(4);
    DigitsStep(202, 2);
    DigitsStep(2024, 3);
    assert Digits(20, 2) == "20" && Digits(10, 2) == "10" && Digits(4, 2) == "04";
    assert Digits(202, 3) == "20" + "2" && Digits(2024, 4) == "202" + "4";
    assert "2024" + "-" + "10" + "-" + "04" == "2024-10-04";
  }

  lemma TwoDigits(v: nat)
    requires v < 100
    ensures Digits(v, 2) == [DigitChar(v / 10), DigitChar(v % 10)]
  {
    hide Digits;
    DigitsStep(v, 1);
    DigitsStep(v / 10, 0);
    var u := v / 10;
    assert u % 10 == u && Digits(u, 1) == "" + [DigitChar(u)];
  }

  lemma TimeAsWritten()
    ensures TimeText(545) == "09:05" && TimeText(0xFFFF) == "-"
  {
    hide Digits;
    TwoDigits(9);
    TwoDigits(5);
    assert Digits(9, 2) == "09" && Digits(5, 2) == "05";
    assert "09" + ":" + "05" == "09:05";
  }

  lemma NumbersAsWritten()
    ensures Decimal(7) == "7" && Decimal(10) == "10" && Decimal(12) == "12" && Decimal(1) == "1"
  {
    assert Decimal(1) == "1";
  }

  /** The line of an entry, and of one with no day. */
  lemma LinesAsWritten()
    ensures ValidEntry(Entry(20000, 545, 7, 1, 12, "dull ache")) && ValidEntry(Entry(0, 0xFFFF, 10, 3, 1, ""))
    ensures FormatLine(Entry(20000, 545, 7, 1, 12, "dull ache")) == "2024-10-04\t09:05\t7\tback\t12\tdull ache"
    ensures FormatLine(Entry(0, 0xFFFF, 10, 3, 1, "")) == "-\t-\t10\tother\t1\t"
  {
    hide DayText, TimeText, Decimal;
    DayAsWritten();
    TimeAsWritten();
    NumbersAsWritten();
    assert AREA_NAME[1] == "back" && AREA_NAME[3] == "other";
    assert "2024-10-04" + "\t" + "09:05" + "\t" + "7" + "\t" + "back" + "\t" + "12" + "\t" + "dull ache"
        == "2024-10-04\t09:05\t7\tback\t12\tdull ache";
    assert "-" + "\t" + "-" + "\t" + "10" + "\t" + "other" + "\t" + "1" + "\t" + "" == "-\t-\t10\tother\t1\t";
  }
}
