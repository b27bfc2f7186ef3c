/** C strings and the tab-separated lines of apps/str.h, with the line reader of apps/pain_log.h.

    A C string is the characters before its NUL.  `At` reads one character or the NUL and may not go
    further, so every function written with it is also shown never to read past the end. */
module Str {
  import opened Common

  function At(s: string, i: nat): char
    requires i <= |s|
  {
    if i < |s| then s[i] else NUL
  }

  function DigitChar(v: nat): char
    requires v < 10
    ensures IsDigit(DigitChar(v)) && DigitVal(DigitChar(v)) == v
  {
    (v + '0' as int) as char
  }

  /** What a C function sees of a buffer: the characters before the first NUL. */
  function CStr(s: string): string {
    if s == "" || s[0] == NUL then "" else [s[0]] + CStr(s[1..])
  }

  lemma {:induction false} CStrOfPlain(s: string)
    requires NUL !in s
    ensures CStr(s) == s
  {
    if s != "" {
      CStrOfPlain(s[1..]);
    }
  }

  // ---- decimal numbers ---------------------------------------------------------------------

  /** The last `width` decimal digits of v. */
  function Digits(v: nat, width: nat): (s: string)
    ensures |s| == width && AllDigits(s)
  {
    if width == 0 then "" else Digits(v / 10, width - 1) + [DigitChar(v % 10)]
  }

  /** v in as many digits as it takes. */
  function Decimal(v: nat): (s: string)
    ensures |s| > 0 && AllDigits(s)
  {
    (if v < 10 then "" else Decimal(v / 10)) + [DigitChar(v % 10)]
  }

  lemma DigitsStep(v: nat, n: nat)
    ensures Digits(v, 0) == "" && Digits(v, n + 1) == Digits(v / 10, n) + [DigitChar(v % 10)]
  {
  }

  lemma DecimalStep(v: nat)
    ensures Decimal(v) == (if v < 10 then "" else Decimal(v / 10)) + [DigitChar(v % 10)]
  {
  }

  lemma ValueStep(s: string, d: char)
    requires AllDigits(s) && IsDigit(d)
    ensures Value("") == 0 && AllDigits(s + [d]) && Value(s + [d]) == Value(s) * 10 + DigitVal(d)
  {
    assert (s + [d])[..|s|] == s;
  }

  lemma {:induction false} DigitsOfValue(t: string)
    requires AllDigits(t)
    ensures Digits(Value(t), |t|) == t
  {
    hide Digits, Value;
    if t == "" {
      DigitsStep(Value(t), 0);
    } else {
      var front, d := t[..|t| - 1], t[|t| - 1];
      DigitsOfValue(front);
      assert t == front + [d];
      ValueStep(front, d);
      var v := Value(front);
      assert (v * 10 + DigitVal(d)) / 10 == v && (v * 10 + DigitVal(d)) % 10 == DigitVal(d);
      assert DigitChar(DigitVal(d)) == d;
      DigitsStep(Value(t), |front|);
    }
  }

  lemma {:induction false} ValueOfDigits(v: nat, width: nat)
    requires v < Pow10(width)
    ensures Value(Digits(v, width)) == v
  {
    if width > 0 {
      assert Pow10(width) == 10 * Pow10(width - 1);
      ValueOfDigits(v / 10, width - 1);
      assert Digits(v, width)[..width - 1] == Digits(v / 10, width - 1);
    }
  }

  lemma {:induction false} ValueOfDecimal(v: nat)
    ensures Value(Decimal(v)) == v
  {
    var s := Decimal(v);
    if v >= 10 {
      ValueOfDecimal(v / 10);
      assert s[..|s| - 1] == Decimal(v / 10);
    } else {
      assert s[..|s| - 1] == "";
    }
  }

  lemma {:induction false} DecimalLength(v: nat, n: nat)
    requires n > 0
    ensures |Decimal(v)| <= n <==> v < Pow10(n)
  {
    if v < 10 {
      assert Pow10(n) == 10 * Pow10(n - 1);
    } else if n > 1 {
      DecimalLength(v / 10, n - 1);
    }
  }

  // ---- tab-separated lines: tsv_field ------------------------------------------------------

  predicate EndsField(c: char) { c == '\t' || c == '\n' }

  /** The fields of the first line of `s`, split at its tabs. */
  function Fields(s: string): (fs: seq<string>)
    ensures |fs| > 0
  {
    if s == "" || s[0] == '\n' then [""]
    else if s[0] == '\t' then [""] + Fields(s[1..])
    else var fs := Fields(s[1..]); [[s[0]] + fs[0]] + fs[1..]
  }

  function Cut(s: string, n: nat): string {
    if |s| <= n then s else s[..n]
  }

  /** Field k as `tsv_field` gives it to a buffer of n bytes. */
  function Field(line: string, k: nat, n: nat): string
    requires n > 0
  {
    if k < |Fields(line)| then Cut(Fields(line)[k], n - 1) else ""
  }

  method TsvField(line: string, k: nat, n: nat) returns (out: string)
    requires n > 0
    ensures out == Field(line, k, n)
  {
    var i, left := 0, k;
    while left > 0 && i < |line| && line[i] != '\n'
      invariant 0 <= i <= |line| && 0 <= left <= k
      invariant if left < |Fields(line[i..])| then
                  k < |Fields(line)| && Fields(line[i..])[left] == Fields(line)[k]
                else k >= |Fields(line)|
    {
      assert line[i..][1..] == line[i + 1..];
      if line[i] == '\t' { left := left - 1; }
      i := i + 1;
    }
    out := "";
    if left > 0 {
      assert Fields(line[i..]) == [""];
      return;
    }
    out := TakeField(line, i, n);
  }

  /** The field that starts at i, cut to fit. */
  method TakeField(line: string, start: nat, n: nat) returns (out: string)
    requires n > 0 && start <= |line|
    ensures out == Cut(Fields(line[start..])[0], n - 1)
  {
    var i := start;
    out := "";
    while i < |line| && !EndsField(line[i]) && |out| < n - 1
      invariant i <= |line| && |out| <= n - 1
      invariant out + Fields(line[i..])[0] == Fields(line[start..])[0]
    {
      assert line[i..][1..] == line[i + 1..];
      out := out + [line[i]];
      i := i + 1;
    }
    assert i == |line| || EndsField(line[i]) ==> Fields(line[i..])[0] == "";
  }

  predicate PlainField(a: string) {
    forall i :: 0 <= i < |a| ==> !EndsField(a[i])
  }

  lemma {:induction false} FieldsOfAppend(p: string, a: string)
    requires '\n' !in p && PlainField(a)
    ensures Fields(p + "\t" + a) == Fields(p) + [a]
  {
    var s := p + "\t" + a;
    if p == "" {
      FieldsOfLast(a);
      assert s[1..] == a;
    } else {
      FieldsOfAppend(p[1..], a);
      assert s[1..] == p[1..] + "\t" + a;
    }
  }

  lemma {:induction false} FieldsOfLast(a: string)
    requires PlainField(a)
    ensures Fields(a) == [a]
  {
    if a != "" {
      FieldsOfLast(a[1..]);
      assert [a[0]] + a[1..] == a;
    }
  }

  // ---- lines: pain_each_line ---------------------------------------------------------------

  const LINE_IN: nat := 128

  /** The lines of a file, read through a line buffer of `size` bytes, given the part of a line read
      so far. */
  function LinesFrom(text: string, line: string, size: nat): seq<string> {
    if text == "" then (if line == "" then [] else [CStr(line)])
    else if text[0] == '\r' then LinesFrom(text[1..], line, size)
    else if text[0] == '\n' then [CStr(line)] + LinesFrom(text[1..], "", size)
    else LinesFrom(text[1..], if |line| < size - 1 then line + [text[0]] else line, size)
  }

  function Lines(text: string): seq<string> {
    LinesFrom(text, "", LINE_IN)
  }

  /** The lines handed to the callback.  The source's reads of a few bytes at a time are not visible:
      the line in progress is carried from one to the next. */
  method EachLine(text: string, size: nat) returns (lines: seq<string>)
    ensures lines == LinesFrom(text, "", size)
  {
    lines := [];
    var line := "";
    for i := 0 to |text|
      invariant lines + LinesFrom(text[i..], line, size) == LinesFrom(text, "", size)
    {
      assert text[i..][1..] == text[i + 1..];
      if text[i] == '\r' { continue; }
      if text[i] != '\n' {
        if |line| < size - 1 { line := line + [text[i]]; }
        continue;
      }
      lines := lines + [CStr(line)];
      line := "";
    }
    if |line| > 0 {
      lines := lines + [CStr(line)];
    }
  }

  predicate PlainLine(l: string) {
    forall i :: 0 <= i < |l| ==> l[i] != '\r' && l[i] != '\n' && l[i] != NUL
  }

  lemma {:induction false} LinesOfLine(done: string, l: string, rest: string, size: nat)
    requires PlainLine(done + l) && |done| + |l| < size
    ensures LinesFrom(l + "\n" + rest, done, size) == [done + l] + LinesFrom(rest, "", size)
    decreases |l|
  {
    var text := l + "\n" + rest;
    if l == "" {
      assert done + l == done;
      CStrOfPlain(done);
      assert text[1..] == rest;
    } else {
      assert (done + [l[0]]) + l[1..] == done + l;
      assert text[1..] == l[1..] + "\n" + rest;
      assert text[0] == (done + l)[|done|];
      LinesOfLine(done + [l[0]], l[1..], rest, size);
    }
  }

  // ---- what the lines are --------------------------------------------------------------------

  function WithoutCr(text: string): string {
    if text == "" then "" else (if text[0] == '\r' then "" else [text[0]]) + WithoutCr(text[1..])
  }

  /** A text cut at its newlines; nothing after the last of them is no line. */
  function SplitLines(text: string): seq<string> {
    if text == "" then []
    else if text[0] == '\n' then [""] + SplitLines(text[1..])
    else
      var ls := SplitLines(text[1..]);
      if ls == [] then [[text[0]]] else [[text[0]] + ls[0]] + ls[1..]
  }

  function CutAll(ls: seq<string>, n: nat): (r: seq<string>)
    ensures |r| == |ls|
  {
    seq(|ls|, i requires 0 <= i < |ls| => Cut(ls[i], n))
  }

  lemma {:induction false} SplitFirst(line: string, text: string)
    requires '\n' !in line
    ensures SplitLines(line + "\n" + text) == [line] + SplitLines(text)
    ensures SplitLines(line) == if line == "" then [] else [line]
  {
    if line == "" {
      assert (line + "\n" + text)[1..] == text;
    } else {
      SplitFirst(line[1..], text);
      assert (line + "\n" + text)[1..] == line[1..] + "\n" + text;
      assert [line[0]] + line[1..] == line && line[0] != '\n';
      if line[1..] == "" { assert line == [line[0]]; }
    }
  }

  lemma CutAllCons(l: string, ls: seq<string>, n: nat)
    ensures CutAll([l] + ls, n) == [Cut(l, n)] + CutAll(ls, n) && CutAll([], n) == [] && CutAll([l], n) == [Cut(l, n)]
  {
  }

  /** Reading lines is cutting the text, its CRs dropped, at its newlines, and each line to the buffer. */
  lemma {:induction false} LinesAreSplit(text: string, line: string, size: nat)
    requires size >= 2 && NUL !in text && NUL !in line && '\n' !in line
    ensures LinesFrom(text, Cut(line, size - 1), size) == CutAll(SplitLines(line + WithoutCr(text)), size - 1)
    decreases |text|, 0
  {
    hide LinesFrom, SplitLines, Cut, CutAll, WithoutCr;
    LinesStep(text, Cut(line, size - 1), size);
    CutsPlain(line, size - 1);
    CrStep(text);
    if text == "" {
      SplitFirst(line, "");
      CutAllCons(line, [], size - 1);
      assert line + "" == line;
    } else if text[0] == '\r' {
      LinesAreSplit(text[1..], line, size);
    } else if text[0] == '\n' {
      LineEnds(text[1..], line, size);
    } else {
      LineGoesOn(text[0], text[1..], line, size);
    }
  }

  lemma {:induction false} LineEnds(text: string, line: string, size: nat)
    requires size >= 2 && NUL !in text && NUL !in line && '\n' !in line
    ensures [Cut(line, size - 1)] + LinesFrom(text, "", size)
         == CutAll(SplitLines(line + (['\n'] + WithoutCr(text))), size - 1)
    decreases |text|, 1
  {
    hide LinesFrom, SplitLines, Cut, CutAll, WithoutCr;
    var rest := WithoutCr(text);
    CutsPlain("", size - 1);
    LinesAreSplit(text, "", size);
    assert "" + rest == rest;
    SplitFirst(line, rest);
    CutAllCons(line, SplitLines(rest), size - 1);
    assert line + (['\n'] + rest) == line + "\n" + rest;
  }

  lemma {:induction false} LineGoesOn(c: char, text: string, line: string, size: nat)
    requires size >= 2 && NUL !in text && NUL !in line && '\n' !in line && c != NUL && c != '\n'
    ensures LinesFrom(text, if |Cut(line, size - 1)| < size - 1 then Cut(line, size - 1) + [c] else Cut(line, size - 1),
                      size)
         == CutAll(SplitLines(line + ([c] + WithoutCr(text))), size - 1)
    decreases |text|, 1
  {
    hide LinesFrom, SplitLines, Cut, CutAll, WithoutCr;
    LinesAreSplit(text, line + [c], size);
    CutsOneMore(line, c, size - 1);
    assert line + ([c] + WithoutCr(text)) == line + [c] + WithoutCr(text);
  }

  lemma CrStep(text: string)
    ensures WithoutCr(text) == if text == "" then "" else if text[0] == '\r' then WithoutCr(text[1..])
                               else [text[0]] + WithoutCr(text[1..])
  {
  }

  lemma LinesStep(text: string, line: string, size: nat)
    ensures LinesFrom(text, line, size) ==
            if text == "" then (if line == "" then [] else [CStr(line)])
            else if text[0] == '\r' then LinesFrom(text[1..], line, size)
            else if text[0] == '\n' then [CStr(line)] + LinesFrom(text[1..], "", size)
            else LinesFrom(text[1..], if |line| < size - 1 then line + [text[0]] else line, size)
  {
  }

  lemma CutsPlain(line: string, n: nat)
    requires NUL !in line && n > 0
    ensures CStr(Cut(line, n)) == Cut(line, n) && (Cut(line, n) == "" <==> line == "") && Cut("", n) == ""
  {
    CStrOfPlain(Cut(line, n));
  }

  lemma CutsOneMore(line: string, c: char, n: nat)
    ensures Cut(line + [c], n) == if |Cut(line, n)| < n then Cut(line, n) + [c] else Cut(line, n)
  {
  }
}
