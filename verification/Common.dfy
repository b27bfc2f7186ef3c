/** What several of the modules use: an optional value, a byte, and the characters of a number or a
    name. */
module Common {

  datatype Option<+T> = None | Some(value: T)

  type Byte = x: int | 0 <= x < 0x100

  const NUL: char := '\0'

  predicate IsDigit(c: char) { '0' <= c <= '9' }

  predicate AllDigits(s: string) {
    forall i :: 0 <= i < |s| ==> IsDigit(s[i])
  }

  function DigitVal(c: char): nat
    requires IsDigit(c)
  {
    c as int - '0' as int
  }

  function Lower(c: char): char {
    if 'A' <= c <= 'Z' then (c as int + 32) as char else c
  }

  // ---- the letters and digits, one by one --------------------------------------------------

  const CAPITALS: string := "ABCDEFGHIJKLMNOPQRSTUVWXYZ"
  const SMALLS: string := "abcdefghijklmnopqrstuvwxyz"
  const DIGITS: string := "0123456789"

  lemma CapitalAt(i: nat)
    requires i < 26
    ensures |CAPITALS| == 26 && CAPITALS[i] as int == 'A' as int + i
  {
  }

  lemma SmallAt(i: nat)
    requires i < 26
    ensures |SMALLS| == 26 && SMALLS[i] as int == 'a' as int + i
  {
  }

  lemma DigitAt(i: nat)
    requires i < 10
    ensures |DIGITS| == 10 && DIGITS[i] as int == '0' as int + i
  {
  }

  lemma CapitalsAre(c: char)
    ensures c in CAPITALS <==> 'A' <= c <= 'Z'
  {
    hide CAPITALS;
    CapitalAt(0);
    if 'A' <= c <= 'Z' { CapitalAt(c as int - 'A' as int); }
    forall i | 0 <= i < |CAPITALS| ensures 'A' <= CAPITALS[i] <= 'Z' { CapitalAt(i); }
  }

  lemma SmallsAre(c: char)
    ensures c in SMALLS <==> 'a' <= c <= 'z'
  {
    hide SMALLS;
    SmallAt(0);
    if 'a' <= c <= 'z' { SmallAt(c as int - 'a' as int); }
    forall i | 0 <= i < |SMALLS| ensures 'a' <= SMALLS[i] <= 'z' { SmallAt(i); }
  }

  lemma DigitsAre(c: char)
    ensures c in DIGITS <==> IsDigit(c)
  {
    hide DIGITS;
    DigitAt(0);
    if IsDigit(c) { DigitAt(c as int - '0' as int); }
    forall i | 0 <= i < |DIGITS| ensures IsDigit(DIGITS[i]) { DigitAt(i); }
  }

  // ---- numbers -----------------------------------------------------------------------------

  function Pow10(n: nat): (p: nat)
    ensures p > 0
  {
    if n == 0 then 1 else 10 * Pow10(n - 1)
  }

  lemma {:induction false} Pow10Grows(a: nat, b: nat)
    requires a <= b
    ensures Pow10(a) <= Pow10(b)
    decreases b
  {
    if a < b { Pow10Grows(a, b - 1); }
  }

  /** The value of a run of digits. */
  function Value(s: string): nat
    requires AllDigits(s)
  {
    if s == "" then 0 else Value(s[..|s| - 1]) * 10 + DigitVal(s[|s| - 1])
  }
}
