/** Base64 both ways, RFC 4648 sections 4 and 5: apps/b64.h, lines 20-73. */
module Base64 {
  import opened Common
  import opened Division

  /** A uint32_t. */
  function Word(x: nat): nat { x % 0x1_0000_0000 }

  function EncodedLength(n: nat): nat { (n + 2) / 3 * 4 }

  // ---- encoding ----------------------------------------------------------------------------

  /** The letter for the low six bits of v. */
  function Letter(v: nat): char {
    var i := v % 64;
    if i < 26 then ('A' as int + i) as char
    else if i < 52 then ('a' as int + (i - 26)) as char
    else if i < 62 then ('0' as int + (i - 52)) as char
    else if i == 62 then '+' else '/'
  }

  /** One round of the encoder's loop: up to three bytes as four characters. */
  function Group(s: seq<Byte>): (t: string)
    requires 0 < |s|
    ensures |t| == 4
  {
    var v := Joined(s[0], if |s| > 1 then s[1] else 0, if |s| > 2 then s[2] else 0);
    [Letter(v / 0x4_0000), Letter(v / 0x1000),
     if |s| > 1 then Letter(v / 64) else '=', if |s| > 2 then Letter(v) else '=']
  }

  /** Three bytes side by side. */
  function Joined(a: int, b: int, c: int): (v: nat)
    requires 0 <= a < 0x100 && 0 <= b < 0x100 && 0 <= c < 0x100
    ensures v < 0x100_0000
  {
    a * 0x1_0000 + b * 0x100 + c
  }

  function Encode(s: seq<Byte>): (t: string)
    ensures |t| == EncodedLength(|s|)
  {
    hide Group, EncodedLength;
    LengthStep(|s|);
    if s == [] then "" else if |s| <= 3 then Group(s) else Group(s[..3]) + Encode(s[3..])
  }

  lemma LengthStep(n: nat)
    ensures EncodedLength(n) == if n == 0 then 0 else if n <= 3 then 4 else 4 + EncodedLength(n - 3)
  {
    if n > 3 { assert (n + 2) / 3 == 1 + (n - 1) / 3; }
  }

  /** b64_encode: the length, or -1 if it does not fit with its NUL. */
  method EncodeTo(input: seq<Byte>, out: array<char>) returns (k: int)
    modifies out
    ensures k == if out.Length < EncodedLength(|input|) + 1 then -1 else EncodedLength(|input|)
    ensures k >= 0 ==> out[..k] == Encode(input) && out[k] == '\0'
    ensures k < 0 ==> out[..] == old(out[..])
  {
    hide Group, EncodedLength, Encode;
    var n := |input|;
    if out.Length < EncodedLength(n) + 1 { return -1; }
    var i := 0;
    k := 0;
    assert input[0..] == input;
    while i < n
      invariant 0 <= i && 0 <= k
      invariant k + EncodedLength(n - Min(i, n)) == EncodedLength(n)
      invariant out[..k] + Encode(input[Min(i, n)..]) == Encode(input)
    {
      var piece := input[i..Min(i + 3, n)];
      LengthStep(n - i);
      LengthStep(0);
      EncodePiece(input, i);
      PutGroup(piece, out, k);
      k, i := k + 4, i + 3;
    }
    LengthStep(0);
    EncodeStep([]);
    out[k] := '\0';
  }

  method PutGroup(piece: seq<Byte>, out: array<char>, k: nat)
    requires piece != [] && k + 4 <= out.Length
    modifies out
    ensures out[..k + 4] == old(out[..k]) + Group(piece)
  {
    hide Group;
    ghost var done := out[..k];
    var t := Group(piece);
    out[k], out[k + 1], out[k + 2], out[k + 3] := t[0], t[1], t[2], t[3];
    assert out[..k + 4] == done + t;
  }

  lemma EncodePiece(input: seq<Byte>, i: nat)
    requires i < |input|
    ensures Encode(input[i..]) == Group(input[i..Min(i + 3, |input|)]) + Encode(input[Min(i + 3, |input|)..])
  {
    hide Group, Encode;
    var rest := input[i..];
    EncodeStep(rest);
    EncodeStep([]);
    if |rest| > 3 {
      assert rest[..3] == input[i..i + 3] && rest[3..] == input[i + 3..];
    } else {
      assert input[i..|input|] == rest && input[|input|..] == [] && Group(rest) + "" == Group(rest);
    }
  }

  function Min(a: nat, b: nat): nat { if a < b then a else b }

  lemma EncodeStep(s: seq<Byte>)
    ensures Encode(s) == if s == [] then "" else if |s| <= 3 then Group(s) else Group(s[..3]) + Encode(s[3..])
  {
    hide Group;
  }

  // ---- decoding ----------------------------------------------------------------------------

  function Val(c: char): (v: int)
    ensures -1 <= v < 64
  {
    if 'A' <= c <= 'Z' then c as int - 'A' as int
    else if 'a' <= c <= 'z' then c as int - 'a' as int + 26
    else if '0' <= c <= '9' then c as int - '0' as int + 52
    else if c == '+' || c == '-' then 62
    else if c == '/' || c == '_' then 63
    else -1
  }

  predicate Ends(c: char) { c == '\n' || c == '\t' || c == '\0' }
  predicate Skipped(c: char) { c == '\r' || c == ' ' || c == '=' }

  /** What the decoder has: its accumulator, how many bits of it are to come, the characters seen, the
      bytes out. */
  datatype State = State(acc: nat, bits: nat, seen: nat, out: seq<Byte>)

  predicate StateOk(s: State) { s.bits < 8 && s.bits % 2 == 0 }

  /** A value more, in an accumulator of 32 bits or, as a reader would do it by hand, of as many as it
      takes. */
  function Push(s: State, v: nat, wraps: bool): (r: State)
    requires StateOk(s) && v < 64
    ensures StateOk(r)
  {
    var wide := s.acc * 64 + v;
    var acc := if wraps then Word(wide) else wide;
    if s.bits + 6 >= 8 then State(acc, s.bits - 2, s.seen + 1, s.out + [acc / Pow2(s.bits - 2) % 0x100])
    else State(acc, s.bits + 6, s.seen + 1, s.out)
  }

  function Pow2(n: nat): (p: nat)
    ensures p > 0
  {
    if n == 0 then 1 else 2 * Pow2(n - 1)
  }

  function DecodeFrom(s: State, text: string, cap: nat, wraps: bool): Option<seq<Byte>>
    requires StateOk(s)
    decreases |text|
  {
    if text == "" || Ends(text[0]) then (if s.seen % 4 == 1 then None else Some(s.out))
    else if Skipped(text[0]) then DecodeFrom(s, text[1..], cap, wraps)
    else if Val(text[0]) < 0 then None
    else
      var r := Push(s, Val(text[0]), wraps);
      if |r.out| > |s.out| && |s.out| >= cap then None else DecodeFrom(r, text[1..], cap, wraps)
  }

  const START: State := State(0, 0, 0, [])

  /** b64_decode: the bytes, or None for its -1. */
  function Decode(text: string, cap: nat): Option<seq<Byte>> { DecodeFrom(START, text, cap, true) }

  /** The method writes its bytes as it goes, so on a failure some may have been written. */
  method DecodeTo(text: string, out: array<Byte>) returns (k: int)
    modifies out
    ensures var r := Decode(text, out.Length);
      if r.Some? then k == |r.value| <= out.Length && out[..k] == r.value else k == -1
  {
    hide Push, Val;
    var acc: nat, bits: nat, seen: nat, i: nat := 0, 0, 0, 0;
    k := 0;
    assert text[0..] == text && out[..0] == [];
    while i < |text| && !Ends(text[i])
      invariant 0 <= acc && 0 <= i <= |text| && 0 <= k <= out.Length && 0 <= bits && 0 <= seen
      invariant StateOk(State(acc, bits, seen, out[..k]))
      invariant DecodeFrom(State(acc, bits, seen, out[..k]), text[i..], out.Length, true) == Decode(text, out.Length)
      decreases |text| - i
    {
      assert text[i..][0] == text[i] && text[i..][1..] == text[i + 1..];
      var c := text[i];
      i := i + 1;
      if Skipped(c) { continue; }
      var v := Val(c);
      if v < 0 { return -1; }
      ghost var s := State(acc, bits, seen, out[..k]);
      PushIs(s, v);
      acc := Word(acc * 64 + v);
      bits, seen := bits + 6, seen + 1;
      if bits >= 8 {
        bits := bits - 8;
        if k >= out.Length { return -1; }
        out[k] := acc / Pow2(bits) % 0x100;
        assert out[..k + 1] == s.out + [out[k]];
        k := k + 1;
      }
    }
    assert i < |text| ==> text[i..][0] == text[i];
    if seen % 4 == 1 { return -1; }
  }

  lemma PushIs(s: State, v: nat)
    requires StateOk(s) && v < 64
    ensures var acc := Word(s.acc * 64 + v);
      Push(s, v, true)
      == if s.bits + 6 >= 8 then State(acc, s.bits - 2, s.seen + 1, s.out + [acc / Pow2(s.bits - 2) % 0x100])
                          else State(acc, s.bits + 6, s.seen + 1, s.out)
  {
  }

  // ---- the accumulator may wrap ------------------------------------------------------------

  /** Twelve bits of the accumulator are all that is ever looked at again. */
  predicate Alike(a: State, b: State) {
    a.bits == b.bits && a.seen == b.seen && a.out == b.out && a.acc % 4096 == b.acc % 4096
  }

  lemma LowBits(x: nat, v: nat)
    ensures (x * 64 + v) % 4096 == (x % 4096 * 64 + v) % 4096
    ensures Word(x) % 4096 == x % 4096
  {
    assert x == 4096 * (x / 4096) + x % 4096;
    assert x * 64 + v == 4096 * (x / 4096 * 64) + (x % 4096 * 64 + v);
    ModPlus(x % 4096 * 64 + v, x / 4096 * 64);
    var w, q := Word(x), x / 0x1_0000_0000;
    assert x == 4096 * (q * 0x10_0000) + w;
    ModPlus(w, q * 0x10_0000);
  }

  lemma ModPlus(x: nat, k: nat)
    ensures (4096 * k + x) % 4096 == x % 4096
  {
  }

  /** A byte is taken from the low twelve bits. */
  lemma ByteOfLow(x: nat, bits: nat)
    requires bits == 0 || bits == 2 || bits == 4
    ensures x / Pow2(bits) % 0x100 == x % 4096 / Pow2(bits) % 0x100
  {
    assert Pow2(2) == 4 && Pow2(4) == 16 && Pow2(0) == 1 by { assert Pow2(1) == 2 && Pow2(3) == 8; }
    if bits == 0 { ByteBy(x, 1, 16); } else if bits == 2 { ByteBy(x, 4, 4); } else { ByteBy(x, 16, 1); }
  }

  lemma ByteBy(x: nat, p: nat, m: nat)
    requires p > 0 && p * (m * 0x100) == 4096
    ensures x / p % 0x100 == x % 4096 / p % 0x100
  {
    var q, r := x / 4096, x % 4096;
    assert x == 4096 * q + r == p * (0x100 * (m * q)) + r;
    DivMod(r, p, r / p, r % p);
    assert x == p * (0x100 * (m * q) + r / p) + r % p;
    DivMod(x, p, 0x100 * (m * q) + r / p, r % p);
    ModOfMultiple(m * q, r / p);
  }

  lemma ModOfMultiple(k: int, y: int)
    ensures (0x100 * k + y) % 0x100 == y % 0x100
  {
    DivMod(y, 0x100, y / 0x100, y % 0x100);
    DivMod(0x100 * k + y, 0x100, k + y / 0x100, y % 0x100);
  }

  lemma PushAlike(a: State, b: State, v: nat)
    requires StateOk(a) && StateOk(b) && Alike(a, b) && v < 64
    ensures Alike(Push(a, v, true), Push(b, v, false))
  {
    hide Pow2;
    LowBits(a.acc, v);
    LowBits(b.acc, v);
    LowBits(a.acc * 64 + v, 0);
    if a.bits + 6 >= 8 {
      ByteOfLow(Word(a.acc * 64 + v), a.bits - 2);
      ByteOfLow(b.acc * 64 + v, a.bits - 2);
    }
  }

  lemma {:induction false} WrapsAlike(a: State, b: State, text: string, cap: nat)
    requires StateOk(a) && StateOk(b) && Alike(a, b)
    ensures DecodeFrom(a, text, cap, true) == DecodeFrom(b, text, cap, false)
    decreases |text|
  {
    hide Push, Val;
    if text == "" || Ends(text[0]) {
    } else if Skipped(text[0]) {
      WrapsAlike(a, b, text[1..], cap);
    } else if Val(text[0]) >= 0 {
      PushAlike(a, b, Val(text[0]));
      WrapsAlike(Push(a, Val(text[0]), true), Push(b, Val(text[0]), false), text[1..], cap);
    }
  }

  /** On any text at all the 32-bit accumulator gives what one that never wraps would. */
  lemma WrappingDoesNotMatter(text: string, cap: nat)
    ensures Decode(text, cap) == DecodeFrom(START, text, cap, false)
  {
    WrapsAlike(START, START, text, cap);
  }

  // ---- the round trip ----------------------------------------------------------------------

  lemma ValOfLetter(v: nat)
    ensures Val(Letter(v)) == v % 64 && !Ends(Letter(v)) && !Skipped(Letter(v))
  {
  }

  /** Values in a row, with no wrap. */
  lemma DecodeLetter(s: State, v: nat, rest: string, cap: nat)
    requires StateOk(s)
    ensures var r := Push(s, v % 64, false);
      DecodeFrom(s, [Letter(v)] + rest, cap, false)
      == if |r.out| > |s.out| && |s.out| >= cap then None else DecodeFrom(r, rest, cap, false)
  {
    hide Push, Letter, Val;
    ValOfLetter(v);
    assert ([Letter(v)] + rest)[1..] == rest;
  }

  lemma DecodePad(s: State, rest: string, cap: nat)
    requires StateOk(s)
    ensures DecodeFrom(s, "=" + rest, cap, false) == DecodeFrom(s, rest, cap, false)
  {
    assert ("=" + rest)[1..] == rest;
  }

  lemma Pushed(s: State, v: nat)
    requires StateOk(s) && v < 64
    ensures var acc := s.acc * 64 + v;
      (s.bits == 0 ==> Push(s, v, false) == State(acc, 6, s.seen + 1, s.out))
      && (s.bits == 6 ==> Push(s, v, false) == State(acc, 4, s.seen + 1, s.out + [acc / 16 % 0x100]))
      && (s.bits == 4 ==> Push(s, v, false) == State(acc, 2, s.seen + 1, s.out + [acc / 4 % 0x100]))
      && (s.bits == 2 ==> Push(s, v, false) == State(acc, 0, s.seen + 1, s.out + [acc % 0x100]))
  {
    assert Pow2(2) == 4 && Pow2(4) == 16 && Pow2(0) == 1 by { assert Pow2(1) == 2 && Pow2(3) == 8; }
  }

  /** The sextets of a group, put together: its bytes. */
  lemma Sextets(acc: nat, v: nat)
    requires v < 0x100_0000
    ensures var a1 := acc * 64 + v / 0x4_0000; var a2 := a1 * 64 + v / 0x1000 % 64;
      var a3 := a2 * 64 + v / 64 % 64; var a4 := a3 * 64 + v % 64;
      a2 / 16 % 0x100 == v / 0x1_0000 && a3 / 4 % 0x100 == v / 0x100 % 0x100 && a4 % 0x100 == v % 0x100
  {
    var w, x, y, z := v / 0x4_0000, v / 0x1000 % 64, v / 64 % 64, v % 64;
    FourSextets(v);
    Top(acc * 64 + w, x, acc, w);
    Middle(((acc * 64 + w) * 64 + x) * 64 + y, acc, w, x, y);
    Bottom(acc, w, x, y, z);
    BytesOf(v, w, x, y, z);
  }

  lemma BytesOf(v: nat, w: nat, x: nat, y: nat, z: nat)
    requires v == ((w * 64 + x) * 64 + y) * 64 + z && w < 64 && x < 64 && y < 64 && z < 64
    ensures v / 0x1_0000 == w * 4 + x / 16 && v / 0x100 % 0x100 == x % 16 * 16 + y / 4 && v % 0x100 == y % 4 * 64 + z
  {
    var hi, mid, lo := w * 4 + x / 16, x % 16 * 16 + y / 4, y % 4 * 64 + z;
    assert v == 0x1_0000 * hi + 0x100 * mid + lo;
    DivMod(v, 0x1_0000, hi, 0x100 * mid + lo);
    DivMod(v, 0x100, 0x100 * hi + mid, lo);
    DivMod(0x100 * hi + mid, 0x100, hi, mid);
  }

  lemma FourSextets(v: nat)
    ensures v == ((v / 0x4_0000 * 64 + v / 0x1000 % 64) * 64 + v / 64 % 64) * 64 + v % 64
  {
    var a := v / 64;
    var b := a / 64;
    var c := b / 64;
    assert v == 0x1000 * b + (64 * (a % 64) + v % 64);
    DivMod(v, 0x1000, b, 64 * (a % 64) + v % 64);
    assert v == 0x4_0000 * c + (0x1000 * (b % 64) + 64 * (a % 64) + v % 64);
    DivMod(v, 0x4_0000, c, 0x1000 * (b % 64) + 64 * (a % 64) + v % 64);
  }

  lemma Top(a1: nat, x: nat, acc: nat, w: nat)
    requires a1 == acc * 64 + w && x < 64 && w < 64
    ensures (a1 * 64 + x) / 16 % 0x100 == w * 4 + x / 16
  {
    DivMod(x, 16, x / 16, x % 16);
    DivMod(a1 * 64 + x, 16, 0x100 * acc + (w * 4 + x / 16), x % 16);
    DivMod(0x100 * acc + (w * 4 + x / 16), 0x100, acc, w * 4 + x / 16);
  }

  lemma Middle(a3: nat, acc: nat, w: nat, x: nat, y: nat)
    requires a3 == ((acc * 64 + w) * 64 + x) * 64 + y && x < 64 && y < 64 && w < 64
    ensures a3 / 4 % 0x100 == x % 16 * 16 + y / 4
  {
    var hi := 4 * (acc * 64 + w) + x / 16;
    DivMod(x, 16, x / 16, x % 16);
    DivMod(y, 4, y / 4, y % 4);
    assert a3 == 4 * (0x100 * hi + (x % 16 * 16 + y / 4)) + y % 4;
    DivMod(a3, 4, 0x100 * hi + (x % 16 * 16 + y / 4), y % 4);
    DivMod(0x100 * hi + (x % 16 * 16 + y / 4), 0x100, hi, x % 16 * 16 + y / 4);
  }

  lemma Bottom(acc: nat, w: nat, x: nat, y: nat, z: nat)
    requires z < 64 && y < 64
    ensures ((((acc * 64 + w) * 64 + x) * 64 + y) * 64 + z) % 0x100 == y % 4 * 64 + z
  {
    var a2 := (acc * 64 + w) * 64 + x;
    DivMod(y, 4, y / 4, y % 4);
    assert (a2 * 64 + y) * 64 + z == 0x100 * (a2 * 16 + y / 4) + (y % 4 * 64 + z);
    DivMod((a2 * 64 + y) * 64 + z, 0x100, a2 * 16 + y / 4, y % 4 * 64 + z);
  }

  // ---- the group, and the whole ------------------------------------------------------------

  /** The first two letters of a group: its first byte. */
  lemma TwoLetters(s: State, v: nat, rest: string, cap: nat) returns (r: State)
    requires s.bits == 0 && v < 0x100_0000
    ensures r == State((s.acc * 64 + v / 0x4_0000) * 64 + v / 0x1000 % 64, 4, s.seen + 2, s.out + [v / 0x1_0000])
    ensures DecodeFrom(s, [Letter(v / 0x4_0000)] + ([Letter(v / 0x1000)] + rest), cap, false)
         == if |s.out| < cap then DecodeFrom(r, rest, cap, false) else None
  {
    hide Push, Letter, DecodeFrom;
    assert v / 0x4_0000 % 64 == v / 0x4_0000;
    Sextets(s.acc, v);
    var s1 := State(s.acc * 64 + v / 0x4_0000, 6, s.seen + 1, s.out);
    r := State(s1.acc * 64 + v / 0x1000 % 64, 4, s.seen + 2, s.out + [v / 0x1_0000]);
    Pushed(s, v / 0x4_0000);
    Pushed(s1, v / 0x1000 % 64);
    DecodeLetter(s, v / 0x4_0000, [Letter(v / 0x1000)] + rest, cap);
    DecodeLetter(s1, v / 0x1000, rest, cap);
  }

  lemma ThirdLetter(s: State, acc: nat, v: nat, rest: string, cap: nat) returns (r: State)
    requires s.bits == 4 && v < 0x100_0000 && s.acc == (acc * 64 + v / 0x4_0000) * 64 + v / 0x1000 % 64
    ensures r == State(s.acc * 64 + v / 64 % 64, 2, s.seen + 1, s.out + [v / 0x100 % 0x100])
    ensures DecodeFrom(s, [Letter(v / 64)] + rest, cap, false)
         == if |s.out| < cap then DecodeFrom(r, rest, cap, false) else None
  {
    hide Push, Letter, DecodeFrom;
    Sextets(acc, v);
    r := State(s.acc * 64 + v / 64 % 64, 2, s.seen + 1, s.out + [v / 0x100 % 0x100]);
    Pushed(s, v / 64 % 64);
    DecodeLetter(s, v / 64, rest, cap);
  }

  lemma FourthLetter(s: State, acc: nat, v: nat, rest: string, cap: nat) returns (r: State)
    requires s.bits == 2 && v < 0x100_0000
    requires s.acc == ((acc * 64 + v / 0x4_0000) * 64 + v / 0x1000 % 64) * 64 + v / 64 % 64
    ensures r.bits == 0 && r.seen == s.seen + 1 && r.out == s.out + [v % 0x100]
    ensures DecodeFrom(s, [Letter(v)] + rest, cap, false)
         == if |s.out| < cap then DecodeFrom(r, rest, cap, false) else None
  {
    hide Push, Letter, DecodeFrom;
    Sextets(acc, v);
    r := State(s.acc * 64 + v % 64, 0, s.seen + 1, s.out + [v % 0x100]);
    Pushed(s, v % 64);
    DecodeLetter(s, v, rest, cap);
  }

  /** A group, from any accumulator with no bits to come: its bytes, if there is room for them. */
  lemma GroupComesBack(s: State, g: seq<Byte>, rest: string, cap: nat) returns (r: State)
    requires 1 <= |g| <= 3 && s.bits == 0
    ensures StateOk(r) && r.out == s.out + g && r.seen == s.seen + |g| + 1 && (|g| == 3 ==> r.bits == 0)
    ensures DecodeFrom(s, Group(g) + rest, cap, false)
         == if |s.out| + |g| <= cap then DecodeFrom(r, rest, cap, false) else None
  {
    hide Push, Letter, DecodeFrom, Joined, Group;
    var b, c := if |g| > 1 then g[1] else 0, if |g| > 2 then g[2] else 0;
    var v := Joined(g[0], b, c);
    JoinedBytes(g[0], b, c);
    GroupIs(g, rest);
    var last := (if |g| > 2 then [Letter(v)] else "=") + rest;
    var tail := (if |g| > 1 then [Letter(v / 64)] else "=") + last;
    r := TwoLetters(s, v, tail, cap);
    if |g| == 1 {
      DecodePad(r, last, cap);
      DecodePad(r, rest, cap);
      assert s.out + [g[0]] == s.out + g;
    } else {
      r := ThirdLetter(r, s.acc, v, last, cap);
      if |g| == 2 {
        DecodePad(r, rest, cap);
        assert s.out + [g[0]] + [g[1]] == s.out + g;
      } else {
        r := FourthLetter(r, s.acc, v, rest, cap);
        assert s.out + [g[0]] + [g[1]] + [g[2]] == s.out + g;
      }
    }
  }

  lemma JoinedBytes(a: Byte, b: Byte, c: Byte)
    ensures var v := Joined(a, b, c); v / 0x1_0000 == a && v / 0x100 % 0x100 == b && v % 0x100 == c
  {
    var v := Joined(a, b, c);
    DivMod(v, 0x1_0000, a, b * 0x100 + c);
    DivMod(v, 0x100, a * 0x100 + b, c);
    DivMod(a * 0x100 + b, 0x100, a, b);
  }

  lemma GroupIs(g: seq<Byte>, rest: string)
    requires 1 <= |g| <= 3
    ensures var v := Joined(g[0], if |g| > 1 then g[1] else 0, if |g| > 2 then g[2] else 0);
      Group(g) + rest
      == [Letter(v / 0x4_0000)] + ([Letter(v / 0x1000)]
         + ((if |g| > 1 then [Letter(v / 64)] else "=") + ((if |g| > 2 then [Letter(v)] else "=") + rest)))
  {
    hide Letter, Joined;
  }

  lemma {:induction false} AllComesBack(st: State, s: seq<Byte>, tail: string, cap: nat)
    requires st.bits == 0 && st.seen % 4 == 0 && (tail == "" || Ends(tail[0]))
    ensures DecodeFrom(st, Encode(s) + tail, cap, false)
         == if |st.out| + |s| <= cap || s == [] then Some(st.out + s) else None
    decreases |s|
  {
    hide Push, Group, Encode, DecodeFrom;
    EncodeStep(s);
    if s == [] {
      assert "" + tail == tail && st.out + s == st.out;
      AtTheEnd(st, tail, cap);
    } else if |s| <= 3 {
      var r := GroupComesBack(st, s, tail, cap);
      AtTheEnd(r, tail, cap);
    } else {
      var more := Encode(s[3..]) + tail;
      assert Encode(s) + tail == Group(s[..3]) + more;
      var r := GroupComesBack(st, s[..3], more, cap);
      AllComesBack(r, s[3..], tail, cap);
      assert st.out + s[..3] + s[3..] == st.out + s;
    }
  }

  lemma AtTheEnd(s: State, tail: string, cap: nat)
    requires StateOk(s) && (tail == "" || Ends(tail[0])) && s.seen % 4 != 1
    ensures DecodeFrom(s, tail, cap, false) == Some(s.out)
  {
  }

  /** Every byte sequence comes back from its base64, up to the end of its line, exactly when there is
      room for it. */
  lemma BytesComeBack(s: seq<Byte>, tail: string, cap: nat)
    requires tail == "" || Ends(tail[0])
    ensures Decode(Encode(s) + tail, cap) == Some(s) <==> |s| <= cap
  {
    WrappingDoesNotMatter(Encode(s) + tail, cap);
    AllComesBack(START, s, tail, cap);
    assert [] + s == s;
  }

  // ---- the other alphabet ------------------------------------------------------------------

  /** The same in the URL and filename safe alphabet. */
  function UrlSafe(t: string): (u: string)
    ensures |u| == |t|
  {
    seq(|t|, i requires 0 <= i < |t| => if t[i] == '+' then '-' else if t[i] == '/' then '_' else t[i])
  }

  lemma {:induction false} SafeLettersToo(s: State, t: string, cap: nat, wraps: bool)
    requires StateOk(s)
    ensures DecodeFrom(s, UrlSafe(t), cap, wraps) == DecodeFrom(s, t, cap, wraps)
    decreases |t|
  {
    hide Push;
    if t != "" {
      assert UrlSafe(t)[1..] == UrlSafe(t[1..]);
      if !Ends(t[0]) && Skipped(t[0]) {
        SafeLettersToo(s, t[1..], cap, wraps);
      } else if !Ends(t[0]) && Val(t[0]) >= 0 {
        SafeLettersToo(Push(s, Val(t[0]), wraps), t[1..], cap, wraps);
      }
    }
  }
}
