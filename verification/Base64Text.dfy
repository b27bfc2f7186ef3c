/** What text the encoder writes: RFC 4648, sections 3.5 and 4; apps/b64.h, lines 20-41. */
module Base64Text {
  import opened Common
  import opened Division
  import opened Base64

  /** The alphabet of section 4, by value. */
  const ALPHABET: string := CAPITALS + SMALLS + DIGITS + "+/"

  /** The letters whose last four bits are zero, and those whose last two are. */
  const SIXTEENTHS: string := "AQgw"
  const FOURTHS: string := "AEIMQUYcgkosw048"

  lemma LetterInAlphabet(i: nat)
    requires i < 64
    ensures |ALPHABET| == 64 && Letter(i) == ALPHABET[i]
  {
    hide CAPITALS, SMALLS, DIGITS;
    CapitalAt(if i < 26 then i else 0);
    SmallAt(if 26 <= i < 52 then i - 26 else 0);
    DigitAt(if 52 <= i < 62 then i - 52 else 0);
  }

  // ---- character by character ------------------------------------------------------------------

  /** The sextets of three bytes. */
  function Sextet(a: Byte, b: Byte, c: Byte, r: nat): (v: nat)
    requires r < 4
    ensures v < 64
  {
    if r == 0 then a / 4
    else if r == 1 then a % 4 * 16 + b / 16
    else if r == 2 then b % 16 * 4 + c / 64
    else c % 64
  }

  lemma SextetsOf(a: Byte, b: Byte, c: Byte)
    ensures var v := Joined(a, b, c);
      v / 0x4_0000 % 64 == Sextet(a, b, c, 0) && v / 0x1000 % 64 == Sextet(a, b, c, 1)
      && v / 64 % 64 == Sextet(a, b, c, 2) && v % 64 == Sextet(a, b, c, 3)
  {
    var v := Joined(a, b, c);
    var w, x, y, z := a / 4, a % 4 * 16 + b / 16, b % 16 * 4 + c / 64, c % 64;
    assert v == 0x4_0000 * w + 0x1000 * x + 64 * y + z;
    DivMod(v, 0x4_0000, w, 0x1000 * x + 64 * y + z);
    DivMod(v, 0x1000, 64 * w + x, 64 * y + z);
    DivMod(v, 64, 0x1000 * w + 64 * x + y, z);
    DivMod(64 * w + x, 64, w, x);
    DivMod(0x1000 * w + 64 * x + y, 64, 64 * w + x, y);
  }

  /** Byte i, and zeros after the last. */
  function At(s: seq<Byte>, i: nat): Byte { if i < |s| then s[i] else 0 }

  /** The letter a place of the text holds: the next six bits of the bytes, by the alphabet. */
  function TextAt(s: seq<Byte>, g: nat, r: nat): char
    requires r < 4
  {
    if 3 * g + r > |s| then '=' else
    ALPHABET[Sextet(At(s, 3 * g), At(s, 3 * g + 1), At(s, 3 * g + 2), r)]
  }

  lemma LetterOf(v: nat)
    ensures Letter(v) == ALPHABET[v % 64]
  {
    hide ALPHABET;
    LetterInAlphabet(v % 64);
  }

  lemma GroupByTable(s: seq<Byte>, r: nat)
    requires 0 < |s| <= 3 && r < 4
    ensures Group(s)[r] == TextAt(s, 0, r)
  {
    hide ALPHABET, Letter;
    var v := Joined(s[0], At(s, 1), At(s, 2));
    SextetsOf(s[0], At(s, 1), At(s, 2));
    LetterOf(v / 0x4_0000);
    LetterOf(v / 0x1000);
    LetterOf(v / 64);
    LetterOf(v);
  }

  /** Every character of the text, by the alphabet of section 4. */
  lemma {:induction false} EncodesByTable(s: seq<Byte>, g: nat, r: nat)
    requires r < 4 && 3 * g < |s|
    ensures 4 * g + r < |Encode(s)| && Encode(s)[4 * g + r] == TextAt(s, g, r)
    decreases |s|
  {
    hide Group, Letter, Encode, ALPHABET, Sextet;
    EncodeStep(s);
    LengthStep(|s|);
    if |s| <= 3 {
      GroupByTable(s, r);
    } else if g == 0 {
      GroupByTable(s[..3], r);
    } else {
      EncodesByTable(s[3..], g - 1, r);
    }
  }

  // ---- exactly the encodings -------------------------------------------------------------------

  predicate Letters(t: string) { forall i :: 0 <= i < |t| ==> t[i] in ALPHABET }

  /** Fours of letters, of which the last may end in one or two signs of padding, and the bits before them
      that stand for no byte are zero: section 3.5. */
  predicate IsEncoding(t: string) {
    |t| % 4 == 0
    && (t != "" ==>
          Letters(t)
          || (Letters(t[..|t| - 2]) && t[|t| - 2] in FOURTHS && t[|t| - 1] == '=')
          || (Letters(t[..|t| - 3]) && t[|t| - 3] in SIXTEENTHS && t[|t| - 2] == '=' && t[|t| - 1] == '='))
  }

  lemma LetterIn(v: nat)
    requires v < 64
    ensures ALPHABET[v] in ALPHABET
  {
    LetterInAlphabet(v);
  }

  lemma Fourths(k: nat)
    requires k < 16
    ensures FOURTHS[k] == ALPHABET[4 * k]
  {
    hide ALPHABET;
    LetterInAlphabet(4 * k);
  }

  lemma Sixteenths(k: nat)
    requires k < 4
    ensures SIXTEENTHS[k] == ALPHABET[16 * k]
  {
    hide ALPHABET;
    LetterInAlphabet(16 * k);
  }

  /** The encoding of up to three bytes. */
  lemma GroupIsEncoding(s: seq<Byte>)
    requires 0 < |s| <= 3
    ensures IsEncoding(Group(s)) && (|s| == 3 ==> Letters(Group(s)))
  {
    hide Group, ALPHABET, SIXTEENTHS, FOURTHS, Sextet;
    var t := Group(s);
    forall r | 0 <= r < 4 ensures t[r] == TextAt(s, 0, r) && (r <= |s| ==> t[r] in ALPHABET) {
      GroupByTable(s, r);
      LetterIn(Sextet(At(s, 0), At(s, 1), At(s, 2), r));
    }
    if |s| == 1 {
      LastBits(s[0], 0);
    } else if |s| == 2 {
      LastBits(s[0], s[1]);
    }
  }

  lemma LastBits(a: Byte, b: Byte)
    ensures ALPHABET[Sextet(a, 0, 0, 1)] in SIXTEENTHS && ALPHABET[Sextet(a, b, 0, 2)] in FOURTHS
  {
    hide ALPHABET;
    Sixteenths(a % 4);
    Fourths(b % 16);
    assert |SIXTEENTHS| == 4 && |FOURTHS| == 16;
  }

  lemma LettersBefore(x: string, t: string)
    requires |x| == 4 && Letters(x) && IsEncoding(t) && t != ""
    ensures IsEncoding(x + t)
  {
    hide ALPHABET, SIXTEENTHS, FOURTHS;
    var u := x + t;
    assert |t| >= 4;
    assert u[..|u| - 2] == x + t[..|t| - 2] && u[..|u| - 3] == x + t[..|t| - 3];
  }

  lemma {:induction false} WritesEncodings(s: seq<Byte>)
    ensures IsEncoding(Encode(s))
    decreases |s|
  {
    hide Group, Encode, IsEncoding, Letters;
    EncodeStep(s);
    if s == [] {
      NothingIsEncoding();
    } else if |s| <= 3 {
      GroupIsEncoding(s);
    } else {
      WritesEncodings(s[3..]);
      GroupIsEncoding(s[..3]);
      LengthStep(|s[3..]|);
      LettersBefore(Group(s[..3]), Encode(s[3..]));
    }
  }

  lemma NothingIsEncoding()
    ensures IsEncoding("")
  {
  }

  lemma Place(c: char) returns (v: nat)
    requires c in ALPHABET
    ensures v < 64 && ALPHABET[v] == c
  {
    LetterInAlphabet(0);
    v :| v < |ALPHABET| && ALPHABET[v] == c;
  }

  lemma InFourths(c: char) returns (v: nat)
    requires c in FOURTHS
    ensures v < 64 && v % 4 == 0 && ALPHABET[v] == c
  {
    hide ALPHABET;
    var k :| 0 <= k < |FOURTHS| && FOURTHS[k] == c;
    Fourths(k);
    v := 4 * k;
  }

  lemma InSixteenths(c: char) returns (v: nat)
    requires c in SIXTEENTHS
    ensures v < 64 && v % 16 == 0 && ALPHABET[v] == c
  {
    hide ALPHABET;
    var k :| 0 <= k < |SIXTEENTHS| && SIXTEENTHS[k] == c;
    Sixteenths(k);
    v := 16 * k;
  }

  /** The bytes four sextets stand for. */
  lemma FromSextets(w: nat, x: nat, y: nat, z: nat) returns (a: Byte, b: Byte, c: Byte)
    requires w < 64 && x < 64 && y < 64 && z < 64
    ensures Sextet(a, b, c, 0) == w && Sextet(a, b, c, 1) == x && Sextet(a, b, c, 2) == y && Sextet(a, b, c, 3) == z
    ensures (z == 0 && y % 4 == 0 ==> c == 0) && (z == 0 && y == 0 && x % 16 == 0 ==> b == 0)
  {
    a, b, c := w * 4 + x / 16, x % 16 * 16 + y / 4, y % 4 * 64 + z;
  }

  lemma GroupOf(t: string) returns (s: seq<Byte>)
    requires IsEncoding(t) && |t| == 4
    ensures 0 < |s| <= 3 && Group(s) == t && (Letters(t) ==> |s| == 3)
  {
    hide Group, ALPHABET, SIXTEENTHS, FOURTHS, Sextet;
    NoSign();
    var w, x, y, z: nat := 0, 0, 0, 0;
    w := Place(t[0]);
    if t[3] != '=' {
      x := Place(t[1]);
      y := Place(t[2]);
      z := Place(t[3]);
    } else if t[2] != '=' {
      x := Place(t[1]);
      y := InFourths(t[2]);
    } else {
      x := InSixteenths(t[1]);
    }
    var a, b, c := FromSextets(w, x, y, z);
    s := if t[3] != '=' then [a, b, c] else if t[2] != '=' then [a, b] else [a];
    forall r | 0 <= r < 4 ensures Group(s)[r] == t[r] { GroupByTable(s, r); }
  }

  lemma NoSign()
    ensures '=' !in ALPHABET && '=' !in FOURTHS && |SIXTEENTHS| == 4
  {
    hide ALPHABET;
    forall i | 0 <= i < |ALPHABET| ensures ALPHABET[i] != '=' { AlphabetSize(); LetterInAlphabet(i); }
  }

  lemma AlphabetSize()
    ensures |ALPHABET| == 64
  {
    LetterInAlphabet(0);
  }

  lemma {:induction false} ReadsEncodings(t: string) returns (s: seq<Byte>)
    requires IsEncoding(t)
    ensures Encode(s) == t
    decreases |t|
  {
    hide Group, Encode, ALPHABET, SIXTEENTHS, FOURTHS;
    if t == "" {
      s := [];
      EncodeStep(s);
    } else if |t| == 4 {
      s := GroupOf(t);
      EncodeStep(s);
    } else {
      RestIsEncoding(t);
      var head := GroupOf(t[..4]);
      var rest := ReadsEncodings(t[4..]);
      s := head + rest;
      assert s[..3] == head && s[3..] == rest && t == t[..4] + t[4..];
      EncodeStep([]);
      EncodeStep(s);
    }
  }

  lemma RestIsEncoding(t: string)
    requires IsEncoding(t) && |t| > 4
    ensures IsEncoding(t[..4]) && Letters(t[..4]) && IsEncoding(t[4..])
  {
    hide ALPHABET, SIXTEENTHS, FOURTHS, Letters, IsEncoding;
    var pads := Ending(t);
    LettersParts(t, |t| - pads);
    var u := t[4..];
    assert |u| == |t| - 4 && |t| - pads - 4 == |u| - pads;
    EndsSo(u, pads);
  }

  /** How many characters of the last four are not letters alone: none, or the last two or three. */
  function Ending(t: string): (pads: nat)
    requires IsEncoding(t) && |t| > 4
    ensures |t| >= 8 && |t| % 4 == 0 && pads <= 3 && Letters(t[..|t| - pads])
    ensures pads == 0
            || (pads == 2 && t[|t| - 2] in FOURTHS && t[|t| - 1] == '=')
            || (pads == 3 && t[|t| - 3] in SIXTEENTHS && t[|t| - 2] == '=' && t[|t| - 1] == '=')
  {
    hide ALPHABET, SIXTEENTHS, FOURTHS;
    assert t[..|t|] == t;
    if Letters(t) then 0 else if Letters(t[..|t| - 2]) && t[|t| - 2] in FOURTHS && t[|t| - 1] == '=' then 2 else 3
  }

  lemma EndsSo(u: string, pads: nat)
    requires |u| >= 4 && |u| % 4 == 0 && pads <= 3 && Letters(u[..|u| - pads])
    requires pads == 0
             || (pads == 2 && u[|u| - 2] in FOURTHS && u[|u| - 1] == '=')
             || (pads == 3 && u[|u| - 3] in SIXTEENTHS && u[|u| - 2] == '=' && u[|u| - 1] == '=')
    ensures IsEncoding(u)
  {
    hide ALPHABET, SIXTEENTHS, FOURTHS;
    assert u[..|u|] == u;
  }

  lemma LettersParts(t: string, n: nat)
    requires 4 <= n <= |t| && Letters(t[..n])
    ensures Letters(t[..4]) && Letters(t[4..][..n - 4]) && IsEncoding(t[..4])
  {
    hide ALPHABET, SIXTEENTHS, FOURTHS;
    var a, b, c := t[..n], t[..4], t[4..][..n - 4];
    forall i | 0 <= i < 4 ensures b[i] in ALPHABET { assert b[i] == a[i]; }
    forall i | 0 <= i < n - 4 ensures c[i] in ALPHABET { assert c[i] == a[i + 4]; }
  }

  /** A text is what some bytes encode to if and only if it is such a text. */
  lemma EncodingsExactly(t: string)
    ensures (exists s: seq<Byte> :: Encode(s) == t) <==> IsEncoding(t)
  {
    hide Encode, IsEncoding;
    if IsEncoding(t) { var s := ReadsEncodings(t); }
    forall s: seq<Byte> | Encode(s) == t ensures IsEncoding(t) { WritesEncodings(s); }
  }

  /** How many signs of padding a text ends in: as the bytes left over say. */
  lemma PaddingIs(s: seq<Byte>)
    ensures var t, n := Encode(s), |s|; var pad := if n % 3 == 0 then 0 else 3 - n % 3;
      |t| >= pad && forall i :: 0 <= i < |t| ==> if i < |t| - pad then t[i] in ALPHABET else t[i] == '='
  {
    hide Encode, ALPHABET, EncodedLength;
    var t := Encode(s);
    forall i | 0 <= i < |t|
      ensures t[i] in ALPHABET || t[i] == '='
      ensures t[i] in ALPHABET <==> i < |t| - (if |s| % 3 == 0 then 0 else 3 - |s| % 3)
    {
      PadPlace(|s|, i);
      PlaceIs(s, i / 4, i % 4);
      NoSign();
    }
    PadFits(|s|);
  }

  lemma PadFits(n: nat)
    ensures EncodedLength(n) >= if n % 3 == 0 then 0 else 3 - n % 3
  {
  }

  lemma PadPlace(n: nat, i: nat)
    requires i < EncodedLength(n)
    ensures 3 * (i / 4) < n && i == 4 * (i / 4) + i % 4
    ensures 3 * (i / 4) + i % 4 <= n <==> i < EncodedLength(n) - (if n % 3 == 0 then 0 else 3 - n % 3)
  {
    var g, r := i / 4, i % 4;
    assert i == 4 * g + r && r < 4;
    var q := (n + 2) / 3;
    assert 3 * q <= n + 2 < 3 * q + 3 && 4 * g + r < 4 * q;
  }

  lemma PlaceIs(s: seq<Byte>, g: nat, r: nat)
    requires r < 4 && 3 * g < |s|
    ensures 4 * g + r < |Encode(s)|
    ensures if 3 * g + r <= |s| then Encode(s)[4 * g + r] in ALPHABET else Encode(s)[4 * g + r] == '='
  {
    hide Encode, ALPHABET, Sextet;
    EncodesByTable(s, g, r);
    LetterIn(Sextet(At(s, 3 * g), At(s, 3 * g + 1), At(s, 3 * g + 2), r));
  }

  /** Three bytes of ones are four strokes, and one of them leaves two signs of padding. */
  lemma Ones()
    ensures Encode([255, 255, 255]) == "////" && Encode([255]) == "/w=="
  {
    hide ALPHABET, CAPITALS, SMALLS, DIGITS;
    EncodeStep([255, 255, 255]);
    EncodeStep([255]);
    assert Joined(255, 255, 255) == 0xFF_FFFF && Joined(255, 0, 0) == 0xFF_0000;
    assert Group([255, 255, 255]) == "////" && Group([255]) == "/w==";
  }

  // ---- what the decoder takes ------------------------------------------------------------------

  /** The characters of a line, up to its end, without the blanks and padding. */
  function Kept(text: string): string {
    if text == "" || text[0] in "\n\t\0" then ""
    else (if text[0] in "\r =" then "" else [text[0]]) + Kept(text[1..])
  }

  lemma {:induction false} DecodesTheKept(s: State, text: string, cap: nat, wraps: bool)
    requires StateOk(s)
    ensures DecodeFrom(s, text, cap, wraps) == DecodeFrom(s, Kept(text), cap, wraps)
    decreases |text|
  {
    hide Push, Val;
    if text != "" && text[0] !in "\n\t\0" {
      var rest := text[1..];
      if text[0] in "\r =" {
        assert "" + Kept(rest) == Kept(rest);
        DecodesTheKept(s, rest, cap, wraps);
      } else {
        assert ([text[0]] + Kept(rest))[1..] == Kept(rest);
        if Val(text[0]) >= 0 { DecodesTheKept(Push(s, Val(text[0]), wraps), rest, cap, wraps); }
      }
    }
  }

  /** A letter of either alphabet. */
  predicate Known(c: char) { c in ALPHABET || c == '-' || c == '_' }

  lemma ValKnown(c: char)
    ensures Val(c) >= 0 <==> Known(c)
  {
    hide ALPHABET;
    AlphabetSize();
    if Val(c) >= 0 && c != '-' && c != '_' {
      LetterInAlphabet(Val(c));
      assert c == Letter(Val(c));
    }
    forall i | 0 <= i < |ALPHABET| ensures Val(ALPHABET[i]) >= 0 { LetterInAlphabet(i); }
  }

  lemma {:induction false} FailsFrom(s: State, t: string, cap: nat)
    requires StateOk(s) && 6 * s.seen == 8 * |s.out| + s.bits && |s.out| <= cap
    requires forall i :: 0 <= i < |t| ==> t[i] !in "\n\t\0\r ="
    ensures DecodeFrom(s, t, cap, false) == None
       <==> (exists i :: 0 <= i < |t| && !Known(t[i])) || (s.seen + |t|) % 4 == 1 || 6 * (s.seen + |t|) / 8 > cap
    decreases |t|
  {
    hide ALPHABET, Val;
    if t != "" {
      ValKnown(t[0]);
      if Known(t[0]) {
        var r := Push(s, Val(t[0]), false);
        if |r.out| <= |s.out| || |s.out| < cap {
          FailsFrom(r, t[1..], cap);
          Unknown(t);
        }
      }
    }
  }

  lemma Unknown(t: string)
    requires t != "" && Known(t[0])
    ensures (exists i :: 0 <= i < |t| && !Known(t[i])) <==> exists i :: 0 <= i < |t[1..]| && !Known(t[1..][i])
  {
    hide Known;
    if i :| 0 <= i < |t| && !Known(t[i]) { assert t[1..][i - 1] == t[i]; }
  }

  lemma {:induction false} KeptIsPlain(text: string)
    ensures forall i :: 0 <= i < |Kept(text)| ==> Kept(text)[i] !in "\n\t\0\r ="
  {
    if text != "" { KeptIsPlain(text[1..]); }
  }

  /** The decoder refuses a line exactly when some character of it is not a letter, a blank or padding, when
      one letter is left over after the fours, or when its bytes do not fit. */
  lemma DecodeFailsExactly(text: string, cap: nat)
    ensures var t := Kept(text);
      Decode(text, cap) == None
      <==> (exists i :: 0 <= i < |t| && !Known(t[i])) || |t| % 4 == 1 || 6 * |t| / 8 > cap
  {
    hide ALPHABET, Known;
    WrappingDoesNotMatter(text, cap);
    DecodesTheKept(START, text, cap, false);
    KeptIsPlain(text);
    FailsFrom(START, Kept(text), cap);
  }
}
