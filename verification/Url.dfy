/** Percent-encoding into a buffer: apps/str.h, lines 82-99 (RFC 3986, sections 2.1 and 2.3). */
module Url {
  import opened Common

  predicate Unreserved(c: Byte) {
    'a' as int <= c <= 'z' as int || 'A' as int <= c <= 'Z' as int || '0' as int <= c <= '9' as int
    || c == '-' as int || c == '.' as int || c == '_' as int || c == '~' as int
  }

  function Hex(v: nat): char
    requires v < 16
  {
    if v < 10 then ('0' as int + v) as char else ('A' as int + (v - 10)) as char
  }

  function Escape(c: Byte): (s: string)
    ensures |s| == if Unreserved(c) then 1 else 3
  {
    if Unreserved(c) then [c as char] else ['%', Hex(c / 16), Hex(c % 16)]
  }

  function Encode(s: seq<Byte>): string {
    if s == [] then "" else Encode(s[..|s| - 1]) + Escape(s[|s| - 1])
  }

  function HexVal(c: char): (v: int)
    ensures -1 <= v < 16
  {
    if '0' <= c <= '9' then c as int - '0' as int
    else if 'A' <= c <= 'F' then c as int - 'A' as int + 10
    else if 'a' <= c <= 'f' then c as int - 'a' as int + 10
    else -1
  }

  /** What a server makes of it: None if an escape is not one, or a character is not a byte. */
  function Decode(t: string): Option<seq<Byte>> {
    if t == "" then Some([])
    else if t[0] == '%' then
      if |t| < 3 || HexVal(t[1]) < 0 || HexVal(t[2]) < 0 then None
      else
        var rest := Decode(t[3..]);
        if rest.None? then None else Some([HexVal(t[1]) * 16 + HexVal(t[2])] + rest.value)
    else if t[0] as int >= 0x100 then None
    else
      var rest := Decode(t[1..]);
      if rest.None? then None else Some([t[0] as int] + rest.value)
  }

  lemma DecodeEscape(c: Byte, t: string)
    requires Decode(t).Some?
    ensures Decode(Escape(c) + t) == Some([c] + Decode(t).value)
  {
    hide Decode;
    var u := Escape(c) + t;
    if Unreserved(c) {
      assert u[1..] == t && u[0] == c as char;
      DecodePlain(u);
    } else {
      assert u[3..] == t && u[0] == '%' && u[1] == Hex(c / 16) && u[2] == Hex(c % 16);
      HexComesBack(c / 16);
      HexComesBack(c % 16);
      DecodeTriple(u);
    }
  }

  lemma DecodePlain(u: string)
    requires u != "" && u[0] != '%' && u[0] as int < 0x100 && Decode(u[1..]).Some?
    ensures Decode(u) == Some([u[0] as int] + Decode(u[1..]).value)
  {
  }

  lemma DecodeTriple(u: string)
    requires |u| >= 3 && u[0] == '%' && HexVal(u[1]) >= 0 && HexVal(u[2]) >= 0 && Decode(u[3..]).Some?
    ensures Decode(u) == Some([HexVal(u[1]) * 16 + HexVal(u[2])] + Decode(u[3..]).value)
  {
    hide HexVal;
  }

  lemma HexComesBack(v: nat)
    requires v < 16
    ensures HexVal(Hex(v)) == v
  {
  }

  lemma {:induction false} BytesComeBack(s: seq<Byte>, t: string)
    requires Decode(t).Some?
    ensures Decode(Encode(s) + t) == Some(s + Decode(t).value)
  {
    hide Decode, Escape;
    if s == [] {
      assert Encode(s) + t == t && s + Decode(t).value == Decode(t).value;
    } else {
      var front, c := s[..|s| - 1], s[|s| - 1];
      DecodeEscape(c, t);
      BytesComeBack(front, Escape(c) + t);
      assert Encode(s) + t == Encode(front) + (Escape(c) + t);
      assert front + ([c] + Decode(t).value) == s + Decode(t).value;
    }
  }

  /** The unreserved characters of section 2.3, and the digits of an escape. */
  const MARKS: string := "-._~"
  const HEX: string := "0123456789ABCDEF"

  predicate Plain(c: char) { c in SMALLS || c in CAPITALS || c in DIGITS || c in MARKS }

  lemma PlainAre(c: Byte)
    ensures Unreserved(c) <==> Plain(c as char)
  {
    hide SMALLS, CAPITALS, DIGITS;
    SmallsAre(c as char);
    CapitalsAre(c as char);
    DigitsAre(c as char);
  }

  lemma HexByTable(v: nat)
    requires v < 16
    ensures |HEX| == 16 && Hex(v) == HEX[v] && Hex(v) in HEX
  {
  }

  /** Byte after byte, the encoding has an unreserved character as it is and any other byte as a percent
      sign and its two digits. */
  lemma EscapesByTable(s: seq<Byte>, c: Byte)
    ensures Encode([]) == ""
    ensures Encode(s + [c])
         == Encode(s) + if Plain(c as char) then [c as char] else ['%', HEX[c / 16], HEX[c % 16]]
  {
    hide SMALLS, CAPITALS, DIGITS, MARKS, Unreserved, Plain, Hex, HEX;
    PlainAre(c);
    HexByTable(c / 16);
    HexByTable(c % 16);
    assert (s + [c])[..|s|] == s;
    EncodeNothing();
  }

  /** Unreserved characters, and percent signs with two digits after each. */
  predicate Whole(t: string) {
    forall i :: 0 <= i < |t| ==> WholeAt(t, i)
  }

  predicate WholeAt(t: string, i: nat)
    requires i < |t|
  {
    Plain(t[i]) || (t[i] == '%' && i + 2 < |t| && t[i + 1] in HEX && t[i + 2] in HEX)
  }

  /** Nothing in the encoding is special in a query: letters, digits, - . _ ~ and whole escapes. */
  lemma {:induction false} NothingReserved(s: seq<Byte>)
    ensures Whole(Encode(s))
  {
    hide SMALLS, CAPITALS, DIGITS, MARKS, Unreserved, Plain, Hex, HEX, Escape;
    if s != [] {
      var front, c := s[..|s| - 1], s[|s| - 1];
      NothingReserved(front);
      EscapesByTable(front, c);
      HexByTable(c / 16);
      HexByTable(c % 16);
      assert front + [c] == s;
      HexIsPlain(c / 16);
      HexIsPlain(c % 16);
      Reserves(Encode(front), if Plain(c as char) then [c as char] else ['%', HEX[c / 16], HEX[c % 16]]);
    }
  }

  /** An unreserved character or an escape, after what reserves nothing. */
  lemma Reserves(u: string, e: string)
    requires Whole(u) && Whole(e)
    ensures Whole(u + e)
  {
    hide SMALLS, CAPITALS, DIGITS, MARKS, Plain, HEX;
    var t := u + e;
    forall i | 0 <= i < |t| ensures WholeAt(t, i) {
      if i < |u| {
        assert WholeAt(u, i);
        assert t[i] == u[i] && (i + 2 < |u| ==> t[i + 1] == u[i + 1] && t[i + 2] == u[i + 2]);
      } else {
        var k := i - |u|;
        assert WholeAt(e, k);
        assert t[i] == e[k] && (k + 2 < |e| ==> t[i + 1] == e[k + 1] && t[i + 2] == e[k + 2]);
      }
    }
  }

  lemma HexIsPlain(v: nat)
    requires v < 16
    ensures Plain(HEX[v]) && HEX[v] in HEX
  {
    hide SMALLS, CAPITALS, DIGITS, MARKS;
    if v < 10 { DigitAt(v); } else { CapitalAt(v - 10); }
    DigitsAre(HEX[v]);
    CapitalsAre(HEX[v]);
    HexByTable(v);
  }

  lemma {:induction false} LongerIsLonger(s: seq<Byte>, j: nat)
    requires j <= |s|
    ensures |Encode(s[..j])| <= |Encode(s)| && (j < |s| ==> |Encode(s[..j])| < |Encode(s)|)
  {
    hide Escape;
    if j == |s| {
      assert s[..j] == s;
    } else {
      LongerIsLonger(s[..|s| - 1], j);
      assert s[..|s| - 1][..j] == s[..j];
    }
  }

  /** url_enc: the encoding of as many whole characters of s as fit with the NUL, and of no fewer.
      What fitted is what a server reads back. */
  method EncodeTo(out: array<char>, s: seq<Byte>) returns (k: nat, ghost took: nat)
    modifies out
    ensures out.Length == 0 ==> k == 0
    ensures out.Length > 0 ==> k < out.Length && out[k] == '\0' && took <= |s| && out[..k] == Encode(s[..took])
    ensures out.Length > 0 ==> forall j :: took < j <= |s| ==> |Encode(s[..j])| > out.Length - 1
    ensures out.Length > 0 ==> Decode(out[..k]) == Some(s[..took])
  {
    hide Encode, Escape, Decode, Unreserved;
    var n := out.Length;
    k, took := 0, 0;
    if n <= 0 { return; }
    EncodeNothing();
    assert out[..0] == "" && s[..0] == [];
    var i := 0;
    while i < |s|
      invariant 0 <= i <= |s| && k <= n - 1 && out[..k] == Encode(s[..i])
      decreases |s| - i
    {
      var c := s[i];
      var plain := Unreserved(c);
      EncodeMore(s, i);
      if k + (if plain then 1 else 3) > n - 1 { break; }
      k := Put(out, k, c);
      i := i + 1;
    }
    took := i;
    forall j | took < j <= |s| ensures |Encode(s[..j])| > n - 1 {
      LongerIsLonger(s[..j], i + 1);
      assert s[..j][..i + 1] == s[..i + 1];
    }
    BytesComeBack(s[..took], "");
    assert Encode(s[..took]) + "" == Encode(s[..took]) && s[..took] + [] == s[..took];
    ghost var done := out[..k];
    out[k] := '\0';
    assert out[..k] == done;
  }

  method Put(out: array<char>, at: nat, c: Byte) returns (k: nat)
    requires at + |Escape(c)| <= out.Length
    modifies out
    ensures k == at + |Escape(c)| && out[..k] == old(out[..at]) + Escape(c)
  {
    ghost var done := out[..at];
    k := at;
    if Unreserved(c) {
      out[k] := c as char;
      k := k + 1;
    } else {
      out[k], out[k + 1], out[k + 2] := '%', Hex(c / 16), Hex(c % 16);
      k := k + 3;
    }
    assert out[..k] == done + Escape(c);
  }

  lemma EncodeNothing()
    ensures Encode([]) == "" && Decode("") == Some([])
  {
  }

  lemma EncodeMore(s: seq<Byte>, i: nat)
    requires i < |s|
    ensures Encode(s[..i + 1]) == Encode(s[..i]) + Escape(s[i])
  {
    hide Escape;
    assert s[..i + 1][..i] == s[..i];
  }
}
