/** A row of the screen stream: the server's run and literal encoder (server/pixels.py, lines 61-90) and
    the device's decoder (apps/screen.c, lines 72-99). */
module ScreenCodec {
  import opened Common

  const W: nat := 240
  const ROWBUF: nat := 700

  type Pixel = x: int | 0 <= x < 0x1_0000

  // ---- sixteen bits, low byte first --------------------------------------------------------

  function Word(p: Pixel): seq<Byte> { [p % 0x100, p / 0x100] }

  function Rd16(b: seq<Byte>, at: nat): Pixel
    requires at + 1 < |b|
  {
    var lo: int, hi: int := b[at], b[at + 1];
    lo + hi * 0x100
  }

  function Words(s: seq<Pixel>): (b: seq<Byte>)
    ensures |b| == 2 * |s|
  {
    if s == [] then [] else Words(s[..|s| - 1]) + Word(s[|s| - 1])
  }

  function ReadWords(b: seq<Byte>, n: nat): (s: seq<Pixel>)
    requires 2 * n <= |b|
    ensures |s| == n
  {
    seq(n, j requires 0 <= j < n => Rd16(b, 2 * j))
  }

  lemma {:induction false} WordsRead(s: seq<Pixel>, rest: seq<Byte>)
    ensures ReadWords(Words(s) + rest, |s|) == s
  {
    if s != [] {
      var front, last := s[..|s| - 1], s[|s| - 1];
      WordsRead(front, Word(last) + rest);
      assert Words(s) + rest == Words(front) + (Word(last) + rest);
      var b := Words(s) + rest;
      assert b[2 * |front|] == last % 0x100 && b[2 * |front| + 1] == last / 0x100;
      assert ReadWords(b, |s|) == ReadWords(b, |front|) + [last];
    }
  }

  // ---- the encoder -------------------------------------------------------------------------

  /** How many pixels at the front are the same, given that k are. */
  function RunFrom(s: seq<Pixel>, k: nat): (n: nat)
    requires 0 < k <= |s| && k <= 128 && forall i :: 0 <= i < k ==> s[i] == s[0]
    ensures k <= n <= |s| && n <= 128 && forall i :: 0 <= i < n ==> s[i] == s[0]
    decreases |s| - k
  {
    if k < |s| && s[k] == s[0] && k < 128 then RunFrom(s, k + 1) else k
  }

  function Run(s: seq<Pixel>): (n: nat)
    requires s != []
    ensures 0 < n <= |s| && n <= 128 && forall i :: 0 <= i < n ==> s[i] == s[0]
  {
    RunFrom(s, 1)
  }

  predicate Three(s: seq<Pixel>, k: nat) { k + 2 < |s| && s[k] == s[k + 1] == s[k + 2] }

  /** Where a literal stops: at three the same, at 128 pixels, at the end. */
  function LitFrom(s: seq<Pixel>, k: nat): (n: nat)
    requires k <= |s| && k < 128
    ensures k <= n <= |s| && n <= 128 && (n < 128 && n < |s| ==> Three(s, n))
    decreases |s| - k
  {
    if k == |s| || Three(s, k) then k
    else if k + 1 == 128 then 128
    else LitFrom(s, k + 1)
  }

  function Encode(s: seq<Pixel>): seq<Byte> {
    if s == [] then []
    else
      var run := Run(s);
      if run >= 2 then [run - 1] + Word(s[0]) + Encode(s[run..])
      else
        LitMoves(s);
        var k := LitFrom(s, 0);
        [127 + k] + Words(s[..k]) + Encode(s[k..])
  }

  lemma LitMoves(s: seq<Pixel>)
    requires s != [] && Run(s) < 2
    ensures LitFrom(s, 0) > 0
  {
    assert |s| > 1 ==> s[1] != s[0];
  }

  /** What is sent first of a row.  When its first two pixels are the same: how many more of them there are,
      127 at most, and the pixel, low byte first.  Otherwise its pixels up to the first three the same or to
      the 128th, after their number and 127 more. */
  lemma FirstPiece(s: seq<Pixel>, n: nat)
    requires 0 < n <= |s| && n <= 128
    requires if |s| > 1 && s[1] == s[0] then
               (forall i :: 0 <= i < n ==> s[i] == s[0]) && (n < |s| && n < 128 ==> s[n] != s[0])
             else
               (forall i :: 0 <= i < n && i + 2 < |s| ==> !(s[i] == s[i + 1] == s[i + 2]))
               && (n < |s| && n < 128 ==> n + 2 < |s| && s[n] == s[n + 1] == s[n + 2])
    ensures Encode([]) == []
    ensures Encode(s) ==
            (if |s| > 1 && s[1] == s[0] then [n - 1, s[0] % 0x100, s[0] / 0x100] else [127 + n] + Words(s[..n]))
            + Encode(s[n..])
  {
    hide Words;
    if |s| > 1 && s[1] == s[0] {
      assert Run(s) == n by { RunsTo(s, 1, n); }
    } else {
      assert Run(s) == 1;
      LiteralTo(s, 0, n);
    }
  }

  lemma {:induction false} RunsTo(s: seq<Pixel>, k: nat, n: nat)
    requires 0 < k <= n <= |s| && n <= 128 && (forall i :: 0 <= i < n ==> s[i] == s[0])
    requires n < |s| && n < 128 ==> s[n] != s[0]
    ensures RunFrom(s, k) == n
    decreases n - k
  {
    if k < n { RunsTo(s, k + 1, n); }
  }

  lemma {:induction false} LiteralTo(s: seq<Pixel>, k: nat, n: nat)
    requires k <= n <= |s| && k < 128 && n <= 128 && forall i :: 0 <= i < n ==> !Three(s, i)
    requires n < |s| && n < 128 ==> Three(s, n)
    ensures LitFrom(s, k) == n
    decreases n - k
  {
    if k < n && k + 1 < 128 { LiteralTo(s, k + 1, n); }
  }

  /** encode_row. */
  method EncodeRow(pixels: seq<Pixel>) returns (out: seq<Byte>)
    ensures out == Encode(pixels)
  {
    hide Words, Run, LitFrom, Encode;
    out := [];
    var i := 0;
    assert pixels[0..] == pixels;
    while i < |pixels|
      invariant 0 <= i <= |pixels| && out + Encode(pixels[i..]) == Encode(pixels)
    {
      ghost var before := out;
      var run := CountRun(pixels, i);
      EncodeStep(pixels, i);
      if run >= 2 {
        out := out + [run - 1] + Word(pixels[i]);
        i := i + run;
      } else {
        var start := i;
        i := EndOfLiteral(pixels, i);
        out := out + [128 + (i - start) - 1] + Words(pixels[start..i]);
      }
    }
    NothingLeft();
    assert pixels[|pixels|..] == [];
  }

  lemma NothingLeft()
    ensures Encode([]) == []
  {
  }

  lemma EncodeStep(pixels: seq<Pixel>, i: nat)
    requires i < |pixels|
    ensures var s := pixels[i..]; var run, k := Run(s), LitFrom(s, 0);
      if run >= 2 then i + run <= |pixels| && Encode(s) == [run - 1] + Word(pixels[i]) + Encode(pixels[i + run..])
      else 0 < k && i + k <= |pixels| && Encode(s) == [127 + k] + Words(pixels[i..i + k]) + Encode(pixels[i + k..])
  {
    hide Encode, Word, Words, Run, LitFrom;
    var s := pixels[i..];
    EncodePiece(s);
    var run, k := Run(s), LitFrom(s, 0);
    if run >= 2 {
      assert s[run..] == pixels[i + run..] && s[0] == pixels[i];
    } else {
      LitMoves(s);
      assert s[k..] == pixels[i + k..] && s[..k] == pixels[i..i + k];
    }
  }

  lemma EncodePiece(s: seq<Pixel>)
    requires s != []
    ensures var run, k := Run(s), LitFrom(s, 0);
      Encode(s) == if run >= 2 then [run - 1] + Word(s[0]) + Encode(s[run..])
                   else (LitMoves(s); [127 + k] + Words(s[..k]) + Encode(s[k..]))
  {
    hide Words, Run, LitFrom;
  }

  method CountRun(pixels: seq<Pixel>, i: nat) returns (run: nat)
    requires i < |pixels|
    ensures run == Run(pixels[i..])
  {
    ghost var s := pixels[i..];
    run := 1;
    while i + run < |pixels| && pixels[i + run] == pixels[i] && run < 128
      invariant 0 < run <= |s| && run <= 128 && (forall k :: 0 <= k < run ==> s[k] == s[0])
      invariant RunFrom(s, run) == Run(s)
    {
      assert s[run] == pixels[i + run];
      run := run + 1;
    }
    assert i + run < |pixels| ==> s[run] == pixels[i + run];
  }

  method EndOfLiteral(pixels: seq<Pixel>, start: nat) returns (i: nat)
    requires start < |pixels|
    ensures start <= i <= |pixels| && i - start == LitFrom(pixels[start..], 0)
  {
    ghost var s := pixels[start..];
    i := start;
    while i < |pixels|
      invariant start <= i <= |pixels| && i - start < 128
      invariant LitFrom(s, i - start) == LitFrom(s, 0)
      decreases |pixels| - i
    {
      assert s[i - start] == pixels[i];
      assert i + 2 < |pixels| ==> s[i - start + 1] == pixels[i + 1] && s[i - start + 2] == pixels[i + 2];
      if i + 2 < |pixels| && pixels[i] == pixels[i + 1] == pixels[i + 2] { break; }
      i := i + 1;
      if i - start == 128 { break; }
    }
  }

  // ---- the decoder -------------------------------------------------------------------------

  /** A row so far with the rest of it black. */
  function Padded(out: seq<Pixel>): (r: seq<Pixel>)
    requires |out| <= W
    ensures |r| == W
  {
    out + seq(W - |out|, _ => 0)
  }

  /** As many of the pixels as fit. */
  function Fit(out: seq<Pixel>, more: seq<Pixel>): (r: seq<Pixel>)
    requires |out| <= W
    ensures |r| <= W
  {
    if |out| + |more| <= W then out + more else out + more[..W - |out|]
  }

  function Copies(p: Pixel, n: nat): (s: seq<Pixel>)
    ensures |s| == n
  {
    seq(n, _ => p)
  }

  /** The row some bytes stand for, after the pixels already out; None if they end too soon. */
  function Decode(raw: seq<Byte>, out: seq<Pixel>): (r: Option<seq<Pixel>>)
    requires |out| <= W
    ensures r.Some? ==> |r.value| == W
    decreases |raw|
  {
    if raw == [] || |out| == W then Some(Padded(out))
    else if raw[0] < 128 then
      if |raw| < 3 then None else Decode(raw[3..], Fit(out, Copies(Rd16(raw, 1), raw[0] + 1)))
    else
      var n: nat := raw[0] - 127;
      if |raw| < 1 + 2 * n then None else Decode(raw[1 + 2 * n..], Fit(out, ReadWords(raw[1..], n)))
  }

  /** Every row comes back: whatever its runs, the decoder makes of the encoder's bytes the pixels
      that were encoded, and black to the end of the row. */
  lemma {:induction false} RowComesBack(s: seq<Pixel>, out: seq<Pixel>)
    requires |out| + |s| <= W
    ensures Decode(Encode(s), out) == Some(out + s + seq(W - |out + s|, _ => 0))
    decreases |s|
  {
    hide Encode, Decode, Run, LitFrom;
    if s == [] {
      NothingComesBack(out);
      assert out + s == out;
    } else {
      var k := Piece(s);
      PieceComesBack(s, out);
      RowComesBack(s[k..], out + s[..k]);
      assert out + s[..k] + s[k..] == out + s;
    }
  }

  /** The length of the first run or literal. */
  function Piece(s: seq<Pixel>): (k: nat)
    requires s != []
    ensures 0 < k <= |s|
  {
    if Run(s) >= 2 then Run(s) else (LitMoves(s); LitFrom(s, 0))
  }

  lemma NothingComesBack(out: seq<Pixel>)
    requires |out| <= W
    ensures Decode(Encode([]), out) == Some(out + seq(W - |out|, _ => 0))
  {
  }

  lemma PieceComesBack(s: seq<Pixel>, out: seq<Pixel>)
    requires s != [] && |out| + |s| <= W
    ensures Decode(Encode(s), out) == Decode(Encode(s[Piece(s)..]), out + s[..Piece(s)])
  {
    hide Decode, Encode, Run, LitFrom, Words;
    if Run(s) >= 2 { RunComesBack(s, out); } else { LiteralComesBack(s, out); }
  }

  lemma RunComesBack(s: seq<Pixel>, out: seq<Pixel>)
    requires s != [] && |out| + |s| <= W && Run(s) >= 2
    ensures Decode(Encode(s), out) == Decode(Encode(s[Run(s)..]), out + s[..Run(s)])
  {
    hide Decode, Run, LitFrom, Words;
    DecodeRun(s[0], Run(s), Encode(s[Run(s)..]), out);
    assert Copies(s[0], Run(s)) == s[..Run(s)];
  }

  lemma LiteralComesBack(s: seq<Pixel>, out: seq<Pixel>)
    requires s != [] && |out| + |s| <= W && Run(s) < 2
    ensures Decode(Encode(s), out) == Decode(Encode(s[Piece(s)..]), out + s[..Piece(s)])
  {
    hide Decode, Run, LitFrom, Words;
    var k := Piece(s);
    var rest := Encode(s[k..]);
    LitMoves(s);
    DecodeLiteral(s[..k], rest, out);
    assert [127 + k] + Words(s[..k]) + rest == [127 + k] + (Words(s[..k]) + rest);
  }

  lemma DecodeRun(p: Pixel, run: nat, rest: seq<Byte>, out: seq<Pixel>)
    requires 2 <= run <= 128 && |out| + run <= W
    ensures Decode([run - 1] + Word(p) + rest, out) == Decode(rest, out + Copies(p, run))
  {
    hide Decode;
    var raw: seq<Byte> := [run - 1] + Word(p) + rest;
    RunStep(raw, run, out);
    assert raw[0] == run - 1 && raw[1] == p % 0x100 && raw[2] == p / 0x100 && raw[3..] == rest;
    assert Rd16(raw, 1) == p;
  }

  lemma LiteralStep(raw: seq<Byte>, n: nat, out: seq<Pixel>)
    requires |out| < W && raw != [] && raw[0] == 127 + n && n > 0 && |raw| >= 1 + 2 * n
    ensures Decode(raw, out) == Decode(raw[1 + 2 * n..], Fit(out, ReadWords(raw[1..], n)))
  {
    hide ReadWords, Rd16, Fit, Copies, Padded;
  }

  lemma RunStep(raw: seq<Byte>, n: nat, out: seq<Pixel>)
    requires |out| < W && |raw| >= 3 && raw[0] == n - 1 && n <= 128
    ensures Decode(raw, out) == Decode(raw[3..], Fit(out, Copies(Rd16(raw, 1), n)))
  {
    hide ReadWords, Copies, Rd16, Fit, Padded;
  }

  lemma DecodeLiteral(lit: seq<Pixel>, rest: seq<Byte>, out: seq<Pixel>)
    requires 0 < |lit| <= 128 && |out| + |lit| <= W
    ensures Decode([127 + |lit|] + (Words(lit) + rest), out) == Decode(rest, out + lit)
  {
    hide Words, ReadWords, Rd16, Decode;
    var tail := Words(lit) + rest;
    var raw: seq<Byte> := [127 + |lit|] + tail;
    assert raw[0] == 127 + |lit| && raw[1..] == tail && raw[1 + 2 * |lit|..] == rest;
    WordsRead(lit, rest);
    LiteralStep(raw, |lit|, out);
    assert Fit(out, lit) == out + lit;
  }

  // ---- how long a row can be ---------------------------------------------------------------

  /** A literal costs a byte over its pixels, which the run after it more than saves; so only a
      literal of 128 costs one for good. */
  lemma {:induction false} EncodedLength(s: seq<Pixel>)
    ensures |Encode(s)| <= 2 * |s| + |s| / 128 + 1
    ensures s != [] && Run(s) >= 2 ==> |Encode(s)| <= 2 * |s| + |s| / 128
    decreases |s|
  {
    hide Words, RunFrom, LitFrom;
    if s != [] {
      var run := Run(s);
      if run >= 2 {
        EncodedLength(s[run..]);
      } else {
        LitMoves(s);
        var k := LitFrom(s, 0);
        var rest := s[k..];
        EncodedLength(rest);
        if rest != [] && k < 128 { ThreeIsARun(s, k); }
      }
    }
  }

  lemma ThreeIsARun(s: seq<Pixel>, k: nat)
    requires Three(s, k)
    ensures Run(s[k..]) >= 2
  {
  }

  /** A row of the panel always fits the buffer it is received in. */
  lemma RowFits(s: seq<Pixel>)
    requires |s| == 240
    ensures 0 < |Encode(s)| <= 482 && 482 <= ROWBUF
  {
    hide RunFrom, LitFrom;
    EncodedLength(s);
  }
}
