/** The viewer's decoder as the source holds it: fixed buffers filled a chunk at a time
    (apps/screen.c, lines 48-70, 72-99 and 101-172). */
module ScreenDecoder {
  import opened Common
  import opened ScreenCodec
  import opened Screen

  class Decoder {
    var want: Want
    var need: nat
    var have: nat
    const hdr: array<Byte>
    const raw: array<Byte>
    const row: array<Pixel>
    var y: nat
    var frames: nat
    var bytes: nat
    var stop: bool
    /** What has been handed to the display, and whether the stream has been given up. */
    var blits: seq<Blit>
    var done: bool

    ghost predicate Valid()
      reads this`want, this`need, this`have, this`done
    {
      && hdr.Length == 8 && raw.Length == ROWBUF && row.Length == W && hdr != raw
      && (if want == Payload then have <= need <= ROWBUF else have <= 8)
      && (!done && want == Payload ==> have < need)
      && (!done && want == RowHeader ==> have < 4)
      && (!done && want == Magic ==> have < 8)
    }

    function View(): (v: Viewer)
      reads this`want, this`need, this`have, this`y, this`frames, this`stop, this`blits, this`done, hdr, raw
      requires Valid()
      ensures ViewerOk(v)
    {
      Viewer(want, if want == Payload then raw[..have] else hdr[..have], need, y, frames, blits, done, stop)
    }

    constructor ()
      ensures Valid() && fresh(hdr) && fresh(raw) && fresh(row) && View() == START && bytes == 0
    {
      hdr := new Byte[8](_ => 0);
      raw := new Byte[ROWBUF](_ => 0);
      row := new Pixel[W](_ => 0);
      want, need, have, y, frames, bytes, stop, blits, done := Magic, 0, 0, 0, 0, 0, false, [], false;
    }

    /** decode_row: whether the payload makes sense, and if it does the row. */
    method DecodeRow(len: nat) returns (ok: bool)
      requires raw.Length == ROWBUF && row.Length == W && len <= ROWBUF
      modifies row
      ensures ok <==> Decode(raw[..len], []).Some?
      ensures ok ==> row[..] == Decode(raw[..len], []).value
    {
      hide Rd16, Fit, Copies, Padded, ReadWords, Decode;
      ghost var all := raw[..len];
      var i, out := 0, 0;
      assert all[0..] == all && row[..0] == [];
      while i < len && out < W
        invariant 0 <= i <= len && 0 <= out <= W
        invariant Decode(all, []) == Decode(all[i..], row[..out])
        decreases len - i, W - out
      {
        var c := raw[i];
        ghost var rest, before := all[i..], row[..out];
        assert rest[0] == c;
        i := i + 1;
        if c < 128 {
          var n: nat := c + 1;
          if i + 2 > len {
            TooShort(rest, before);
            return false;
          }
          ThreeOf(all, i - 1);
          assert all[i] == raw[i] && all[i + 1] == raw[i + 1];
          RunStep(rest, n, before);
          var px := Rd16(raw[i..i + 2], 0);
          assert px == Rd16(rest, 1) by { SameWord(raw[i..i + 2], 0, rest, 1); }
          i := i + 2;
          out := PutRun(out, px, n);
        } else {
          var n: nat := c - 127;
          if i + 2 * n > len {
            TooShort(rest, before);
            return false;
          }
          LiteralOf(all, i - 1, n);
          assert all[i..i + 2 * n] == raw[i..i + 2 * n];
          LiteralStep(rest, n, before);
          SameWords(rest[1..], raw[i..i + 2 * n], n);
          out := PutLiteral(out, i, n);
          // The source leaves i where the row filled up; nothing more is read then.
          i := i + 2 * n;
        }
      }
      ghost var before := row[..out];
      ItEnds(all[i..], before);
      while out < W
        invariant |before| <= out <= W && row[..out] == before + seq(out - |before|, _ => 0)
      {
        row[out] := 0;
        out := out + 1;
      }
      assert row[..] == row[..W];
      AllPadded(before);
      return true;
    }

    static lemma ThreeOf(a: seq<Byte>, i: nat)
      requires i + 3 <= |a|
      ensures a[i..][1] == a[i + 1] && a[i..][2] == a[i + 2] && a[i..][3..] == a[i + 3..]
    {
    }

    static lemma LiteralOf(a: seq<Byte>, i: nat, n: nat)
      requires i + 1 + 2 * n <= |a|
      ensures a[i..][1..][..2 * n] == a[i + 1..i + 1 + 2 * n] && a[i..][1 + 2 * n..] == a[i + 1 + 2 * n..]
    {
    }

    static lemma AllPadded(s: seq<Pixel>)
      requires |s| <= W
      ensures Padded(s) == s + seq(W - |s|, _ => 0)
    {
    }

    static lemma SameWord(a: seq<Byte>, i: nat, b: seq<Byte>, j: nat)
      requires i + 1 < |a| && j + 1 < |b| && a[i] == b[j] && a[i + 1] == b[j + 1]
      ensures Rd16(a, i) == Rd16(b, j)
    {
    }

    static lemma SameWords(a: seq<Byte>, b: seq<Byte>, n: nat)
      requires 2 * n <= |a| && |b| == 2 * n && a[..2 * n] == b
      ensures ReadWords(a, n) == ReadWords(b, n)
    {
      forall j | 0 <= j < n ensures Rd16(a, 2 * j) == Rd16(b, 2 * j) {
        assert a[2 * j] == a[..2 * n][2 * j] && a[2 * j + 1] == a[..2 * n][2 * j + 1];
      }
    }

    static lemma TooShort(rest: seq<Byte>, out: seq<Pixel>)
      requires rest != [] && |out| < W
      requires if rest[0] < 128 then |rest| < 3 else (var n: nat := rest[0] - 127; |rest| < 1 + 2 * n)
      ensures Decode(rest, out) == None
    {
      hide Rd16, Fit, Copies, ReadWords;
    }

    static lemma ItEnds(rest: seq<Byte>, out: seq<Pixel>)
      requires |out| <= W && (rest == [] || |out| == W)
      ensures Decode(rest, out) == Some(Padded(out))
    {
      hide Rd16, Fit, Copies, ReadWords;
    }

    method PutRun(from: nat, px: Pixel, n: nat) returns (out: nat)
      requires row.Length == W && from < W && n > 0
      modifies row
      ensures from < out <= W && row[..out] == Fit(old(row[..from]), Copies(px, n))
    {
      out := from;
      var left := n;
      while left > 0 && out < W
        invariant from <= out <= W && left <= n && out - from == n - left
        invariant row[..from] == old(row[..from]) && forall k :: from <= k < out ==> row[k] == px
      {
        row[out] := px;
        out, left := out + 1, left - 1;
      }
      assert row[..out] == row[..from] + Copies(px, out - from);
      assert Copies(px, n)[..out - from] == Copies(px, out - from);
    }

    method PutLiteral(from: nat, at: nat, n: nat) returns (out: nat)
      requires raw.Length == ROWBUF && row.Length == W && from < W && n > 0 && at + 2 * n <= ROWBUF
      modifies row
      ensures from < out <= W && row[..out] == Fit(old(row[..from]), ReadWords(raw[at..at + 2 * n], n))
    {
      hide Rd16;
      ghost var words := ReadWords(raw[at..at + 2 * n], n);
      out := from;
      var left, i := n, at;
      while left > 0 && out < W
        invariant from <= out <= W && left <= n && out - from == n - left && i == at + 2 * (out - from)
        invariant row[..from] == old(row[..from]) && forall k :: from <= k < out ==> row[k] == words[k - from]
      {
        ghost var j := out - from;
        row[out] := Rd16(raw[i..i + 2], 0);
        assert row[out] == words[j] by {
          assert raw[at..at + 2 * n][2 * j] == raw[i] && raw[at..at + 2 * n][2 * j + 1] == raw[i + 1];
          SameWord(raw[i..i + 2], 0, raw[at..at + 2 * n], 2 * j);
        }
        out, i, left := out + 1, i + 2, left - 1;
      }
      assert row[..out] == row[..from] + words[..out - from];
    }

    /** on_data: a chunk, and 1 to stop the stream. */
    method OnData(d: seq<Byte>, key: nat -> bool) returns (r: int)
      requires Valid() && !done
      modifies this, hdr, raw, row
      ensures Valid() && View() == Feed(old(View()), d, key) && bytes == old(bytes) + |d|
      ensures r == if done then 1 else 0
    {
      hide Feed, ViewerOk, View;
      bytes := bytes + |d|;
      ghost var start := View();
      var i := 0;
      assert d[0..] == d;
      while i < |d|
        invariant 0 <= i <= |d| && Valid() && !done && bytes == old(bytes) + |d|
        invariant Feed(View(), d[i..], key) == Feed(start, d, key)
      {
        var take := (if want == Magic then 8 else if want == RowHeader then 4 else need) - have;
        if take > |d| - i { take := |d| - i; }
        assert d[i..] == d[i..i + take] + d[i + take..];
        FeedAppend(View(), d[i..i + take], d[i + take..], key);
        TakePart(d[i..i + take], key);
        i := i + take;
        if done {
          NoMore(View(), d[i..], key) by { ViewSaysDone(); }
          return 1;
        }
      }
      assert d[i..] == [];
      FeedNothing(View(), key);
      return 0;
    }

    lemma ViewSaysDone()
      requires Valid()
      ensures ViewerOk(View()) && View().done == done
    {
    }

    /** What a chunk has of the piece wanted. */
    method TakePart(part: seq<Byte>, key: nat -> bool)
      requires Valid() && !done
      requires have + |part| <= if want == Magic then 8 else if want == RowHeader then 4 else need
      modifies this, hdr, raw, row
      ensures Valid() && View() == Feed(old(View()), part, key) && bytes == old(bytes)
    {
      hide Feed, ViewerOk;
      ghost var v := View();
      var wanted := if want == Magic then 8 else if want == RowHeader then 4 else need;
      Copy(part);
      if have < wanted {
        FeedPart(v, part, key);
        assert View() == v.(piece := v.piece + part);
        return;
      }
      FeedWhole(v, part, key);
      Finish(v, v.piece + part, key);
    }

    /** mem_cpy, after what there is of the piece. */
    method Copy(part: seq<Byte>)
      requires Valid() && !done && have + |part| <= Wanted(View())
      modifies this`have, hdr, raw
      ensures have == old(have) + |part|
      ensures hdr.Length == 8 && raw.Length == ROWBUF
      ensures (if want == Payload then raw[..have] else hdr[..have]) == old(View()).piece + part
    {
      if want == Payload {
        CopyTo(raw, have, part);
      } else {
        CopyTo(hdr, have, part);
      }
      have := have + |part|;
    }

    static method CopyTo(a: array<Byte>, at: nat, part: seq<Byte>)
      requires at + |part| <= a.Length
      modifies a
      ensures a[..at + |part|] == old(a[..at]) + part
    {
      var k := 0;
      while k < |part|
        invariant 0 <= k <= |part| && a[..at + k] == old(a[..at]) + part[..k]
      {
        a[at + k] := part[k];
        assert a[..at + k + 1] == a[..at + k] + [part[k]];
        k := k + 1;
      }
      assert part[..|part|] == part;
    }

    /** The piece is in: the switch of the source's loop. */
    method Finish(ghost v: Viewer, ghost piece: seq<Byte>, key: nat -> bool)
      requires hdr.Length == 8 && raw.Length == ROWBUF && row.Length == W && hdr != raw
      requires !done && |piece| == Wanted(v) == have && (want == Payload ==> have <= ROWBUF)
      requires v == Viewer(want, v.piece, need, y, frames, blits, done, stop)
      requires (if want == Payload then raw[..have] else hdr[..have]) == piece
      modifies this, row
      ensures Valid() && View() == Complete(v, piece, key) && bytes == old(bytes)
    {
      hide Decode, Rd16;
      if want == Magic {
        assert hdr[..4] == piece[..4];
        if hdr[..4] != MAGIC {
          done := true;
          return;
        }
        want, have := RowHeader, 0;
        return;
      }
      if want == RowHeader {
        SameWord(hdr[..4], 0, piece, 0);
        SameWord(hdr[..4], 2, piece, 2);
        y, need, have := Rd16(hdr[..4], 0), Rd16(hdr[..4], 2), 0;
        if y == END_OF_FRAME {
          frames := frames + 1;
          if key(frames) { stop, done := true, true; }
          return;
        }
        if need == 0 || need > ROWBUF {
          done := true;
          return;
        }
        want := Payload;
        return;
      }
      var ok := DecodeRow(need);
      if ok && y < H { blits := blits + [Blit(y, row[..])]; }
      have := 0;
      want := RowHeader;
    }
  }
}
