/** The screen viewer's stream: apps/screen.c, lines 48-70 and 101-172, and what server/screen.py, lines
    86-125, sends it.

    A chunk off the socket ends anywhere.  The machine here takes a byte at a time; ScreenDecoder is
    the source's loop, which takes as much of a piece as a chunk has, and does the same. */
module Screen {
  import opened Common
  import opened ScreenCodec

  const H: nat := 135
  const END_OF_FRAME: Pixel := 0xFFFF
  const MAGIC: seq<Byte> := [0x53, 0x43, 0x52, 0x31]

  datatype Want = Magic | RowHeader | Payload

  /** A row handed to the display. */
  datatype Blit = Blit(y: nat, row: seq<Pixel>)

  /** `piece` is as much of the header or the payload wanted as has come.  `done` is the stream given
      up: a bad header, or a key. */
  datatype Viewer = Viewer(
    want: Want, piece: seq<Byte>, need: nat, y: nat, frames: nat, blits: seq<Blit>, done: bool, stop: bool)

  const START: Viewer := Viewer(Magic, [], 0, 0, 0, [], false, false)

  predicate ViewerOk(v: Viewer) {
    v.done || match v.want
              case Magic => |v.piece| < 8
              case RowHeader => |v.piece| < 4
              case Payload => |v.piece| < v.need <= ROWBUF
  }

  /** The row header is in. */
  function TakeHeader(v: Viewer, h: seq<Byte>, key: nat -> bool): Viewer
    requires |h| == 4
  {
    var u := v.(piece := [], y := Rd16(h, 0), need := Rd16(h, 2));
    if u.y == END_OF_FRAME then
      u.(frames := v.frames + 1, done := key(v.frames + 1), stop := v.stop || key(v.frames + 1))
    else if u.need == 0 || u.need > ROWBUF then u.(done := true)
    else u.(want := Payload)
  }

  /** The payload is in. */
  function TakePayload(v: Viewer, raw: seq<Byte>): Viewer {
    var row := Decode(raw, []);
    v.(piece := [], want := RowHeader,
       blits := if row.Some? && v.y < H then v.blits + [Blit(v.y, row.value)] else v.blits)
  }

  /** One byte.  `key` says whether a key is waiting when the nth frame ends. */
  function TakeByte(v: Viewer, b: Byte, key: nat -> bool): (u: Viewer)
    requires ViewerOk(v) && !v.done
    ensures ViewerOk(u)
  {
    var piece := v.piece + [b];
    match v.want
    case Magic =>
      if |piece| < 8 then v.(piece := piece)
      else if piece[..4] != MAGIC then v.(piece := piece, done := true)
      else v.(piece := [], want := RowHeader)
    case RowHeader => if |piece| < 4 then v.(piece := piece) else TakeHeader(v, piece, key)
    case Payload => if |piece| < v.need then v.(piece := piece) else TakePayload(v, piece)
  }

  /** Bytes, up to the one that ends it. */
  function Feed(v: Viewer, d: seq<Byte>, key: nat -> bool): (u: Viewer)
    requires ViewerOk(v)
    ensures ViewerOk(u)
    decreases |d|
  {
    if d == [] || v.done then v else Feed(TakeByte(v, d[0], key), d[1..], key)
  }

  // ---- chunks ------------------------------------------------------------------------------

  lemma {:induction false} FeedAppend(v: Viewer, a: seq<Byte>, b: seq<Byte>, key: nat -> bool)
    requires ViewerOk(v)
    ensures Feed(v, a + b, key) == Feed(Feed(v, a, key), b, key)
    decreases |a|
  {
    hide TakeByte, ViewerOk;
    if v.done {
      NoMore(v, b, key);
      NoMore(v, a + b, key);
    } else if a == [] {
      assert a + b == b;
    } else {
      assert (a + b)[1..] == a[1..] + b;
      FeedAppend(TakeByte(v, a[0], key), a[1..], b, key);
    }
  }

  lemma NoMore(v: Viewer, d: seq<Byte>, key: nat -> bool)
    requires ViewerOk(v) && v.done
    ensures Feed(v, d, key) == v
  {
  }

  function Joined(chunks: seq<seq<Byte>>): seq<Byte> {
    if chunks == [] then [] else Joined(chunks[..|chunks| - 1]) + chunks[|chunks| - 1]
  }

  function FeedChunks(v: Viewer, chunks: seq<seq<Byte>>, key: nat -> bool): (u: Viewer)
    requires ViewerOk(v)
    ensures ViewerOk(u)
  {
    if chunks == [] then v else Feed(FeedChunks(v, chunks[..|chunks| - 1], key), chunks[|chunks| - 1], key)
  }

  /** However the stream is cut into chunks, the rows shown, the frames counted and the decoder's
      state are those of the whole. */
  lemma {:induction false} ChunksDoNotMatter(v: Viewer, chunks: seq<seq<Byte>>, key: nat -> bool)
    requires ViewerOk(v)
    ensures FeedChunks(v, chunks, key) == Feed(v, Joined(chunks), key)
  {
    hide ViewerOk;
    if chunks != [] {
      ChunksDoNotMatter(v, chunks[..|chunks| - 1], key);
      FeedAppend(v, Joined(chunks[..|chunks| - 1]), chunks[|chunks| - 1], key);
    }
  }

  /** A piece that does not complete what is wanted is only kept. */
  lemma {:induction false} FeedPart(v: Viewer, d: seq<Byte>, key: nat -> bool)
    requires ViewerOk(v) && !v.done && |v.piece| + |d| < Wanted(v)
    ensures Feed(v, d, key) == v.(piece := v.piece + d)
    decreases |d|
  {
    if d == [] {
      assert v.piece + d == v.piece;
    } else {
      var u := v.(piece := v.piece + [d[0]]);
      FeedPart(u, d[1..], key);
      assert u.piece + d[1..] == v.piece + d;
    }
  }

  /** How long the piece wanted is. */
  function Wanted(v: Viewer): nat {
    match v.want
    case Magic => 8
    case RowHeader => 4
    case Payload => v.need
  }

  /** One that completes it is taken as a whole. */
  function Complete(v: Viewer, piece: seq<Byte>, key: nat -> bool): (u: Viewer)
    requires |piece| == Wanted(v)
  {
    match v.want
    case Magic => if piece[..4] != MAGIC then v.(piece := piece, done := true) else v.(piece := [], want := RowHeader)
    case RowHeader => TakeHeader(v, piece, key)
    case Payload => TakePayload(v, piece)
  }

  lemma FeedWhole(v: Viewer, d: seq<Byte>, key: nat -> bool)
    requires ViewerOk(v) && !v.done && |v.piece| + |d| == Wanted(v)
    ensures Feed(v, d, key) == Complete(v, v.piece + d, key)
  {
    hide TakeHeader, TakePayload;
    var front, last := d[..|d| - 1], d[|d| - 1];
    assert d == front + [last];
    FeedPart(v, front, key);
    FeedAppend(v, front, [last], key);
    var u := v.(piece := v.piece + front);
    assert u.piece + [last] == v.piece + d;
    assert Feed(u, [last], key) == TakeByte(u, last, key) by {
      assert [last][1..] == [];
      FeedNothing(TakeByte(u, last, key), key);
    }
    SameButPiece(v, u, v.piece + d, key);
  }

  lemma FeedNothing(v: Viewer, key: nat -> bool)
    requires ViewerOk(v)
    ensures Feed(v, [], key) == v
  {
  }

  lemma SameButPiece(v: Viewer, u: Viewer, piece: seq<Byte>, key: nat -> bool)
    requires |piece| == Wanted(v) && u == v.(piece := u.piece)
    ensures Complete(u, piece, key) == Complete(v, piece, key)
  {
  }

  // ---- what the server sends ---------------------------------------------------------------

  /** A picture: every row of the panel. */
  type Frame = f: seq<seq<Pixel>> | |f| == H && forall y :: 0 <= y < H ==> |f[y]| == W
    witness seq(H, _ => seq(W, _ => 0))

  function RowMessage(y: nat, row: seq<Pixel>): seq<Byte>
    requires y < H && |row| == W
  {
    RowFits(row);
    Word(y) + Word(|Encode(row)|) + Encode(row)
  }

  /** The rows among the first n that changed since the last picture, or all of them if there was
      none. */
  function Rows(prev: Option<Frame>, cur: Frame, n: nat): seq<Byte>
    requires n <= H
  {
    if n == 0 then []
    else
      Rows(prev, cur, n - 1)
      + if prev.Some? && cur[n - 1] == prev.value[n - 1] then [] else RowMessage(n - 1, cur[n - 1])
  }

  const FRAME_END: seq<Byte> := [0xFF, 0xFF, 0, 0]

  function FrameMessage(prev: Option<Frame>, cur: Frame): seq<Byte> { Rows(prev, cur, H) + FRAME_END }

  /** What the panel shows once some rows have been drawn on it. */
  function Drawn(panel: Frame, blits: seq<Blit>): Frame {
    if blits == [] then panel
    else
      var b, p := blits[|blits| - 1], Drawn(panel, blits[..|blits| - 1]);
      if b.y < H && |b.row| == W then p[b.y := b.row] else p
  }

  predicate BetweenRows(v: Viewer) { v.want == RowHeader && v.piece == [] && !v.done }

  /** A row message is drawn where it says. */
  lemma RowIsDrawn(v: Viewer, y: nat, row: seq<Pixel>, key: nat -> bool)
    requires BetweenRows(v) && y < H && |row| == W
    ensures var u := Feed(v, RowMessage(y, row), key);
      BetweenRows(u) && u.blits == v.blits + [Blit(y, row)] && u.frames == v.frames
  {
    hide Encode, Decode, Feed;
    RowFits(row);
    var n := |Encode(row)|;
    var h := Word(y) + Word(n);
    FeedAppend(v, h, Encode(row), key);
    FeedWhole(v, h, key);
    assert [] + h == h;
    assert Rd16(h, 0) == y && Rd16(h, 2) == n;
    var u := Feed(v, h, key);
    assert u == v.(want := Payload, y := y, need := n);
    FeedWhole(u, Encode(row), key);
    assert [] + Encode(row) == Encode(row);
    RowComesBack(row, []);
    assert [] + row == row && row + seq(W - |[] + row|, _ => 0) == row;
  }

  lemma EndIsCounted(v: Viewer, key: nat -> bool)
    requires BetweenRows(v) && !key(v.frames + 1)
    ensures var u := Feed(v, FRAME_END, key);
      BetweenRows(u) && u.blits == v.blits && u.frames == v.frames + 1
  {
    hide Feed;
    FeedWhole(v, FRAME_END, key);
    assert [] + FRAME_END == FRAME_END;
    assert Rd16(FRAME_END, 0) == END_OF_FRAME;
  }

  lemma {:induction false} RowsAreDrawn(v: Viewer, panel: Frame, prev: Option<Frame>, cur: Frame, n: nat,
                                        key: nat -> bool)
    requires BetweenRows(v) && n <= H && (prev.Some? ==> Drawn(panel, v.blits) == prev.value)
    ensures var u := Feed(v, Rows(prev, cur, n), key);
      BetweenRows(u) && u.frames == v.frames
      && (forall y :: 0 <= y < n ==> Drawn(panel, u.blits)[y] == cur[y])
      && (forall y :: n <= y < H ==> Drawn(panel, u.blits)[y] == Drawn(panel, v.blits)[y])
  {
    hide Feed, RowMessage;
    if n == 0 {
      FeedNothing(v, key);
    } else {
      var y, sent := n - 1, Rows(prev, cur, n - 1);
      RowsAreDrawn(v, panel, prev, cur, n - 1, key);
      var u := Feed(v, sent, key);
      if prev.Some? && cur[y] == prev.value[y] {
        assert sent + [] == sent;
      } else {
        RowIsDrawn(u, y, cur[y], key);
        FeedAppend(v, sent, RowMessage(y, cur[y]), key);
        DrawnOneMore(panel, u.blits, y, cur[y]);
      }
    }
  }

  lemma DrawnOneMore(panel: Frame, blits: seq<Blit>, y: nat, row: seq<Pixel>)
    requires y < H && |row| == W
    ensures Drawn(panel, blits + [Blit(y, row)]) == Drawn(panel, blits)[y := row]
  {
    assert (blits + [Blit(y, row)])[..|blits|] == blits;
  }

  /** One frame: the panel, showing the last one, shows this one when its changed rows are in. */
  lemma FrameIsShown(v: Viewer, panel: Frame, prev: Option<Frame>, cur: Frame, key: nat -> bool)
    requires BetweenRows(v) && !key(v.frames + 1) && (prev.Some? ==> Drawn(panel, v.blits) == prev.value)
    ensures var u := Feed(v, FrameMessage(prev, cur), key);
      BetweenRows(u) && u.frames == v.frames + 1 && Drawn(panel, u.blits) == cur
  {
    hide Feed, Rows;
    RowsAreDrawn(v, panel, prev, cur, H, key);
    var u := Feed(v, Rows(prev, cur, H), key);
    EndIsCounted(u, key);
    FeedAppend(v, Rows(prev, cur, H), FRAME_END, key);
    assert Drawn(panel, u.blits) == cur;
  }

  const HELLO: seq<Byte> := MAGIC + [240, 0, 135, 0]

  /** Everything the server has sent after some frames. */
  function Stream(frames: seq<Frame>): seq<Byte> {
    if frames == [] then HELLO
    else
      var n := |frames| - 1;
      Stream(frames[..n]) + FrameMessage(if n > 0 then Some(frames[n - 1]) else None, frames[n])
  }

  /** The server and the viewer together: whatever the pictures, whatever the panel showed before,
      and however the bytes are cut up on the way, with no key pressed the panel shows the last
      picture sent, and every frame has been counted, though only rows that changed were sent. */
  lemma {:induction false} PanelShowsTheLastFrame(panel: Frame, frames: seq<Frame>, chunks: seq<seq<Byte>>,
                                                  key: nat -> bool)
    requires frames != [] && Joined(chunks) == Stream(frames) && forall n :: !key(n)
    ensures var u := FeedChunks(START, chunks, key);
      !u.done && u.frames == |frames| && Drawn(panel, u.blits) == frames[|frames| - 1]
  {
    hide Feed, Stream, FeedChunks, Joined;
    ChunksDoNotMatter(START, chunks, key);
    StreamIsShown(panel, frames, key);
  }

  lemma {:induction false} StreamIsShown(panel: Frame, frames: seq<Frame>, key: nat -> bool)
    requires forall n :: 1 <= n <= |frames| ==> !key(n)
    ensures var u := Feed(START, Stream(frames), key);
      BetweenRows(u) && u.frames == |frames|
      && (frames != [] ==> Drawn(panel, u.blits) == frames[|frames| - 1])
  {
    hide Feed, FrameMessage, Drawn;
    if frames == [] {
      FeedWhole(START, HELLO, key);
      assert [] + HELLO == HELLO && HELLO[..4] == MAGIC;
    } else {
      var n := |frames| - 1;
      StreamIsShown(panel, frames[..n], key);
      var u := Feed(START, Stream(frames[..n]), key);
      var prev := if n > 0 then Some(frames[n - 1]) else None;
      assert n > 0 ==> frames[..n][n - 1] == frames[n - 1];
      FrameIsShown(u, panel, prev, frames[n], key);
      FeedAppend(START, Stream(frames[..n]), FrameMessage(prev, frames[n]), key);
    }
  }

  // ---- what ends it ------------------------------------------------------------------------

  lemma KeyAtTheEnd(v: Viewer, key: nat -> bool)
    requires BetweenRows(v) && key(v.frames + 1)
    ensures var u := Feed(v, FRAME_END, key);
      u.done && u.stop && u.blits == v.blits && u.frames == v.frames + 1
  {
    hide Feed;
    FeedWhole(v, FRAME_END, key);
    assert [] + FRAME_END == FRAME_END;
    assert Rd16(FRAME_END, 0) == END_OF_FRAME;
  }

  lemma {:induction false} StreamStarts(frames: seq<Frame>, n: nat) returns (rest: seq<Byte>)
    requires n <= |frames|
    ensures Stream(frames) == Stream(frames[..n]) + rest
  {
    hide FrameMessage;
    if n == |frames| {
      assert frames[..n] == frames;
      rest := [];
    } else {
      var last := |frames| - 1;
      assert frames[..last][..n] == frames[..n];
      var more := StreamStarts(frames[..last], n);
      rest := more + FrameMessage(if last > 0 then Some(frames[last - 1]) else None, frames[last]);
    }
  }

  /** A key pressed while the nth picture is coming ends the stream with that picture whole on the panel:
      nothing sent after it is shown or counted. */
  lemma KeyStopsTheStream(panel: Frame, frames: seq<Frame>, chunks: seq<seq<Byte>>, key: nat -> bool, n: nat)
    requires 1 <= n <= |frames| && Joined(chunks) == Stream(frames)
    requires key(n) && forall m :: 1 <= m < n ==> !key(m)
    ensures var u := FeedChunks(START, chunks, key);
      u.done && u.stop && u.frames == n && Drawn(panel, u.blits) == frames[n - 1]
  {
    hide Feed, Stream, FeedChunks, Joined, FrameMessage, Rows, Drawn;
    ChunksDoNotMatter(START, chunks, key);
    var rest := StreamStarts(frames, n);
    FeedAppend(START, Stream(frames[..n]), rest, key);
    StopsAfter(panel, frames[..n], key);
    NoMore(Feed(START, Stream(frames[..n]), key), rest, key);
  }

  lemma StopsAfter(panel: Frame, frames: seq<Frame>, key: nat -> bool)
    requires frames != [] && key(|frames|) && forall m :: 1 <= m < |frames| ==> !key(m)
    ensures var u := Feed(START, Stream(frames), key);
      u.done && u.stop && u.frames == |frames| && Drawn(panel, u.blits) == frames[|frames| - 1]
  {
    hide Feed, Rows, Drawn;
    var n := |frames| - 1;
    StreamIsShown(panel, frames[..n], key);
    var v := Feed(START, Stream(frames[..n]), key);
    var prev := if n > 0 then Some(frames[n - 1]) else None;
    assert n > 0 ==> frames[..n][n - 1] == frames[n - 1];
    RowsAreDrawn(v, panel, prev, frames[n], H, key);
    var u := Feed(v, Rows(prev, frames[n], H), key);
    KeyAtTheEnd(u, key);
    FeedAppend(v, Rows(prev, frames[n], H), FRAME_END, key);
    FeedAppend(START, Stream(frames[..n]), FrameMessage(prev, frames[n]), key);
    assert Drawn(panel, u.blits) == frames[n];
  }

  /** Any row of at most 700 bytes, whatever they are, is taken whole; it is shown where its header says if they
      decode and the panel has such a row. */
  lemma RowIsTaken(v: Viewer, y: nat, raw: seq<Byte>, key: nat -> bool)
    requires BetweenRows(v) && y < 0xFFFF && 0 < |raw| <= 700
    ensures var u := Feed(v, Word(y) + Word(|raw|) + raw, key);
      BetweenRows(u) && u.frames == v.frames && u.stop == v.stop
      && u.blits == v.blits + if Decode(raw, []).Some? && y < 135 then [Blit(y, Decode(raw, []).value)] else []
  {
    hide Decode, Feed;
    var h := Word(y) + Word(|raw|);
    FeedAppend(v, h, raw, key);
    FeedWhole(v, h, key);
    assert [] + h == h;
    assert Rd16(h, 0) == y && Rd16(h, 2) == |raw|;
    var u := Feed(v, h, key);
    assert u == v.(want := Payload, y := y, need := |raw|);
    FeedWhole(u, raw, key);
    assert [] + raw == raw;
  }

  /** A greeting that is not SCR1 ends it, and so does the header of a row of no bytes, or of more than a row
      can take; no key stopped it. */
  lemma BadBytesEnd(v: Viewer, d: seq<Byte>, h: seq<Byte>, key: nat -> bool)
    requires |d| == 8 && d[..4] != [0x53, 0x43, 0x52, 0x31]
    requires BetweenRows(v) && |h| == 4 && h[..2] != [0xFF, 0xFF]
    requires Rd16(h, 2) == 0 || Rd16(h, 2) > 700
    ensures var u := Feed(START, d, key); u.done && !u.stop && u.blits == [] && u.frames == 0
    ensures var u := Feed(v, h, key); u.done && u.stop == v.stop && u.blits == v.blits && u.frames == v.frames
  {
    hide Feed;
    assert [] + d == d && [] + h == h;
    FeedWhole(START, d, key);
    FeedWhole(v, h, key);
  }
}
