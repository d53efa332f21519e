/**
 The CPU-side frame buffer of a headless display: header checks, resize, and the full-frame
 and dirty-rectangle copies of `display_recv_thread`.

 Sizes are the program's: everything below is in `int`, with lemmas that the 32-bit
 unsigned arithmetic of the program does not wrap.
 */
module FrameBuffer {
  import opened Common

  const MAX_RECTS: nat := 64
  const MAX_DATA: nat := 1920 * 1080 * 4
  const MAX_W: nat := 7680
  const MAX_H: nat := 4320

  /** `FrameHeader`; the fields are unsigned 32-bit values. */
  datatype Header = Header(width: nat, height: nat, stride: nat, rectCount: nat)

  /** A signed `RECT` as received. */
  datatype Rect = Rect(left: int, top: int, right: int, bottom: int)

  /** The checks a frame passes before it is applied. */
  predicate Acceptable(hdr: Header, rects: seq<Rect>, data: seq<byte>) {
    && 0 < hdr.width <= MAX_W && 0 < hdr.height <= MAX_H && hdr.stride >= hdr.width * 4
    && hdr.rectCount <= MAX_RECTS && |rects| == hdr.rectCount
    && |data| <= MAX_DATA
  }

  // ---- The specification, byte by byte ----

  /** A rectangle after clipping, and where its pixels start in the payload. */
  datatype Blit = Blit(left: nat, top: nat, right: nat, bottom: nat, at: nat)

  function Clip(r: Rect, width: nat, height: nat): Rect {
    Rect(Max(r.left, 0), Max(r.top, 0), Min(r.right, width), Min(r.bottom, height))
  }

  predicate Empty(r: Rect) {
    r.left >= r.right || r.top >= r.bottom
  }

  /** Payload bytes of a clipped rectangle. */
  function Size(b: Blit): int {
    (b.right - b.left) * 4 * (b.bottom - b.top)
  }

  predicate Fits(b: Blit, width: nat, height: nat, dataSize: nat) {
    b.left < b.right <= width && b.top < b.bottom <= height && b.at + Size(b) <= dataSize
  }

  /**
   The rectangles that are applied: empty ones are skipped, and the first that the payload cannot fill ends the
   list.
   */
  function Blits(rects: seq<Rect>, width: nat, height: nat, dataSize: nat, at: nat): seq<Blit> {
    if rects == [] then []
    else
      var c := Clip(rects[0], width, height);
      if Empty(c) then Blits(rects[1..], width, height, dataSize, at)
      else
        var b := Blit(c.left, c.top, c.right, c.bottom, at);
        if at + Size(b) > dataSize then []
        else
          SizePositive(b);
          [b] + Blits(rects[1..], width, height, dataSize, at + Size(b))
  }

  lemma SizePositive(b: Blit)
    requires b.left < b.right && b.top < b.bottom
    ensures Size(b) > 0
  {
  }

  /** Byte `x` (0 .. 4*width) of row `y` lies in the rectangle. */
  predicate Covers(b: Blit, x: int, y: int) {
    b.top <= y < b.bottom && 4 * b.left <= x < 4 * b.right
  }

  /** Payload position of a covered byte. */
  function Source(b: Blit, x: int, y: int): int {
    b.at + (y - b.top) * ((b.right - b.left) * 4) + (x - 4 * b.left)
  }

  lemma SourceInside(b: Blit, x: int, y: int)
    requires Covers(b, x, y)
    ensures b.at <= Source(b, x, y) < b.at + Size(b)
  {
    var w, h, row := (b.right - b.left) * 4, b.bottom - b.top, y - b.top;
    MulNonneg(row, w);
    MulAdd(row, 1, w);
    MulMono(row + 1, h, w);
  }

  /** The payload byte of a covered position; 0 for any other. */
  function DataAt(b: Blit, data: seq<byte>, x: int, y: int): byte
    requires b.at + Size(b) <= |data|
  {
    if Covers(b, x, y) then
      SourceInside(b, x, y);
      data[Source(b, x, y)]
    else 0
  }

  /** One byte of the picture after the blits: the last one that covers it decides. */
  function ByteAfter(before: byte, blits: seq<Blit>, data: seq<byte>, x: int, y: int): byte
    requires forall b :: b in blits ==> b.at + Size(b) <= |data|
  {
    if blits == [] then before
    else
      var b := blits[|blits| - 1];
      if Covers(b, x, y) then DataAt(b, data, x, y) else ByteAfter(before, blits[..|blits| - 1], data, x, y)
  }

  /** The last covering rectangle wins ... */
  lemma {:induction false} LastCoveringWins(before: byte, blits: seq<Blit>, data: seq<byte>, x: int, y: int, i: nat)
    requires forall b :: b in blits ==> b.at + Size(b) <= |data|
    requires i < |blits| && Covers(blits[i], x, y) && forall j :: i < j < |blits| ==> !Covers(blits[j], x, y)
    ensures 0 <= Source(blits[i], x, y) < |data|
    ensures ByteAfter(before, blits, data, x, y) == data[Source(blits[i], x, y)]
    decreases |blits|
  {
    SourceInside(blits[i], x, y);
    if i < |blits| - 1 {
      LastCoveringWins(before, blits[..|blits| - 1], data, x, y, i);
    }
  }

  /** ... and a byte that no rectangle covers keeps its value. */
  lemma {:induction false} UncoveredKeeps(before: byte, blits: seq<Blit>, data: seq<byte>, x: int, y: int)
    requires forall b :: b in blits ==> b.at + Size(b) <= |data|
    requires forall i :: 0 <= i < |blits| ==> !Covers(blits[i], x, y)
    ensures ByteAfter(before, blits, data, x, y) == before
  {
    if blits != [] {
      UncoveredKeeps(before, blits[..|blits| - 1], data, x, y);
    }
  }

  /** A rectangle covers all four bytes of a pixel or none. */
  lemma WholePixels(b: Blit, px: int, y: int, i: int)
    requires 0 <= i < 4
    ensures Covers(b, 4 * px + i, y) <==> InRect(b, px, y)
  {
  }

  /** Applied rectangles lie in the frame and in the payload, and follow one another in it. */
  lemma {:induction false} BlitsFit(rects: seq<Rect>, width: nat, height: nat, dataSize: nat, at: nat)
    requires at <= dataSize
    ensures forall b :: b in Blits(rects, width, height, dataSize, at) ==>
              at <= b.at && Fits(b, width, height, dataSize)
  {
    if rects != [] {
      var c := Clip(rects[0], width, height);
      if Empty(c) {
        BlitsFit(rects[1..], width, height, dataSize, at);
      } else {
        var b := Blit(c.left, c.top, c.right, c.bottom, at);
        if at + Size(b) <= dataSize {
          SizePositive(b);
          BlitsFit(rects[1..], width, height, dataSize, at + Size(b));
        }
      }
    }
  }

  /** The program's unsigned 32-bit products do not wrap for acceptable headers. */
  lemma NoWrapAround(width: nat, height: nat, b: Blit)
    requires width <= MAX_W && height <= MAX_H
    requires b.left < b.right <= width && b.top < b.bottom <= height
    ensures width * 4 * height < 0x1_0000_0000 && Size(b) < 0x1_0000_0000
  {
    FitsWord(width * 4, height);
    FitsWord((b.right - b.left) * 4, b.bottom - b.top);
  }

  lemma FitsWord(w: nat, h: nat)
    requires w <= MAX_W * 4 && h <= MAX_H
    ensures w * h < 0x1_0000_0000
  {
    MulMono(h, MAX_H, w);
  }

  // ---- Addressing ----

  /** Address of byte `x` of row `y`. */
  function Index(stride: int, x: int, y: int): int {
    y * stride + x
  }

  lemma IndexInside(stride: int, height: int, x: int, y: int)
    requires 0 <= x < stride && 0 <= y < height
    ensures 0 <= Index(stride, x, y) < stride * height
  {
    MulNonneg(y, stride);
    MulAdd(y, 1, stride);
    MulMono(y + 1, height, stride);
  }

  /** A span inside one row touches no other row. */
  lemma IndexInSpan(stride: int, x: int, y: int, row: int, lo: int, hi: int)
    requires 0 <= x < stride && 0 <= lo <= hi <= stride
    ensures Index(stride, lo, row) <= Index(stride, x, y) < Index(stride, hi, row) <==> y == row && lo <= x < hi
  {
    if y < row {
      MulAdd(y, 1, stride);
      MulMono(y + 1, row, stride);
    } else if y > row {
      MulAdd(row, 1, stride);
      MulMono(row + 1, y, stride);
    }
  }

  /** Byte `x` of row `y` of a frame. */
  ghost function Px(bytes: seq<byte>, stride: int, height: int, x: int, y: int): byte
    requires |bytes| == stride * height && 0 <= x < stride && 0 <= y < height
  {
    IndexInside(stride, height, x, y);
    bytes[Index(stride, x, y)]
  }

  // ---- Pictures ----

  /** `now` is `before` with the rectangles drawn over it in order. */
  ghost predicate Shows(stride: int, height: int, before: seq<byte>, now: seq<byte>, blits: seq<Blit>,
        data: seq<byte>) {
    && |before| == |now| == stride * height
    && (forall b :: b in blits ==> b.at + Size(b) <= |data|)
    && forall x, y {:trigger Px(now, stride, height, x, y)} | 0 <= x < stride && 0 <= y < height ::
         Px(now, stride, height, x, y) == ByteAfter(Px(before, stride, height, x, y), blits, data, x, y)
  }

  lemma ShowsNothing(stride: int, height: int, bytes: seq<byte>, data: seq<byte>)
    requires |bytes| == stride * height
    ensures Shows(stride, height, bytes, bytes, [], data)
  {
  }

  lemma ShowsOneMore(stride: int, height: int, before: seq<byte>, mid: seq<byte>, now: seq<byte>,
                     blits: seq<Blit>, b: Blit, data: seq<byte>)
    requires Shows(stride, height, before, mid, blits, data) && Shows(stride, height, mid, now, [b], data)
    ensures Shows(stride, height, before, now, blits + [b], data)
  {
    var all := blits + [b];
    assert all[..|all| - 1] == blits && all[|all| - 1] == b;
    forall x, y | 0 <= x < stride && 0 <= y < height
      ensures Px(now, stride, height, x, y) == ByteAfter(Px(before, stride, height, x, y), all, data, x, y)
    {
      var was := Px(mid, stride, height, x, y);
      assert [b][..0] == [];
      assert ByteAfter(was, [b], data, x, y) == if Covers(b, x, y) then DataAt(b, data, x, y) else was;
    }
  }

  /** One turn of the specification at rectangle `i`. */
  lemma BlitsTurn(rects: seq<Rect>, i: nat, width: nat, height: nat, dataSize: nat, at: nat)
    requires i < |rects| && at <= dataSize
    ensures var c := Clip(rects[i], width, height);
            var b := Blit(Max(c.left, 0), Max(c.top, 0), Max(c.right, 0), Max(c.bottom, 0), at);
            && (Empty(c) ==>
                  Blits(rects[i..], width, height, dataSize, at) == Blits(rects[i + 1..], width, height, dataSize, at))
            && (!Empty(c) ==>
                  && 0 <= c.right && 0 <= c.bottom && Size(b) > 0
                  && (at + Size(b) > dataSize ==> Blits(rects[i..], width, height, dataSize, at) == [])
                  && (at + Size(b) <= dataSize ==>
                        && Fits(b, width, height, dataSize)
                        && Blits(rects[i..], width, height, dataSize, at)
                           == [b] + Blits(rects[i + 1..], width, height, dataSize, at + Size(b))))
  {
    assert rects[i..][0] == rects[i] && rects[i..][1..] == rects[i + 1..];
    var c := Clip(rects[i], width, height);
    if !Empty(c) {
      SizePositive(Blit(c.left, c.top, c.right, c.bottom, at));
    }
  }

  lemma ShowsAt(stride: int, height: nat, before: seq<byte>, now: seq<byte>, blits: seq<Blit>, data: seq<byte>,
        x: int, y: int)
    requires Shows(stride, height, before, now, blits, data) && 0 <= x < stride && 0 <= y < height
    ensures |before| == |now| == stride * height && forall b :: b in blits ==> b.at + Size(b) <= |data|
    ensures Px(now, stride, height, x, y) == ByteAfter(Px(before, stride, height, x, y), blits, data, x, y)
  {
    hide ByteAfter, Px;
  }

  lemma SourceOfPixel(b: Blit, px: int, y: int, channel: int)
    ensures Source(b, 4 * px + channel, y) == PixelSource(b, px, y) + channel
  {
  }

  predicate InRect(b: Blit, px: int, y: int) {
    b.left <= px < b.right && b.top <= y < b.bottom
  }

  /** Rectangle `i` is the last that contains the pixel. */
  predicate OnTop(blits: seq<Blit>, i: int, px: int, y: int) {
    0 <= i < |blits| && InRect(blits[i], px, y) && forall j :: i < j < |blits| ==> !InRect(blits[j], px, y)
  }

  /** The payload packs the rows of a rectangle one after another, four bytes a pixel. */
  function PixelSource(b: Blit, px: int, y: int): int {
    b.at + (y - b.top) * ((b.right - b.left) * 4) + 4 * (px - b.left)
  }

  /** A frame without rectangles replaces the rows its payload holds, from `payloadStride` apart, and no other. */
  ghost predicate ShowsRows(stride: int, height: int, before: seq<byte>, now: seq<byte>, payloadStride: posint,
                            data: seq<byte>, rows: int)
  {
    && |before| == |now| == stride * height && stride <= payloadStride && 0 <= rows <= |data| / payloadStride
    && forall x, y {:trigger Px(now, stride, height, x, y)} | 0 <= x < stride && 0 <= y < height ::
         Px(now, stride, height, x, y)
                   == if y < rows then RowByte(payloadStride, data, x, y) else Px(before, stride, height, x, y)
  }

  function RowByte(payloadStride: posint, data: seq<byte>, x: int, y: int): byte
    requires 0 <= x < payloadStride && 0 <= y < |data| / payloadStride
  {
    RowInPayload(payloadStride, |data|, y);
    data[y * payloadStride + x]
  }

  lemma RowInPayload(payloadStride: posint, dataSize: nat, y: int)
    requires 0 <= y < dataSize / payloadStride
    ensures 0 <= y * payloadStride && y * payloadStride + payloadStride <= dataSize
  {
    var n := dataSize / payloadStride;
    assert n * payloadStride <= dataSize;
    MulNonneg(y, payloadStride);
    MulAdd(y, 1, payloadStride);
    MulMono(y + 1, n, payloadStride);
  }


  // ---- Pictures in terms of the rectangles received ----

  /** The pixel lies in a rectangle as it was received. */
  predicate Inside(r: Rect, px: int, y: int) {
    r.left <= px < r.right && r.top <= y < r.bottom
  }

  /** How many of `0 .. n` lie in `lo .. hi`. */
  function CountIn(lo: int, hi: int, n: nat): (k: nat)
    ensures k <= n
  {
    if n == 0 then 0 else CountIn(lo, hi, n - 1) + if lo <= n - 1 < hi then 1 else 0
  }

  /** Payload bytes of a rectangle: four for every pixel of the frame in it. */
  function PayloadBytes(r: Rect, width: nat, height: nat): nat {
    4 * CountIn(r.left, r.right, width) * CountIn(r.top, r.bottom, height)
  }

  /** Payload bytes of some rectangles one after another. */
  function AllPayloadBytes(rects: seq<Rect>, width: nat, height: nat): nat {
    if rects == [] then 0 else PayloadBytes(rects[0], width, height) + AllPayloadBytes(rects[1..], width, height)
  }

  /** Rectangle `i` contains the pixel and is within the payload. */
  predicate Draws(rects: seq<Rect>, i: int, width: nat, height: nat, dataSize: int, px: int, y: int) {
    0 <= i < |rects| && Inside(rects[i], px, y) && AllPayloadBytes(rects[..i + 1], width, height) <= dataSize
  }

  /** It is the last that does. */
  predicate DrawsLast(rects: seq<Rect>, i: int, width: nat, height: nat, dataSize: int, px: int, y: int) {
    && Draws(rects, i, width, height, dataSize, px, y)
    && forall j :: i < j < |rects| ==> !Draws(rects, j, width, height, dataSize, px, y)
  }

  /** No rectangle within the payload contains the pixel. */
  predicate NobodyDraws(rects: seq<Rect>, width: nat, height: nat, dataSize: int, px: int, y: int) {
    forall j :: 0 <= j < |rects| ==> !Draws(rects, j, width, height, dataSize, px, y)
  }

  /** Where its pixel is in the payload: behind the earlier rectangles, rows and pixels. */
  function PayloadAt(rects: seq<Rect>, i: nat, width: nat, height: nat, px: nat, y: nat): nat
    requires i < |rects|
  {
    var r := rects[i];
    AllPayloadBytes(rects[..i], width, height)
    + 4 * (CountIn(r.top, r.bottom, y) * CountIn(r.left, r.right, width) + CountIn(r.left, r.right, px))
  }

  lemma {:induction false} CountIs(lo: int, hi: int, n: nat)
    ensures CountIn(lo, hi, n) == Max(0, Min(hi, n) - Max(lo, 0))
  {
    if n > 0 {
      CountIs(lo, hi, n - 1);
    }
  }

  /** A pixel of the frame lies in the clipped rectangle exactly when it lies in the one received. */
  lemma ClipKeepsPixels(r: Rect, width: nat, height: nat, px: nat, y: nat)
    requires px < width && y < height
    ensures Inside(Clip(r, width, height), px, y) <==> Inside(r, px, y)
  {
  }

  /** A rectangle is empty after clipping exactly when it holds no pixel of the frame; it has no payload then. */
  lemma EmptyIff(r: Rect, width: nat, height: nat)
    ensures Empty(Clip(r, width, height)) <==> forall px, y | 0 <= px < width && 0 <= y < height :: !Inside(r, px, y)
    ensures Empty(Clip(r, width, height)) ==> PayloadBytes(r, width, height) == 0
  {
    var c := Clip(r, width, height);
    CountIs(r.left, r.right, width);
    CountIs(r.top, r.bottom, height);
    if !Empty(c) {
      assert Inside(r, c.left, c.top);
    }
  }

  /** The blit of a rectangle that is applied at `at`. */
  function BlitOf(r: Rect, width: nat, height: nat, at: nat): Blit
    requires !Empty(Clip(r, width, height))
  {
    var c := Clip(r, width, height);
    Blit(c.left, c.top, c.right, c.bottom, at)
  }

  /** It has the payload bytes of the rectangle and holds the same pixels. */
  lemma BlitHolds(r: Rect, width: nat, height: nat, at: nat, px: nat, y: nat)
    requires px < width && y < height && !Empty(Clip(r, width, height))
    ensures var b := BlitOf(r, width, height, at);
            b.at == at && Size(b) == PayloadBytes(r, width, height) && (InRect(b, px, y) <==> Inside(r, px, y))
  {
    ClipKeepsPixels(r, width, height, px, y);
    CountIs(r.left, r.right, width);
    CountIs(r.top, r.bottom, height);
    var b := BlitOf(r, width, height, at);
    Commute(b.right - b.left, b.bottom - b.top);
    hide CountIn;
  }

  lemma Commute(w: int, h: int)
    ensures w * 4 * h == 4 * w * h && w * (h * 4) == 4 * (w * h)
  {
  }

  lemma PixelOffset(at: int, row: int, w: int, column: int)
    ensures at + row * (w * 4) + 4 * column == at + 4 * (row * w + column)
  {
    Commute(row, w);
  }

  /** Each pixel has its place among them. */
  lemma BlitSource(r: Rect, width: nat, height: nat, at: nat, px: nat, y: nat)
    requires px < width && y < height && !Empty(Clip(r, width, height)) && Inside(r, px, y)
    ensures PixelSource(BlitOf(r, width, height, at), px, y)
            == at + 4 * (CountIn(r.top, r.bottom, y) * CountIn(r.left, r.right, width) + CountIn(r.left, r.right, px))
  {
    hide *;
    var b := BlitOf(r, width, height, at);
    BlitCounts(r, width, height, at, px, y);
    SourceAs(b, px, y, CountIn(r.top, r.bottom, y), CountIn(r.left, r.right, width), CountIn(r.left, r.right, px));
  }

  lemma SourceAs(b: Blit, px: int, y: int, rows: int, w: int, columns: int)
    requires rows == y - b.top && w == b.right - b.left && columns == px - b.left
    ensures PixelSource(b, px, y) == b.at + 4 * (rows * w + columns)
  {
    PixelOffset(b.at, rows, w, columns);
  }

  lemma BlitCounts(r: Rect, width: nat, height: nat, at: nat, px: nat, y: nat)
    requires px < width && y < height && !Empty(Clip(r, width, height)) && Inside(r, px, y)
    ensures var b := BlitOf(r, width, height, at);
            && b.at == at && CountIn(r.top, r.bottom, y) == y - b.top
            && CountIn(r.left, r.right, width) == b.right - b.left && CountIn(r.left, r.right, px) == px - b.left
  {
    CountIs(r.left, r.right, width);
    CountIs(r.left, r.right, px);
    CountIs(r.top, r.bottom, y);
    hide CountIn;
  }

  lemma BytesFront(rects: seq<Rect>, i: nat, width: nat, height: nat)
    requires 0 < i <= |rects|
    ensures AllPayloadBytes(rects[..i], width, height)
            == PayloadBytes(rects[0], width, height) + AllPayloadBytes(rects[1..][..i - 1], width, height)
  {
    assert rects[..i][1..] == rects[1..][..i - 1];
  }

  lemma DrawsTail(rects: seq<Rect>, j: nat, width: nat, height: nat, dataSize: int, px: int, y: int)
    requires 0 < j < |rects|
    ensures Draws(rects, j, width, height, dataSize, px, y)
            <==> Draws(rects[1..], j - 1, width, height, dataSize - PayloadBytes(rects[0], width, height), px, y)
  {
    BytesFront(rects, j + 1, width, height);
    hide PayloadBytes, AllPayloadBytes;
  }

  lemma DrawsHead(rects: seq<Rect>, width: nat, height: nat, dataSize: int, px: int, y: int)
    requires rects != []
    ensures Draws(rects, 0, width, height, dataSize, px, y)
            <==> Inside(rects[0], px, y) && PayloadBytes(rects[0], width, height) <= dataSize
    ensures PayloadBytes(rects[0], width, height) > dataSize ==> NobodyDraws(rects, width, height, dataSize, px, y)
  {
    hide PayloadBytes;
    BytesFront(rects, 1, width, height);
    if PayloadBytes(rects[0], width, height) > dataSize {
      forall j | 0 <= j < |rects|
        ensures !Draws(rects, j, width, height, dataSize, px, y)
      {
        BytesFront(rects, j + 1, width, height);
      }
    }
  }

  lemma NobodyBehind(rects: seq<Rect>, i: nat, width: nat, height: nat, dataSize: int, room: int, px: int, y: int)
    requires rects != [] && room == dataSize - PayloadBytes(rects[0], width, height)
    requires forall j :: i < j < |rects| ==> !Draws(rects, j, width, height, dataSize, px, y)
    ensures forall j :: i <= j < |rects| - 1 ==> !Draws(rects[1..], j, width, height, room, px, y)
  {
    forall j | i <= j < |rects| - 1
      ensures !Draws(rects[1..], j, width, height, room, px, y)
    {
      DrawsTail(rects, j + 1, width, height, dataSize, px, y);
    }
  }

  lemma LastBehind(rects: seq<Rect>, i: nat, width: nat, height: nat, dataSize: int, px: int, y: int)
    requires i > 0 && DrawsLast(rects, i, width, height, dataSize, px, y)
    ensures DrawsLast(rects[1..], i - 1, width, height, dataSize - PayloadBytes(rects[0], width, height), px, y)
  {
    DrawsTail(rects, i, width, height, dataSize, px, y);
    NobodyBehind(rects, i, width, height, dataSize, dataSize - PayloadBytes(rects[0], width, height), px, y);
    hide Draws, PayloadBytes;
  }

  /** How the applied rectangles begin. */
  lemma BlitsHead(rects: seq<Rect>, width: nat, height: nat, dataSize: nat, at: nat)
    requires rects != []
    ensures var rest := rects[1..];
            var size := PayloadBytes(rects[0], width, height);
            if Empty(Clip(rects[0], width, height)) then
              size == 0 && Blits(rects, width, height, dataSize, at) == Blits(rest, width, height, dataSize, at)
            else if at + size > dataSize then Blits(rects, width, height, dataSize, at) == []
            else Blits(rects, width, height, dataSize, at)
                 == [BlitOf(rects[0], width, height, at)] + Blits(rest, width, height, dataSize, at + size)
  {
    EmptyIff(rects[0], width, height);
    if !Empty(Clip(rects[0], width, height)) {
      var c := Clip(rects[0], width, height);
      BlitHolds(rects[0], width, height, at, c.left, c.top);
    }
    hide PayloadBytes, Clip, Size;
  }

  lemma NobodyRest(rects: seq<Rect>, width: nat, height: nat, dataSize: int, room: int, px: int, y: int)
    requires rects != [] && room == dataSize - PayloadBytes(rects[0], width, height)
    requires NobodyDraws(rects, width, height, dataSize, px, y) || DrawsLast(rects, 0, width, height, dataSize, px, y)
    ensures NobodyDraws(rects[1..], width, height, room, px, y)
  {
    hide Draws, PayloadBytes;
    NobodyBehind(rects, 0, width, height, dataSize, room, px, y);
  }

  /** A pixel that the first rectangle does not draw, but would have room for, is not in it. */
  lemma NotInFirst(rects: seq<Rect>, width: nat, height: nat, dataSize: int, px: int, y: int)
    requires rects != [] && NobodyDraws(rects, width, height, dataSize, px, y)
    requires PayloadBytes(rects[0], width, height) <= dataSize
    ensures !Inside(rects[0], px, y)
  {
    DrawsHead(rects, width, height, dataSize, px, y);
    hide Draws, PayloadBytes, Inside;
    assert !Draws(rects, 0, width, height, dataSize, px, y);
  }

  /** A pixel that no rectangle within the payload contains is in no applied one. */
  lemma {:induction false} NoneDraws(rects: seq<Rect>, width: nat, height: nat, dataSize: nat, at: nat, px: nat, y: nat)
    requires px < width && y < height && at <= dataSize
    requires NobodyDraws(rects, width, height, dataSize - at, px, y)
    ensures forall b :: b in Blits(rects, width, height, dataSize, at) ==> !InRect(b, px, y)
  {
    if rects == [] {
      BlitsDone(rects, width, height, dataSize, at);
    } else {
      hide *;
      var size := PayloadBytes(rects[0], width, height);
      BlitsHead(rects, width, height, dataSize, at);
      NobodyRest(rects, width, height, dataSize - at, dataSize - at - size, px, y);
      if Empty(Clip(rects[0], width, height)) {
        NoneDraws(rects[1..], width, height, dataSize, at, px, y);
      } else if at + size <= dataSize {
        NotInFirst(rects, width, height, dataSize - at, px, y);
        BlitHolds(rects[0], width, height, at, px, y);
        NoneDraws(rects[1..], width, height, dataSize, at + size, px, y);
      }
    }
  }

  /** The last rectangle within the payload that contains a pixel is the last applied one that does. */
  lemma {:induction false} LastDraws(rects: seq<Rect>, i: nat, width: nat, height: nat, dataSize: nat, at: nat, px: nat,
                                     y: nat) returns (k: nat)
    requires px < width && y < height && at <= dataSize && i < |rects|
    requires DrawsLast(rects, i, width, height, dataSize - at, px, y)
    ensures Shown(Blits(rects, width, height, dataSize, at), k, px, y, at + PayloadAt(rects, i, width, height, px, y))
  {
    hide *;
    var size := PayloadBytes(rects[0], width, height);
    BlitsHead(rects, width, height, dataSize, at);
    RoomForFirst(rects, i, width, height, dataSize - at, px, y);
    if i == 0 {
      FirstIsLast(rects, width, height, dataSize, at, px, y);
      k := 0;
    } else {
      LastBehind(rects, i, width, height, dataSize - at, px, y);
      NextAt(rects, i, width, height, px, y);
      if Empty(Clip(rects[0], width, height)) {
        k := LastDraws(rects[1..], i - 1, width, height, dataSize, at, px, y);
      } else {
        k := LastDraws(rects[1..], i - 1, width, height, dataSize, at + size, px, y);
        LaterOnTop(BlitOf(rects[0], width, height, at), Blits(rects[1..], width, height, dataSize, at + size), k, px, y,
                   at + PayloadAt(rects, i, width, height, px, y));
        k := k + 1;
      }
    }
  }

  /** Blit `k` is the last that contains the pixel, which is at `source` in the payload. */
  predicate Shown(blits: seq<Blit>, k: int, px: int, y: int, source: int) {
    OnTop(blits, k, px, y) && PixelSource(blits[k], px, y) == source
  }

  lemma RoomForFirst(rects: seq<Rect>, i: nat, width: nat, height: nat, dataSize: int, px: int, y: int)
    requires i < |rects| && DrawsLast(rects, i, width, height, dataSize, px, y)
    ensures PayloadBytes(rects[0], width, height) <= dataSize
  {
    DrawsHead(rects, width, height, dataSize, px, y);
    hide Draws, PayloadBytes;
  }

  lemma FirstIsLast(rects: seq<Rect>, width: nat, height: nat, dataSize: nat, at: nat, px: nat, y: nat)
    requires px < width && y < height && at <= dataSize && rects != []
    requires DrawsLast(rects, 0, width, height, dataSize - at, px, y)
    ensures Shown(Blits(rects, width, height, dataSize, at), 0, px, y, at + PayloadAt(rects, 0, width, height, px, y))
  {
    hide *;
    var size := PayloadBytes(rects[0], width, height);
    InsideFirst(rects, width, height, dataSize - at, px, y);
    NobodyRest(rects, width, height, dataSize - at, dataSize - at - size, px, y);
    BlitsHead(rects, width, height, dataSize, at);
    RoomForFirst(rects, 0, width, height, dataSize - at, px, y);
    NoneDraws(rects[1..], width, height, dataSize, at + size, px, y);
    BlitHolds(rects[0], width, height, at, px, y);
    BlitSource(rects[0], width, height, at, px, y);
    FirstAt(rects, width, height, px, y);
    FirstOnTop(BlitOf(rects[0], width, height, at), Blits(rects[1..], width, height, dataSize, at + size), px, y,
               at + PayloadAt(rects, 0, width, height, px, y));
  }

  lemma InsideFirst(rects: seq<Rect>, width: nat, height: nat, dataSize: int, px: nat, y: nat)
    requires px < width && y < height && rects != [] && DrawsLast(rects, 0, width, height, dataSize, px, y)
    ensures Inside(rects[0], px, y) && !Empty(Clip(rects[0], width, height))
  {
    EmptyIff(rects[0], width, height);
    hide PayloadBytes, AllPayloadBytes;
  }

  lemma FirstOnTop(b: Blit, rest: seq<Blit>, px: int, y: int, source: int)
    requires InRect(b, px, y) && PixelSource(b, px, y) == source && forall b' :: b' in rest ==> !InRect(b', px, y)
    ensures Shown([b] + rest, 0, px, y, source)
  {
    hide InRect, PixelSource;
  }

  lemma LaterOnTop(b: Blit, rest: seq<Blit>, k: nat, px: int, y: int, source: int)
    requires Shown(rest, k, px, y, source)
    ensures Shown([b] + rest, k + 1, px, y, source)
  {
    hide InRect, PixelSource;
  }

  lemma FirstAt(rects: seq<Rect>, width: nat, height: nat, px: nat, y: nat)
    requires rects != []
    ensures var r := rects[0];
            PayloadAt(rects, 0, width, height, px, y)
            == 4 * (CountIn(r.top, r.bottom, y) * CountIn(r.left, r.right, width) + CountIn(r.left, r.right, px))
  {
    hide CountIn;
  }

  lemma NextAt(rects: seq<Rect>, i: nat, width: nat, height: nat, px: nat, y: nat)
    requires 0 < i < |rects|
    ensures PayloadAt(rects, i, width, height, px, y)
            == PayloadBytes(rects[0], width, height) + PayloadAt(rects[1..], i - 1, width, height, px, y)
  {
    BytesFront(rects, i, width, height);
    hide CountIn, PayloadBytes, AllPayloadBytes;
  }

  /** What a pixel is after `rects` have been drawn from `data` over `before`. */
  ghost predicate PixelIs(width: nat, height: nat, before: seq<byte>, now: seq<byte>, rects: seq<Rect>, data: seq<byte>,
                          px: nat, y: nat, channel: nat)
    requires |before| == |now| == width * 4 * height && px < width && y < height && channel < 4
  {
    var x, seen := 4 * px + channel, Px(now, width * 4, height, 4 * px + channel, y);
    && (forall i: nat | i < |rects| && DrawsLast(rects, i, width, height, |data|, px, y) ::
          var at := PayloadAt(rects, i, width, height, px, y) + channel;
          at < |data| && seen == data[at])
    && (NobodyDraws(rects, width, height, |data|, px, y) ==> seen == Px(before, width * 4, height, x, y))
  }

  /**
   `now` is `before` with the received rectangles drawn over it: each pixel comes from the last one within the payload
   that contains it, at its place there, and keeps its bytes if there is none.
   */
  ghost predicate DrawnOver(width: nat, height: nat, before: seq<byte>, now: seq<byte>, rects: seq<Rect>,
                            data: seq<byte>)
  {
    && |before| == |now| == width * 4 * height
    && forall px: nat, y: nat, channel: nat | px < width && y < height && channel < 4 ::
         PixelIs(width, height, before, now, rects, data, px, y, channel)
  }

  /** The two cases of `PixelIs` are all there are. */
  lemma {:induction false} SomebodyDrawsLast(rects: seq<Rect>, n: nat, width: nat, height: nat, dataSize: int, px: int,
                                             y: int)
    requires n <= |rects| && forall j :: n <= j < |rects| ==> !Draws(rects, j, width, height, dataSize, px, y)
    ensures NobodyDraws(rects, width, height, dataSize, px, y)
            || exists i :: DrawsLast(rects, i, width, height, dataSize, px, y)
  {
    if n > 0 {
      if Draws(rects, n - 1, width, height, dataSize, px, y) {
        assert DrawsLast(rects, n - 1, width, height, dataSize, px, y);
      } else {
        SomebodyDrawsLast(rects, n - 1, width, height, dataSize, px, y);
      }
    }
  }

  /** The byte of a pixel under the last rectangle that contains it comes from that rectangle's payload ... */
  lemma PixelOnTop(width: nat, height: nat, before: seq<byte>, now: seq<byte>, rects: seq<Rect>, data: seq<byte>,
                   px: nat, y: nat, channel: nat, i: nat)
    requires px < width && y < height && channel < 4 && i < |rects|
    requires Shows(width * 4, height, before, now, Blits(rects, width, height, |data|, 0), data)
    requires DrawsLast(rects, i, width, height, |data|, px, y)
    ensures var at := PayloadAt(rects, i, width, height, px, y) + channel;
            at < |data| && Px(now, width * 4, height, 4 * px + channel, y) == data[at]
  {
    hide Blits, Shows, ByteAfter, Px, Fits, Covers, InRect, Source, PixelSource, Size, PayloadAt, Draws;
    var blits := Blits(rects, width, height, |data|, 0);
    BlitsFit(rects, width, height, |data|, 0);
    var k := LastDraws(rects, i, width, height, |data|, 0, px, y);
    var x := 4 * px + channel;
    ShowsAt(width * 4, height, before, now, blits, data, x, y);
    forall j | 0 <= j < |blits|
      ensures Covers(blits[j], x, y) <==> InRect(blits[j], px, y)
    {
      WholePixels(blits[j], px, y, channel);
    }
    SourceOfPixel(blits[k], px, y, channel);
    LastCoveringWins(Px(before, width * 4, height, x, y), blits, data, x, y, k);
  }

  /** ... and a pixel that none contains keeps its bytes. */
  lemma PixelKept(width: nat, height: nat, before: seq<byte>, now: seq<byte>, rects: seq<Rect>, data: seq<byte>,
                  px: nat, y: nat, channel: nat)
    requires px < width && y < height && channel < 4
    requires Shows(width * 4, height, before, now, Blits(rects, width, height, |data|, 0), data)
    requires NobodyDraws(rects, width, height, |data|, px, y)
    ensures Px(now, width * 4, height, 4 * px + channel, y) == Px(before, width * 4, height, 4 * px + channel, y)
  {
    hide *;
    var blits := Blits(rects, width, height, |data|, 0);
    var x := 4 * px + channel;
    NoneDraws(rects, width, height, |data|, 0, px, y);
    ShowsAt(width * 4, height, before, now, blits, data, x, y);
    forall j | 0 <= j < |blits|
      ensures !Covers(blits[j], x, y)
    {
      WholePixels(blits[j], px, y, channel);
    }
    UncoveredKeeps(Px(before, width * 4, height, x, y), blits, data, x, y);
  }

  lemma ShownIsDrawn(width: nat, height: nat, before: seq<byte>, now: seq<byte>, rects: seq<Rect>, data: seq<byte>)
    requires Shows(width * 4, height, before, now, Blits(rects, width, height, |data|, 0), data)
    ensures DrawnOver(width, height, before, now, rects, data)
  {
    assert |before| == |now| == width * 4 * height;
    forall px: nat, y: nat, channel: nat | px < width && y < height && channel < 4
      ensures PixelIs(width, height, before, now, rects, data, px, y, channel)
    {
      ShownPixel(width, height, before, now, rects, data, px, y, channel);
    }
  }

  lemma ShownPixel(width: nat, height: nat, before: seq<byte>, now: seq<byte>, rects: seq<Rect>, data: seq<byte>,
                   px: nat, y: nat, channel: nat)
    requires px < width && y < height && channel < 4
    requires |before| == |now| == width * 4 * height
    requires Shows(width * 4, height, before, now, Blits(rects, width, height, |data|, 0), data)
    ensures PixelIs(width, height, before, now, rects, data, px, y, channel)
  {
    hide Shows, Blits, NobodyDraws, PayloadAt, Px, Draws;
    forall i: nat | i < |rects| && DrawsLast(rects, i, width, height, |data|, px, y)
      ensures var at := PayloadAt(rects, i, width, height, px, y) + channel;
              at < |data| && Px(now, width * 4, height, 4 * px + channel, y) == data[at]
    {
      PixelOnTop(width, height, before, now, rects, data, px, y, channel, i);
    }
    if NobodyDraws(rects, width, height, |data|, px, y) {
      PixelKept(width, height, before, now, rects, data, px, y, channel);
    }
  }

  /** A payload of the size of the picture, without padding, becomes the picture. */
  lemma FullFrameCopies(stride: posint, height: nat, before: seq<byte>, now: seq<byte>, data: seq<byte>)
    requires |data| == stride * height && ShowsRows(stride, height, before, now, stride, data, height)
    ensures now == data
  {
    forall p | 0 <= p < |now|
      ensures now[p] == data[p]
    {
      var y, x := p / stride, p % stride;
      RowOf(stride, height, p);
      assert Px(now, stride, height, x, y) == RowByte(stride, data, x, y);
      assert Index(stride, x, y) == p;
    }
  }

  lemma RowOf(stride: posint, height: nat, p: nat)
    requires p < stride * height
    ensures p / stride < height && p == p / stride * stride + p % stride
  {
    if p / stride >= height {
      MulMono(height, p / stride, stride);
    }
  }

  lemma RowInside(b: Blit, row: int)
    requires b.left < b.right && 0 <= row < b.bottom - b.top
    ensures b.at + row * ((b.right - b.left) * 4) >= 0
    ensures b.at + row * ((b.right - b.left) * 4) + (b.right - b.left) * 4 <= b.at + Size(b)
  {
    var w, h := (b.right - b.left) * 4, b.bottom - b.top;
    MulNonneg(row, w);
    MulAdd(row, 1, w);
    MulMono(row + 1, h, w);
  }

  function Black(n: nat): (r: seq<byte>)
    ensures |r| == n && forall i :: 0 <= i < n ==> r[i] == 0
  {
    seq(n, i => 0)
  }

  // ---- The program ----

  class Display {
    var buf: array<byte>
    var width: nat
    var height: nat
    var stride: nat
    var frameDirty: bool
    var hasFrame: bool

    ghost predicate Valid()
      reads this
    {
      stride == width * 4 && buf.Length == stride * height
    }

    /** A display that has received nothing has no buffer yet. */
    constructor ()
      ensures Valid() && width == height == 0 && !hasFrame
    {
      frameDirty, hasFrame := false, false;
      buf := new byte[0];
      width, height, stride := 0, 0, 0;
    }

    /** `memcpy` of `n` payload bytes into row `y` from byte `lo` on. */
    method CopyRow(y: nat, lo: nat, n: nat, data: seq<byte>, src: nat)
      requires Valid() && y < height && lo + n <= stride && src + n <= |data|
      modifies buf
      ensures forall x', y' {:trigger Px(buf[..], stride, height, x', y')} | 0 <= x' < stride && 0 <= y' < height ::
                Px(buf[..], stride, height, x', y')
                == if y' == y && lo <= x' < lo + n then data[src + x' - lo]
                   else Px(old(buf[..]), stride, height, x', y')
    {
      var dst := y * stride + lo;
      if n > 0 {
        IndexInside(stride, height, lo, y);
        IndexInside(stride, height, lo + n - 1, y);
        forall i | 0 <= i < n {
          buf[dst + i] := data[src + i];
        }
      }
      forall x', y' | 0 <= x' < stride && 0 <= y' < height
        ensures Px(buf[..], stride, height, x', y')
                == if y' == y && lo <= x' < lo + n then data[src + x' - lo]
                   else Px(old(buf[..]), stride, height, x', y')
      {
        IndexInside(stride, height, x', y');
        IndexInSpan(stride, x', y', y, lo, lo + n);
      }
    }

    /** One clipped rectangle. */
    method CopyRect(b: Blit, data: seq<byte>)
      requires Valid() && Fits(b, width, height, |data|)
      modifies buf
      ensures Shows(stride, height, old(buf[..]), buf[..], [b], data)
    {
      var rowBytes := (b.right - b.left) * 4;
      var rectH := b.bottom - b.top;
      var row := 0;
      while row < rectH
        invariant 0 <= row <= rectH
        invariant forall x, y {:trigger Px(buf[..], stride, height, x, y)} | 0 <= x < stride && 0 <= y < height ::
                    Px(buf[..], stride, height, x, y)
                    == if Covers(b, x, y) && y < b.top + row then DataAt(b, data, x, y)
                       else Px(old(buf[..]), stride, height, x, y)
      {
        RowInside(b, row);
        CopyRow(b.top + row, b.left * 4, rowBytes, data, b.at + row * rowBytes);
        row := row + 1;
      }
      assert [b][..0] == [];
    }

    /** The dirty-rectangle loop. */
    method CopyRects(rects: seq<Rect>, data: seq<byte>)
      requires Valid()
      modifies buf
      ensures DrawnOver(width, height, old(buf[..]), buf[..], rects, data)
    {
      hide Shows, Blits, DrawnOver;
      var src, i := 0, 0;
      ghost var blits: seq<Blit> := [];
      ShowsNothing(stride, height, buf[..], data);
      assert rects[0..] == rects;
      while i < |rects|
        invariant 0 <= i <= |rects| && 0 <= src <= |data|
        invariant Blits(rects, width, height, |data|, 0) == blits + Blits(rects[i..], width, height, |data|, src)
        invariant Shows(stride, height, old(buf[..]), buf[..], blits, data)
      {
        BlitsTurn(rects, i, width, height, |data|, src);
        var left, top, right, bottom := rects[i].left, rects[i].top, rects[i].right, rects[i].bottom;
        if left < 0 { left := 0; }
        if top < 0 { top := 0; }
        if right > width { right := width; }
        if bottom > height { bottom := height; }
        i := i + 1;
        if left >= right || top >= bottom { continue; }
        var b := Blit(left, top, right, bottom, src);
        if src + (right - left) * 4 * (bottom - top) > |data| {
          assert blits + [] == blits;
          break;
        }
        ghost var mid := buf[..];
        CopyRect(b, data);
        ShowsOneMore(stride, height, old(buf[..]), mid, buf[..], blits, b, data);
        blits := blits + [b];
        src := src + Size(b);
      }
      assert blits + [] == blits;
      BlitsDone(rects, width, height, |data|, src);
      ShownIsDrawn(width, height, old(buf[..]), buf[..], rects, data);
    }

    /** A frame without rectangles. */
    method CopyRows(hdr: Header, data: seq<byte>)
      requires Valid() && hdr.width == width && hdr.height == height && hdr.stride >= stride && hdr.stride > 0
      modifies buf
      ensures ShowsRows(stride, height, old(buf[..]), buf[..], hdr.stride, data, Min(height, |data| / hdr.stride))
    {
      var copyW := hdr.width * 4;
      var srcRows := |data| / hdr.stride;
      if copyW > stride { copyW := stride; }
      if copyW > hdr.stride { copyW := hdr.stride; }
      var row := 0;
      while row < hdr.height && row < height && row < srcRows
        invariant 0 <= row <= Min(height, srcRows)
        invariant ShowsRows(stride, height, old(buf[..]), buf[..], hdr.stride, data, row)
      {
        RowInPayload(hdr.stride, |data|, row);
        CopyRow(row, 0, copyW, data, row * hdr.stride);
        row := row + 1;
      }
    }

    /** A frame of another size gets a black buffer; `allocates` is whether there is memory for it. */
    method Resize(w: nat, h: nat, allocates: bool) returns (ok: bool)
      requires Valid()
      modifies this
      ensures Valid() && ok == (allocates || (w == old(width) && h == old(height)))
      ensures !ok || (w == old(width) && h == old(height)) ==> unchanged(this)
      ensures ok ==> width == w && height == h
      ensures ok && (w != old(width) || h != old(height)) ==> fresh(buf) && buf[..] == Black(stride * height)
    {
      if w != width || h != height {
        if !allocates { return false; }
        buf := new byte[w * 4 * h](i => 0);
        width, height, stride := w, h, w * 4;
      }
      return true;
    }

    /** The picture drawn over: the old one, or black after a change of size. */
    ghost function Canvas(hdr: Header): seq<byte>
      requires Valid()
      reads this, buf
    {
      if hdr.width == width && hdr.height == height then buf[..] else Black(hdr.width * 4 * hdr.height)
    }

    /** Drawing an acceptable frame into a buffer of its size. */
    method Draw(hdr: Header, rects: seq<Rect>, data: seq<byte>)
      requires Valid() && Acceptable(hdr, rects, data) && width == hdr.width && height == hdr.height
      modifies buf, `frameDirty, `hasFrame
      ensures frameDirty && hasFrame
      ensures rects != [] ==> DrawnOver(width, height, old(buf[..]), buf[..], rects, data)
      ensures rects == [] ==>
                ShowsRows(stride, height, old(buf[..]), buf[..], hdr.stride, data, Min(height, |data| / hdr.stride))
    {
      hide DrawnOver, ShowsRows;
      if hdr.rectCount == 0 {
        CopyRows(hdr, data);
      } else {
        CopyRects(rects, data);
      }
      frameDirty, hasFrame := true, true;
    }

    /**
     What a received frame does. Nothing is changed when a check fails or the new buffer cannot be allocated; the
     connection is then dropped.
     */
    method ApplyFrame(hdr: Header, rects: seq<Rect>, data: seq<byte>, allocates: bool) returns (applied: bool)
      requires Valid()
      modifies this, buf
      ensures Valid()
      ensures applied <==>
                Acceptable(hdr, rects, data) && (allocates || (hdr.width == old(width) && hdr.height == old(height)))
      ensures !applied ==> unchanged(this) && unchanged(buf)
      ensures applied ==> width == hdr.width && height == hdr.height && frameDirty && hasFrame
      ensures applied && rects != [] ==> DrawnOver(width, height, old(Canvas(hdr)), buf[..], rects, data)
      ensures applied && rects == [] ==>
                ShowsRows(stride, height, old(Canvas(hdr)), buf[..], hdr.stride, data, Min(height, |data| / hdr.stride))
    {
      hide DrawnOver, ShowsRows, Black;
      if hdr.width == 0 || hdr.height == 0 || hdr.width > MAX_W || hdr.height > MAX_H || hdr.stride < hdr.width * 4
         || hdr.rectCount > MAX_RECTS || |rects| != hdr.rectCount || |data| > MAX_DATA {
        return false;
      }
      applied := Resize(hdr.width, hdr.height, allocates);
      if applied {
        assert buf[..] == old(Canvas(hdr));
        Draw(hdr, rects, data);
      }
    }
  }

  lemma BlitsDone(rects: seq<Rect>, width: nat, height: nat, dataSize: nat, at: nat)
    ensures Blits(rects[|rects|..], width, height, dataSize, at) == []
  {
  }
}
