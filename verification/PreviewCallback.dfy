/**
 QCamera2HardwareInterface::sendPreviewCallback (camera/QCamera2/HAL/QCamera2HWICallbacks.cpp): the
 preview frame is handed to the application either as the camera's own buffer, when that has just
 the size the application expects, or as a copy without the padding of its rows and planes.
 `Packed` says which bytes the application must get; both ways are shown to give it those.
 */
module PreviewCallback {

  import opened Wrappers

  type Byte = b: int | 0 <= b < 256

  /** int32_t. Storing a value in it is checked, so no offset below can overflow. */
  type Int32 = x: int | -TWO_TO_THE_31 <= x < TWO_TO_THE_31

  type Length = x: Int32 | 0 <= x

  datatype Plane = Plane(stride: Length, scanline: Length)

  datatype Format = NV21 | NV12 | YV12 | OtherFormat

  datatype Stream = Stream(width: Length, height: Length, fmt: Format, info: Option<StreamInfo>)

  datatype StreamInfo = StreamInfo(y: Plane, c1: Plane, c2: Plane)

  datatype Status = NoError | BadValue | NoMemory | UnknownError

  // ----- sizes -------------------------------------------------------------------------------------

  function Area(p: Plane): nat
  {
    p.stride * p.scanline
  }

  /** What the application expects of a semi-planar frame: 12 bits a pixel. */
  function PackedSize(w: Length, h: Length): nat {
    w * h + w * (h / 2)
  }

  /** The planes are at least as large as what they hold, as the camera lays them out. */
  predicate Roomy(w: Length, h: Length, y: Plane, uv: Plane) {
    w <= y.stride && h <= y.scanline && w <= uv.stride && h / 2 <= uv.scanline
  }

  lemma MulMono(a: nat, b: nat, c: nat)
    requires b <= c
    ensures a * b <= a * c
    ensures a > 0 && b < c ==> a * b < a * c
  {
  }

  lemma AreaBounds(p: Plane, w: nat, h: nat)
    requires w <= p.stride && h <= p.scanline
    ensures w * h <= Area(p)
    ensures w > 0 && h > 0 && Area(p) == w * h ==> p.stride == w && p.scanline == h
  {
    MulMono(w, h, p.scanline);
    MulMono(p.scanline, w, p.stride);
  }

  /** Equal totals mean that there is no padding at all. */
  lemma EqualSizesMeanPacked(w: Length, h: Length, y: Plane, uv: Plane)
    requires Roomy(w, h, y, uv) && w > 0 && h > 1
    ensures Area(y) + Area(uv) == PackedSize(w, h) <==> y == Plane(w, h) && uv == Plane(w, h / 2)
  {
    AreaBounds(y, w, h);
    AreaBounds(uv, w, h / 2);
  }

  /** Without that much room the totals can agree by accident. */
  lemma NarrowPlanesCanAgree()
    ensures Area(Plane(3, 1)) + Area(Plane(3, 1)) == PackedSize(2, 2)
    ensures !Roomy(2, 2, Plane(3, 1), Plane(3, 1))
  {
  }

  // ----- rows --------------------------------------------------------------------------------------

  /** The first w bytes of each of n rows of src, from `base` on. */
  function Rows(src: seq<Byte>, base: nat, stride: nat, w: nat, n: nat): (r: seq<Byte>)
    requires n > 0 ==> base + stride * (n - 1) + w <= |src|
    ensures |r| == w * n
  {
    if n == 0 then []
    else
      NextRow(stride, n);
      NextRow(w, n);
      Rows(src, base, stride, w, n - 1) + src[base + stride * (n - 1)..base + stride * (n - 1) + w]
  }

  lemma NextRow(stride: nat, n: nat)
    requires n > 0
    ensures 0 <= stride * (n - 1) <= stride * (n - 1) + stride == stride * n
    ensures n > 1 ==> 0 <= stride * (n - 2) <= stride * (n - 1)
  {
  }

  /** Byte c of row r comes from byte c of row r, whatever the strides. */
  lemma {:induction false} RowsAt(src: seq<Byte>, base: nat, stride: nat, w: nat, n: nat, r: nat, c: nat)
    requires n > 0 ==> base + stride * (n - 1) + w <= |src|
    requires r < n && c < w
    ensures 0 <= base + stride * r + c < |src| && 0 <= w * r + c < w * n
    ensures Rows(src, base, stride, w, n)[w * r + c] == src[base + stride * r + c]
  {
    NextRow(stride, n);
    NextRow(w, n);
    MulMono(stride, r, n - 1);
    MulMono(w, r, n - 1);
    if r < n - 1 {
      RowsAt(src, base, stride, w, n - 1, r, c);
    }
  }

  lemma RowIsQuotient(w: nat, q: nat, m: nat, r: nat, c: nat)
    requires c < w && m < w && w * q + m == w * r + c
    ensures q == r && m == c
  {
    if r < q {
      MulMono(w, r + 1, q);
    } else if q < r {
      MulMono(w, q + 1, r);
    }
  }

  lemma RowInRange(k: nat, w: nat, n: nat)
    requires k < w * n && w > 0
    ensures k == w * (k / w) + k % w && k / w < n
  {
    if n <= k / w {
      MulMono(w, n, k / w);
    }
  }

  /** Every byte of the copy lies in exactly one row, at exactly one column. */
  lemma EachByteOnce(k: nat, w: nat, n: nat, r: nat, c: nat)
    requires k < w * n && c < w
    ensures k / w < n && k % w < w
    ensures k == w * r + c <==> r == k / w && c == k % w
  {
    RowInRange(k, w, n);
    if k == w * r + c {
      RowIsQuotient(w, k / w, k % w, r, c);
    }
  }

  /** Rows with no padding between them are simply the bytes. */
  lemma {:induction false} UnpaddedRows(src: seq<Byte>, base: nat, w: nat, n: nat)
    requires base + w * n <= |src|
    ensures n > 0 ==> base + w * (n - 1) + w <= |src|
    ensures Rows(src, base, w, w, n) == src[base..base + w * n]
  {
    if n > 0 {
      NextRow(w, n);
      UnpaddedRows(src, base, w, n - 1);
      assert src[base..base + w * n] == src[base..base + w * (n - 1)] + src[base + w * (n - 1)..base + w * n];
    }
  }

  // ----- the frame the application gets --------------------------------------------------------------

  predicate Covers(src: seq<Byte>, w: nat, h: nat, y: Plane, uv: Plane) {
    && (h > 0 ==> y.stride * (h - 1) + w <= |src|)
    && (h / 2 > 0 ==> Area(y) + uv.stride * (h / 2 - 1) + w <= |src|)
  }

  function Packed(src: seq<Byte>, w: Length, h: Length, y: Plane, uv: Plane): (r: seq<Byte>)
    requires Covers(src, w, h, y, uv)
    ensures |r| == PackedSize(w, h)
  {
    Rows(src, 0, y.stride, w, h) + Rows(src, Area(y), uv.stride, w, h / 2)
  }

  /** A camera buffer of the size that its planes add up to holds every row that is read. */
  lemma RoomyCovers(src: seq<Byte>, w: Length, h: Length, y: Plane, uv: Plane)
    requires Roomy(w, h, y, uv) && |src| >= Area(y) + Area(uv)
    ensures Covers(src, w, h, y, uv)
  {
    LastRow(y, w, h);
    LastRow(uv, w, h / 2);
  }

  lemma LastRow(p: Plane, w: nat, h: nat)
    requires w <= p.stride && h <= p.scanline
    ensures h > 0 ==> 0 <= p.stride * (h - 1) && p.stride * (h - 1) + w <= Area(p)
  {
    if h > 0 {
      NextRow(p.stride, h);
      MulMono(p.stride, h, p.scanline);
    }
  }

  /** When the totals agree, the camera's buffer already is the packed frame. */
  lemma ZeroCopyAgrees(src: seq<Byte>, w: Length, h: Length, y: Plane, uv: Plane)
    requires Roomy(w, h, y, uv) && |src| >= Area(y) + Area(uv)
    requires Area(y) + Area(uv) == PackedSize(w, h)
    ensures Covers(src, w, h, y, uv)
    ensures src[..PackedSize(w, h)] == Packed(src, w, h, y, uv)
  {
    RoomyCovers(src, w, h, y, uv);
    if w > 0 && h > 0 {
      NothingPadded(w, h, y, uv);
      PackedPrefix(src, w, h, uv);
    }
  }

  lemma NothingPadded(w: Length, h: Length, y: Plane, uv: Plane)
    requires Roomy(w, h, y, uv) && w > 0 && h > 0
    requires Area(y) + Area(uv) == PackedSize(w, h)
    ensures y == Plane(w, h) && (h > 1 ==> uv == Plane(w, h / 2))
  {
    AreaBounds(y, w, h);
    AreaBounds(uv, w, h / 2);
  }

  lemma PackedPrefix(src: seq<Byte>, w: Length, h: Length, uv: Plane)
    requires PackedSize(w, h) <= |src| && (h > 1 ==> uv == Plane(w, h / 2))
    requires Covers(src, w, h, Plane(w, h), uv)
    ensures src[..PackedSize(w, h)] == Packed(src, w, h, Plane(w, h), uv)
  {
    UnpaddedRows(src, 0, w, h);
    if h > 1 {
      UnpaddedRows(src, w * h, w, h / 2);
    }
  }

  /** The packed frame byte by byte: row r of the first plane, cut to the width. */
  lemma LumaAt(src: seq<Byte>, w: Length, h: Length, y: Plane, uv: Plane, r: nat, c: nat)
    requires Covers(src, w, h, y, uv) && r < h && c < w
    ensures 0 <= w * r + c < w * h && 0 <= y.stride * r + c < |src|
    ensures Packed(src, w, h, y, uv)[w * r + c] == src[y.stride * r + c]
  {
    RowsAt(src, 0, y.stride, w, h, r, c);
  }

  /** Row r of the second plane follows the whole of the first. */
  lemma ChromaAt(src: seq<Byte>, w: Length, h: Length, y: Plane, uv: Plane, r: nat, c: nat)
    requires Covers(src, w, h, y, uv) && r < h / 2 && c < w
    ensures 0 <= w * r + c < w * (h / 2) && 0 <= Area(y) + uv.stride * r + c < |src|
    ensures Packed(src, w, h, y, uv)[w * h..][w * r + c] == src[Area(y) + uv.stride * r + c]
  {
    RowsAt(src, Area(y), uv.stride, w, h / 2, r, c);
    SecondPlane(src, w, h, y, uv);
  }

  lemma SecondPlane(src: seq<Byte>, w: Length, h: Length, y: Plane, uv: Plane)
    requires Covers(src, w, h, y, uv)
    ensures Packed(src, w, h, y, uv)[w * h..] == Rows(src, Area(y), uv.stride, w, h / 2)
  {
  }

  // ----- copying -----------------------------------------------------------------------------------

  method Memcpy(dst: array<Byte>, dstOffset: nat, src: array<Byte>, srcOffset: nat, n: nat)
    requires dst != src && dstOffset + n <= dst.Length && srcOffset + n <= src.Length
    modifies dst
    ensures dst[..dstOffset] == old(dst[..dstOffset])
    ensures dst[dstOffset..dstOffset + n] == src[srcOffset..srcOffset + n]
    ensures dst[dstOffset + n..] == old(dst[dstOffset + n..])
  {
    forall i | 0 <= i < n {
      dst[dstOffset + i] := src[srcOffset + i];
    }
    assert dst[dstOffset..dstOffset + n] == src[srcOffset..srcOffset + n];
  }

  /** There is room for n rows of w bytes in dst, and src has them. */
  ghost predicate RowsFit(dstLen: nat, dstBase: nat, srcLen: nat, srcBase: nat, stride: nat, w: nat, n: nat) {
    && dstBase + w * n <= dstLen < TWO_TO_THE_31 && srcLen < TWO_TO_THE_31
    && (n > 0 ==> srcBase + stride * (n - 1) + w <= srcLen)
  }

  ghost predicate Copied(dst: seq<Byte>, dstBase: nat, src: seq<Byte>, srcBase: nat, stride: nat, w: nat, i: nat) {
    && 0 <= w * i && dstBase + w * i <= |dst|
    && (i > 0 ==> srcBase + stride * (i - 1) + w <= |src|)
    && dst[dstBase..dstBase + w * i] == Rows(src, srcBase, stride, w, i)
  }

  method CopyRow(dst: array<Byte>, dstBase: Length, src: array<Byte>, srcBase: Length,
                 stride: Length, w: Length, ghost n: nat, i: Length)
    requires dst != src && i < n && RowsFit(dst.Length, dstBase, src.Length, srcBase, stride, w, n)
    requires Copied(dst[..], dstBase, src[..], srcBase, stride, w, i)
    modifies dst
    ensures dst[..dstBase] == old(dst[..dstBase])
    ensures Copied(dst[..], dstBase, src[..], srcBase, stride, w, i + 1)
  {
    RowInside(stride, w, i, n);
    var srcOffset: Int32 := stride * i + srcBase;
    var dstOffset: Int32 := w * i + dstBase;
    ghost var done := dst[..dstOffset];
    Memcpy(dst, dstOffset, src, srcOffset, w);
    assert dst[..dstOffset] == done;
    AppendRow(dst[..], src[..], dstBase, srcBase, stride, w, i);
  }

  // One of the two loops that cut a plane's rows to the width.
  method CopyRows(dst: array<Byte>, dstBase: Length, src: array<Byte>, srcBase: Length,
                  stride: Length, w: Length, n: Length)
    requires dst != src && RowsFit(dst.Length, dstBase, src.Length, srcBase, stride, w, n)
    modifies dst
    ensures dst[..dstBase] == old(dst[..dstBase])
    ensures Copied(dst[..], dstBase, src[..], srcBase, stride, w, n)
  {
    var i: Int32 := 0;
    while i < n
      invariant 0 <= i <= n
      invariant dst[..dstBase] == old(dst[..dstBase])
      invariant Copied(dst[..], dstBase, src[..], srcBase, stride, w, i)
    {
      CopyRow(dst, dstBase, src, srcBase, stride, w, n, i);
      i := i + 1;
    }
  }

  lemma RowInside(stride: nat, w: nat, i: nat, n: nat)
    requires i < n
    ensures 0 <= stride * i <= stride * (n - 1) <= stride * n
    ensures 0 <= w * i <= w * (i + 1) <= w * n && w * (i + 1) == w * i + w
  {
    MulMono(stride, i, n - 1);
    NextRow(stride, n);
    MulMono(w, i + 1, n);
  }

  // One more row copied behind the rows that are there.
  lemma AppendRow(dst: seq<Byte>, src: seq<Byte>, dstBase: nat, srcBase: nat, stride: nat, w: nat, i: nat)
    requires 0 <= w * i && dstBase + w * i + w <= |dst| && 0 <= srcBase + stride * i && srcBase + stride * i + w <= |src|
    requires i > 0 ==> srcBase + stride * (i - 1) + w <= |src|
    requires dst[dstBase..dstBase + w * i] == Rows(src, srcBase, stride, w, i)
    requires dst[dstBase + w * i..dstBase + w * i + w] == src[srcBase + stride * i..srcBase + stride * i + w]
    ensures w * (i + 1) == w * i + w
    ensures dst[dstBase..dstBase + w * (i + 1)] == Rows(src, srcBase, stride, w, i + 1)
  {
    NextRow(w, i + 1);
    var k := dstBase + w * i;
    assert dst[dstBase..k + w] == dst[dstBase..k] + dst[k..k + w];
  }

  // ----- the callback ------------------------------------------------------------------------------

  /** camera_memory_t. */
  class CameraMemory {
    const data: array<Byte>
    const size: nat
    var releases: nat

    constructor (data: array<Byte>, size: nat)
      requires size <= data.Length
      ensures this.data == data && this.size == size && releases == 0
    {
      this.data, this.size, releases := data, size, 0;
    }

    ghost predicate Valid() {
      size <= data.Length
    }

    ghost function Bytes(): seq<Byte>
      requires Valid()
      reads data
    {
      data[..size]
    }

    method Release()
      modifies this
      ensures releases == old(releases) + 1
    {
      releases := releases + 1;
    }
  }

  /** What mGetMemory comes back with. */
  datatype GetMemory = NullHandle | HandleWithoutData | Mapped

  /** qcamera_callback_argm_t; with `releases`, releaseCameraMemory is set for userData. */
  datatype CallbackArg = CallbackArg(data: CameraMemory?, userData: CameraMemory?, releases: bool)

  predicate Supported(fmt: Format) { !fmt.OtherFormat? }

  function FrameSize(st: Stream): nat
    requires st.info.Some?
  {
    var i := st.info.value;
    match st.fmt
    case YV12 => Area(i.y) + Area(i.c1) + Area(i.c2)
    case OtherFormat => 0
    case _ => Area(i.y) + Area(i.c1)
  }

  /** The buffer size that the application expects. */
  function AppSize(st: Stream): nat
    requires st.info.Some?
  {
    match st.fmt
    case YV12 => FrameSize(st)
    case OtherFormat => 0
    case _ => PackedSize(st.width, st.height)
  }

  predicate SemiPlanar(fmt: Format) { fmt.NV21? || fmt.NV12? }

  predicate SizesAgree(st: Stream)
    requires st.info.Some?
  {
    AppSize(st) == FrameSize(st)
  }

  /** The camera's buffer has the bytes that are mapped or copied, and the sizes fit an int. */
  ghost predicate HoldsFrame(src: seq<Byte>, st: Stream) {
    && st.info.Some?
    && FrameSize(st) < TWO_TO_THE_31 && AppSize(st) < TWO_TO_THE_31 && |src| < TWO_TO_THE_31
    && if SizesAgree(st) then FrameSize(st) <= |src|
       else Covers(src, st.width, st.height, st.info.value.y, st.info.value.c1)
  }

  /** The bytes that are sent; no frame at all when there are none. */
  ghost function SentBytes(src: seq<Byte>, st: Stream): Option<seq<Byte>>
    requires HoldsFrame(src, st)
  {
    if !SizesAgree(st) then Some(Packed(src, st.width, st.height, st.info.value.y, st.info.value.c1))
    else if FrameSize(st) == 0 then None
    else Some(src[..FrameSize(st)])
  }

  predicate RoomyStream(st: Stream)
    requires st.info.Some?
  {
    SemiPlanar(st.fmt) && Roomy(st.width, st.height, st.info.value.y, st.info.value.c1)
  }

  /** Such a buffer, if it is as large as its planes add up to, has all that is needed. */
  lemma RoomyHoldsFrame(src: seq<Byte>, st: Stream)
    requires st.info.Some? && RoomyStream(st) && FrameSize(st) <= |src| < TWO_TO_THE_31
    ensures HoldsFrame(src, st)
  {
    PackedFits(st.width, st.height, st.info.value.y, st.info.value.c1);
    RoomyCovers(src, st.width, st.height, st.info.value.y, st.info.value.c1);
  }

  /** The bytes of all three planes of src, each behind the whole of those before it, and no others. */
  ghost predicate ThreePlanes(bytes: seq<Byte>, src: seq<Byte>, y: Plane, u: Plane, v: Plane) {
    && |bytes| == Area(y) + Area(u) + Area(v) <= |src|
    && (forall o | 0 <= o < Area(y) :: bytes[o] == src[o])
    && (forall o | Area(y) <= o < Area(y) + Area(u) :: bytes[o] == src[o])
    && (forall o | Area(y) + Area(u) <= o < Area(y) + Area(u) + Area(v) :: bytes[o] == src[o])
  }

  /** A YV12 frame is sent with its three planes as they are; a frame of an unknown format is not sent at all. */
  lemma SentIsPlanar(src: seq<Byte>, st: Stream)
    requires HoldsFrame(src, st) && !SemiPlanar(st.fmt)
    ensures var i := st.info.value;
            if st.fmt.YV12? && Area(i.y) + Area(i.c1) + Area(i.c2) > 0
            then SentBytes(src, st).Some? && ThreePlanes(SentBytes(src, st).value, src, i.y, i.c1, i.c2)
            else SentBytes(src, st) == None
  {
  }

  // A frame of 2 rows of 2 pixels in planes 4 wide.
  lemma PaddedFrame() returns (src: seq<Byte>, st: Stream)
    ensures HoldsFrame(src, st) && RoomyStream(st) && !SizesAgree(st)
  {
    var y, uv := Plane(4, 2), Plane(4, 1);
    st := Stream(2, 2, NV21, Some(StreamInfo(y, uv, uv)));
    src := seq(12, _ => 0);
    assert Area(y) == 8 && Area(uv) == 4;
    RoomyHoldsFrame(src, st);
  }

  /** With planes as large as what they hold, either way sends the packed frame. */
  lemma SentIsPacked(src: seq<Byte>, st: Stream)
    requires HoldsFrame(src, st) && RoomyStream(st)
    ensures Covers(src, st.width, st.height, st.info.value.y, st.info.value.c1)
    ensures SentBytes(src, st) == if FrameSize(st) == 0 then None
                                  else Some(Packed(src, st.width, st.height, st.info.value.y, st.info.value.c1))
  {
    var i := st.info.value;
    if SizesAgree(st) {
      ZeroCopyAgrees(src, st.width, st.height, i.y, i.c1);
    } else {
      PackedFits(st.width, st.height, i.y, i.c1);
    }
  }

  lemma PackedFits(w: Length, h: Length, y: Plane, uv: Plane)
    requires Roomy(w, h, y, uv)
    ensures w * h <= PackedSize(w, h) <= Area(y) + Area(uv)
  {
    AreaBounds(y, w, h);
    AreaBounds(uv, w, h / 2);
  }

  lemma FirstPlaneFits(w: Length, h: Length)
    ensures 0 <= w * h <= PackedSize(w, h)
  {
  }

  // One plane of the frame: n rows of it, each cut to w bytes, fill dst from dstBase to dstEnd.
  method StripPlane(dst: array<Byte>, dstBase: Length, ghost dstEnd: nat,
                    src: array<Byte>, srcBase: Length, stride: Length, w: Length, n: Length)
    requires dst != src && dstBase + w * n == dstEnd
    requires RowsFit(dst.Length, dstBase, src.Length, srcBase, stride, w, n)
    modifies dst
    ensures dstBase <= dstEnd <= dst.Length && dst[..dstBase] == old(dst[..dstBase])
    ensures dst[dstBase..dstEnd] == Rows(src[..], srcBase, stride, w, n)
  {
    CopyRows(dst, dstBase, src, srcBase, stride, w, n);
  }

  // The path that copies.
  method StripPadding(dst: array<Byte>, src: array<Byte>, w: Length, h: Length, y: Plane, uv: Plane)
    requires dst != src && dst.Length == PackedSize(w, h) < TWO_TO_THE_31
    requires Covers(src[..], w, h, y, uv) && src.Length < TWO_TO_THE_31 && Area(y) < TWO_TO_THE_31
    modifies dst
    ensures dst[..] == Packed(src[..], w, h, y, uv)
  {
    FirstPlaneFits(w, h);
    var base: Int32 := y.stride * y.scanline;
    var dstBase: Int32 := w * h;
    assert 0 <= dstBase <= dst.Length;
    StripPlane(dst, 0, dstBase, src, 0, y.stride, w, h);
    ghost var luma := dst[..dstBase];
    assert luma == dst[0..dstBase];
    StripPlane(dst, dstBase, dst.Length, src, base, uv.stride, w, h / 2);
    assert dst[..] == luma + dst[dstBase..dst.Length];
  }

  method Sizes(st: Stream) returns (previewBufSize: Int32, fromCallback: Int32)
    requires st.info.Some? && FrameSize(st) < TWO_TO_THE_31 && AppSize(st) < TWO_TO_THE_31
    ensures previewBufSize == AppSize(st) && fromCallback == FrameSize(st)
    ensures var y, u, v := Area(st.info.value.y), Area(st.info.value.c1), Area(st.info.value.c2);
      match st.fmt
      case YV12 => previewBufSize == fromCallback == y + u + v
      case OtherFormat => previewBufSize == fromCallback == 0
      case _ => previewBufSize == PackedSize(st.width, st.height) && fromCallback == y + u
  {
    var y, c1, c2 := st.info.value.y, st.info.value.c1, st.info.value.c2;
    previewBufSize, fromCallback := 0, 0;
    if st.fmt.YV12? {
      previewBufSize := y.stride * y.scanline + c1.stride * c1.scanline + c2.stride * c2.scanline;
      fromCallback := previewBufSize;
    } else if SemiPlanar(st.fmt) {
      previewBufSize := st.width * st.height + st.width * (st.height / 2);
      fromCallback := y.stride * y.scanline + c1.stride * c1.scanline;
    }
  }

  // Only semi-planar frames are copied.
  lemma CopiedIsSemiPlanar(st: Stream)
    requires st.info.Some? && !SizesAgree(st)
    ensures SemiPlanar(st.fmt) && AppSize(st) == PackedSize(st.width, st.height)
    ensures FrameSize(st) == Area(st.info.value.y) + Area(st.info.value.c1) && Area(st.info.value.y) <= FrameSize(st)
  {
  }

  // With equal sizes the camera's buffer is mapped for the application, else it is copied.
  method PrepareFrame(st: Stream, memory: CameraMemory, previewBufSize: nat, fromCallback: nat)
    returns (previewMem: CameraMemory?, dataToApp: CameraMemory?)
    requires HoldsFrame(memory.data[..], st) && Supported(st.fmt)
    requires previewBufSize == AppSize(st) && fromCallback == FrameSize(st)
    ensures if previewBufSize == fromCallback
            then && dataToApp == null && previewMem != null && fresh(previewMem) && previewMem.releases == 0
                 && previewMem.data == memory.data && previewMem.size == previewBufSize
            else && previewMem == null && dataToApp != null && fresh(dataToApp) && dataToApp.releases == 0
                 && dataToApp.Valid() && SentBytes(memory.data[..], st) == Some(dataToApp.Bytes())
  {
    previewMem, dataToApp := null, null;
    if previewBufSize == fromCallback {
      previewMem := new CameraMemory(memory.data, previewBufSize);
    } else {
      CopiedIsSemiPlanar(st);
      var copy := new Byte[previewBufSize];
      dataToApp := new CameraMemory(copy, previewBufSize);
      StripPadding(copy, memory.data, st.width, st.height, st.info.value.y, st.info.value.c1);
      assert copy[..previewBufSize] == copy[..];
    }
  }

  /** The releases that are left to release_cb, once the notifier has taken the callback. */
  function ReleasesLater(arg: Option<CallbackArg>, notifyRc: Status): nat {
    if arg.Some? && arg.value.releases && notifyRc == NoError then 1 else 0
  }

  /**
   `handle` is what mGetMemory returned. It is released once, here or by release_cb, unless it came
   without data: then it is never released.
   */
  method SendPreviewCallback(stream: Option<Stream>, memory: CameraMemory?, outcome: GetMemory, notifyRc: Status)
    returns (rc: Status, arg: Option<CallbackArg>, ghost handle: CameraMemory?)
    requires stream.Some? && memory != null && stream.value.info.Some? ==> HoldsFrame(memory.data[..], stream.value)
    ensures stream.None? || memory == null || stream.value.info.None? ==> rc == BadValue && arg == None
    ensures stream.Some? && memory != null && stream.value.info.Some? ==>
              if Supported(stream.value.fmt) && !outcome.Mapped? then rc == NoMemory && arg == None
              else rc == notifyRc && arg.Some? && Delivers(arg.value, memory.data[..], stream.value)
    ensures arg.Some? && RoomyStream(stream.value) && FrameSize(stream.value) > 0 ==>
              && arg.value.data != null
              && IsPacked(arg.value.data.Bytes(), memory.data[..], stream.value)
    ensures arg.Some? && stream.value.fmt.YV12? ==>
              var i := stream.value.info.value;
              if Area(i.y) + Area(i.c1) + Area(i.c2) == 0 then arg.value.data == null
              else arg.value.data != null && ThreePlanes(arg.value.data.Bytes(), memory.data[..], i.y, i.c1, i.c2)
    ensures arg.Some? && stream.value.fmt.OtherFormat? ==> arg.value.data == null && handle == null
    ensures arg.Some? ==> arg.value.userData == handle
    ensures handle != null <==>
              && stream.Some? && memory != null && stream.value.info.Some? && Supported(stream.value.fmt)
              && !outcome.NullHandle?
    ensures handle != null ==>
              && fresh(handle) && handle.releases == (if outcome.Mapped? && notifyRc != NoError then 1 else 0)
              && handle.releases + ReleasesLater(arg, notifyRc) == if outcome.Mapped? then 1 else 0
  {
    handle := null;
    if stream.None? || memory == null {
      return BadValue, None, null;
    }
    var st := stream.value;
    if st.info.None? {
      return BadValue, None, null;
    }
    var previewMem: CameraMemory? := null;
    var data: CameraMemory? := memory;
    var dataToApp: CameraMemory? := null;
    var previewBufSize, previewBufSizeFromCallback := Sizes(st);
    if Supported(st.fmt) {
      if !outcome.Mapped? {
        if outcome.HandleWithoutData? {
          var none := new Byte[0];
          var empty := new CameraMemory(none, 0);
          handle := empty;
        }
        return NoMemory, None, handle;
      }
      previewMem, dataToApp := PrepareFrame(st, memory, previewBufSize, previewBufSizeFromCallback);
      if previewMem != null {
        data := previewMem;
      }
    }
    var cbData := dataToApp;
    if previewBufSize != 0 && previewBufSizeFromCallback != 0 && previewBufSize == previewBufSizeFromCallback {
      cbData := data;
    }
    if RoomyStream(st) {
      SentIsPacked(memory.data[..], st);
    }
    if !SemiPlanar(st.fmt) {
      SentIsPlanar(memory.data[..], st);
    }
    var userData := if previewMem != null then previewMem else dataToApp;
    arg := Some(CallbackArg(cbData, userData, userData != null));
    handle := userData;
    rc := notifyRc;
    if rc != NoError {
      if previewMem != null {
        previewMem.Release();
      } else if dataToApp != null {
        dataToApp.Release();
      }
    }
  }

  ghost predicate IsPacked(bytes: seq<Byte>, src: seq<Byte>, st: Stream) {
    && st.info.Some? && Covers(src, st.width, st.height, st.info.value.y, st.info.value.c1)
    && bytes == Packed(src, st.width, st.height, st.info.value.y, st.info.value.c1)
  }

  /** The message carries those bytes, and the memory that releaseCameraMemory has to free. */
  ghost predicate Delivers(arg: CallbackArg, src: seq<Byte>, st: Stream)
    requires HoldsFrame(src, st)
    reads if arg.data == null then {} else {arg.data.data}
  {
    && (if arg.data == null then SentBytes(src, st) == None
        else arg.data.Valid() && SentBytes(src, st) == Some(arg.data.Bytes()))
    && (arg.data == null || arg.data == arg.userData)
    && (arg.userData != null <==> Supported(st.fmt))
    && arg.releases == (arg.userData != null)
  }
}
