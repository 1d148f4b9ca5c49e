/**
 * The video-buffer dumps: the image planes of a stride-padded buffer written out
 * packed, row by row, per pixel format. The file is the sequence of bytes written
 * to it; the buffer is the sequence of its active bytes.
 */
module VideoDump {
  import opened Wire

  /** The pixel formats the dump knows, and every other format. */
  datatype PixelFormat =
    | NV16 | NV21 | NV12 | YUV420 | NV24 | Grey
    | ARGB32 | ABGR32 | RGB32 | BGR32
    | RGB565 | RGB555 | RGB444
    | Unsupported

  /** The image parameters of a buffer: visible size, strides and format. */
  datatype ImagePara = ImagePara(width: nat, height: nat, hStride: nat, vStride: nat, fmt: PixelFormat)

  // ---------------------------------------------------------------------------
  // Rows

  /** Which bytes of a row are taken: all of them, or every second one from 0 or from 1. */
  datatype Lane = Whole | Even | Odd

  /** How many bytes of a row `n` taken bytes span. */
  function Span(n: nat, lane: Lane): nat
  {
    if lane.Whole? then n else 2 * n
  }

  /** Where the `j`-th taken byte lies in its row. */
  function Offset(j: nat, lane: Lane): nat
  {
    match lane
    case Whole => j
    case Even => 2 * j
    case Odd => 2 * j + 1
  }

  /** The `n` bytes taken from the row at `base`. */
  function RowOf(data: seq<byte>, base: nat, n: nat, lane: Lane): (r: seq<byte>)
    requires base + Span(n, lane) <= |data|
    ensures |r| == n
    decreases n
  {
    if n == 0 then [] else RowOf(data, base, n - 1, lane) + [data[base + Offset(n - 1, lane)]]
  }

  /** Taken byte `j` is the byte at `Offset(j, lane)` in the row. */
  lemma {:induction false} RowOfAt(data: seq<byte>, base: nat, n: nat, lane: Lane)
    requires base + Span(n, lane) <= |data|
    ensures forall j :: 0 <= j < n ==> RowOf(data, base, n, lane)[j] == data[base + Offset(j, lane)]
    decreases n
  {
    if n > 0 {
      RowOfAt(data, base, n - 1, lane);
    }
  }

  /** Taking every byte of a row is the row itself. */
  lemma {:induction false} RowOfWhole(data: seq<byte>, base: nat, n: nat)
    requires base + n <= |data|
    ensures RowOf(data, base, n, Whole) == data[base..base + n]
  {
    RowOfAt(data, base, n, Whole);
  }

  /**
   * Where row `r` starts: `r` strides after `start`, that is `start + r * stride`
   * (`RowStartIs`).
   */
  function RowStart(start: nat, stride: nat, r: nat): nat
    decreases r
  {
    if r == 0 then start else RowStart(start, stride, r - 1) + stride
  }

  lemma {:induction false} RowStartIs(start: nat, stride: nat, r: nat)
    ensures RowStart(start, stride, r) == start + r * stride
    decreases r
  {
    if r > 0 {
      RowStartIs(start, stride, r - 1);
      assert r * stride == (r - 1) * stride + stride;
    }
  }

  /** Going `c` rows and then `r` more is going `c + r` rows. */
  lemma {:induction false} RowStartShift(start: nat, stride: nat, c: nat, r: nat)
    ensures RowStart(RowStart(start, stride, c), stride, r) == RowStart(start, stride, c + r)
    decreases r
  {
    if r > 0 {
      RowStartShift(start, stride, c, r - 1);
    }
  }

  /** Going `r` rows from `start` is going `r` rows from 0, shifted by `start`. */
  lemma {:induction false} RowStartFrom(start: nat, stride: nat, r: nat)
    ensures RowStart(start, stride, r) == start + RowStart(0, stride, r)
    decreases r
  {
    if r > 0 {
      RowStartFrom(start, stride, r - 1);
    }
  }

  /** Whether `count` rows of `span` bytes, `stride` bytes apart from `start`, lie inside `size` bytes. */
  predicate RowsFit(size: nat, start: nat, stride: nat, count: nat, span: nat)
  {
    forall r :: 0 <= r < count ==> RowStart(start, stride, r) + span <= size
  }

  /** Whether every row in `rows` has `n` bytes. */
  predicate AllLength(rows: seq<seq<byte>>, n: nat)
  {
    forall i :: 0 <= i < |rows| ==> |rows[i]| == n
  }

  /** The rows themselves: row `r` holds the bytes taken from the row at `RowStart(start, stride, r)`. */
  function Rows(data: seq<byte>, start: nat, stride: nat, count: nat, n: nat, lane: Lane): (rows: seq<seq<byte>>)
    requires RowsFit(|data|, start, stride, count, Span(n, lane))
    ensures |rows| == count
    decreases count
  {
    if count == 0 then []
    else Rows(data, start, stride, count - 1, n, lane) + [RowOf(data, RowStart(start, stride, count - 1), n, lane)]
  }

  /** Row `r` is the one taken at `RowStart(start, stride, r)`; every row has `n` bytes. */
  lemma {:induction false} RowsAt(data: seq<byte>, start: nat, stride: nat, count: nat, n: nat, lane: Lane)
    requires RowsFit(|data|, start, stride, count, Span(n, lane))
    ensures forall r :: 0 <= r < count ==> Rows(data, start, stride, count, n, lane)[r] == RowOf(data, RowStart(start, stride, r), n, lane)
    ensures AllLength(Rows(data, start, stride, count, n, lane), n)
    decreases count
  {
    if count > 0 {
      RowsAt(data, start, stride, count - 1, n, lane);
    }
  }

  /** Row `r` on its own. */
  lemma {:induction false} RowsRow(data: seq<byte>, start: nat, stride: nat, count: nat, n: nat, lane: Lane, r: nat)
    requires RowsFit(|data|, start, stride, count, Span(n, lane)) && r < count
    ensures RowStart(start, stride, r) + Span(n, lane) <= |data|
    ensures Rows(data, start, stride, count, n, lane)[r] == RowOf(data, RowStart(start, stride, r), n, lane)
  {
    RowsAt(data, start, stride, count, n, lane);
  }

  /** Every row has `n` bytes. */
  lemma {:induction false} RowsLength(data: seq<byte>, start: nat, stride: nat, count: nat, n: nat, lane: Lane)
    requires RowsFit(|data|, start, stride, count, Span(n, lane))
    ensures AllLength(Rows(data, start, stride, count, n, lane), n)
  {
    RowsAt(data, start, stride, count, n, lane);
  }

  /** Rows `i` onwards, one after another. */
  function Concat(rows: seq<seq<byte>>, i: nat): seq<byte>
    decreases |rows| - i
  {
    if i >= |rows| then [] else rows[i] + Concat(rows, i + 1)
  }

  /** The rows `i` onwards of `n` bytes each make `RowStart(0, n, |rows| - i)` bytes. */
  lemma {:induction false} ConcatSize(rows: seq<seq<byte>>, n: nat, i: nat)
    requires AllLength(rows, n) && i <= |rows|
    ensures |Concat(rows, i)| == RowStart(0, n, |rows| - i)
    decreases |rows| - i
  {
    if i < |rows| {
      ConcatSize(rows, n, i + 1);
      RowStartShift(0, n, 1, |rows| - i - 1);
    }
  }

  /** `k` rows of `n` bytes make `k * n` bytes. */
  lemma {:induction false} ConcatLength(rows: seq<seq<byte>>, n: nat)
    requires AllLength(rows, n)
    ensures |Concat(rows, 0)| == |rows| * n
  {
    ConcatSize(rows, n, 0);
    RowStartIs(0, n, |rows|);
  }

  /** Byte `j` of row `r` lies `RowStart(0, n, r - i) + j` bytes into the rows from `i` on. */
  lemma {:induction false} ConcatAt(rows: seq<seq<byte>>, n: nat, i: nat, r: nat, j: nat)
    requires AllLength(rows, n) && i <= r < |rows| && j < n
    ensures RowStart(0, n, r - i) + j < |Concat(rows, i)|
    ensures Concat(rows, i)[RowStart(0, n, r - i) + j] == rows[r][j]
    decreases r - i
  {
    if i < r {
      ConcatAt(rows, n, i + 1, r, j);
      RowStartShift(0, n, 1, r - i - 1);
    }
  }

  /** Concatenating two lists of rows concatenates their bytes. */
  lemma {:induction false} ConcatAppend(a: seq<seq<byte>>, b: seq<seq<byte>>, i: nat)
    requires i <= |a|
    ensures Concat(a + b, i) == Concat(a, i) + Concat(b, 0)
    decreases |a| - i
  {
    if i < |a| {
      ConcatAppend(a, b, i + 1);
    } else {
      ConcatShift(a, b, 0);
    }
  }

  lemma {:induction false} ConcatShift(a: seq<seq<byte>>, b: seq<seq<byte>>, k: nat)
    requires k <= |b|
    ensures Concat(a + b, |a| + k) == Concat(b, k)
    decreases |b| - k
  {
    if k < |b| {
      ConcatShift(a, b, k + 1);
    }
  }

  /** The bytes taken from `count` rows, `stride` bytes apart from `start`, in order. */
  function Gathered(data: seq<byte>, start: nat, stride: nat, count: nat, n: nat, lane: Lane): seq<byte>
    requires RowsFit(|data|, start, stride, count, Span(n, lane))
  {
    Concat(Rows(data, start, stride, count, n, lane), 0)
  }

  /** `count` rows of `n` taken bytes. */
  lemma {:induction false} GatheredLength(data: seq<byte>, start: nat, stride: nat, count: nat, n: nat, lane: Lane)
    requires RowsFit(|data|, start, stride, count, Span(n, lane))
    ensures |Gathered(data, start, stride, count, n, lane)| == count * n
  {
    RowsAt(data, start, stride, count, n, lane);
    ConcatLength(Rows(data, start, stride, count, n, lane), n);
  }

  /** Byte `j` of output row `r` is byte `j` of the buffer row `r` strides after the start. */
  lemma {:induction false} GatheredAt(data: seq<byte>, start: nat, stride: nat, count: nat, n: nat, lane: Lane, r: nat, j: nat)
    requires RowsFit(|data|, start, stride, count, Span(n, lane)) && r < count && j < n
    ensures RowStart(0, n, r) + j < |Gathered(data, start, stride, count, n, lane)|
    ensures RowStart(start, stride, r) + Offset(j, lane) < |data|
    ensures Gathered(data, start, stride, count, n, lane)[RowStart(0, n, r) + j]
      == data[RowStart(start, stride, r) + Offset(j, lane)]
  {
    var rows := Rows(data, start, stride, count, n, lane);
    RowsLength(data, start, stride, count, n, lane);
    RowsRow(data, start, stride, count, n, lane, r);
    RowOfAt(data, RowStart(start, stride, r), n, lane);
    ConcatAt(rows, n, 0, r, j);
  }

  /**
   * Rows `stride` apart from where `c1` rows left the row cursor continue those
   * rows: the two runs together are one run of `c1 + c2` rows.
   */
  lemma {:induction false} RowsContinue(data: seq<byte>, start: nat, stride: nat, c1: nat, c2: nat, n: nat, lane: Lane)
    requires RowsFit(|data|, start, stride, c1, Span(n, lane))
    requires RowsFit(|data|, RowStart(start, stride, c1), stride, c2, Span(n, lane))
    ensures RowsFit(|data|, start, stride, c1 + c2, Span(n, lane))
    ensures Gathered(data, start, stride, c1, n, lane) + Gathered(data, RowStart(start, stride, c1), stride, c2, n, lane)
      == Gathered(data, start, stride, c1 + c2, n, lane)
  {
    forall r | c1 <= r < c1 + c2
      ensures RowStart(start, stride, r) == RowStart(RowStart(start, stride, c1), stride, r - c1)
    {
      RowStartShift(start, stride, c1, r - c1);
    }
    var a := Rows(data, start, stride, c1, n, lane);
    var b := Rows(data, RowStart(start, stride, c1), stride, c2, n, lane);
    var all := Rows(data, start, stride, c1 + c2, n, lane);
    RowsAt(data, start, stride, c1, n, lane);
    RowsAt(data, RowStart(start, stride, c1), stride, c2, n, lane);
    RowsAt(data, start, stride, c1 + c2, n, lane);
    assert a + b == all;
    ConcatAppend(a, b, 0);
  }

  // ---------------------------------------------------------------------------
  // The scratch buffer of the semi-planar formats

  /** `s` with `w` written over it from `at` on. */
  function Write(s: seq<byte>, at: nat, w: seq<byte>): (r: seq<byte>)
    requires at + |w| <= |s|
    ensures |r| == |s|
    decreases |w|
  {
    if w == [] then s else Write(s[at := w[0]], at + 1, w[1..])
  }

  /** Inside the written range the bytes are `w`'s; outside they are `s`'s. */
  lemma {:induction false} WriteAt(s: seq<byte>, at: nat, w: seq<byte>)
    requires at + |w| <= |s|
    ensures forall k :: 0 <= k < |s| ==> Write(s, at, w)[k] == if at <= k < at + |w| then w[k - at] else s[k]
    decreases |w|
  {
    if w != [] {
      WriteAt(s[at := w[0]], at + 1, w[1..]);
    }
  }

  /**
   * Whether the scratch buffer of `size` bytes holds `rows` U rows from `u` and V
   * rows from `v`, `n` bytes each, with each row's U part before its V part.
   */
  predicate Room(size: nat, u: nat, v: nat, rows: nat, n: nat)
    decreases rows
  {
    rows == 0 || (u + n <= v && v + n <= size && Room(size, u + n, v + n, rows - 1, n))
  }

  /**
   * The scratch buffer after de-interleaving rows `i` onwards: row by row, the U part
   * (`evens[i]`) written at `u` and the V part (`odds[i]`) at `v`, both advancing by `n`.
   */
  function Split(scratch: seq<byte>, evens: seq<seq<byte>>, odds: seq<seq<byte>>, n: nat, i: nat, u: nat, v: nat): (r: seq<byte>)
    requires |evens| == |odds| && i <= |evens| && AllLength(evens, n) && AllLength(odds, n)
    requires Room(|scratch|, u, v, |evens| - i, n)
    ensures |r| == |scratch|
    decreases |evens| - i
  {
    if i == |evens| then scratch
    else Split(Write(Write(scratch, u, evens[i]), v, odds[i]), evens, odds, n, i + 1, u + n, v + n)
  }

  /** Writing nothing changes nothing. */
  lemma {:induction false} WriteNothing(s: seq<byte>, at: nat)
    requires at <= |s|
    ensures Write(s, at, []) == s
  {
  }

  /** Two writes side by side are one write of both. */
  lemma {:induction false} WriteAdjacent(s: seq<byte>, at: nat, a: seq<byte>, b: seq<byte>)
    requires at + |a| + |b| <= |s|
    ensures Write(Write(s, at, a), at + |a|, b) == Write(s, at, a + b)
  {
    var s1 := Write(s, at, a);
    WriteAt(s, at, a);
    WriteAt(s1, at + |a|, b);
    WriteAt(s, at, a + b);
    assert forall k :: 0 <= k < |s| ==> Write(s1, at + |a|, b)[k] == Write(s, at, a + b)[k];
  }

  /** Writes to ranges that do not overlap can be done in either order. */
  lemma {:induction false} WriteCommute(s: seq<byte>, x: nat, a: seq<byte>, y: nat, b: seq<byte>)
    requires x + |a| <= y && y + |b| <= |s|
    ensures Write(Write(s, y, b), x, a) == Write(Write(s, x, a), y, b)
  {
    WriteAt(s, y, b);
    WriteAt(Write(s, y, b), x, a);
    WriteAt(s, x, a);
    WriteAt(Write(s, x, a), y, b);
    assert forall k :: 0 <= k < |s| ==> Write(Write(s, y, b), x, a)[k] == Write(Write(s, x, a), y, b)[k];
  }

  /** One step of `Split`: row `i` written, then the rest. */
  lemma {:induction false} SplitStep(t: seq<byte>, evens: seq<seq<byte>>, odds: seq<seq<byte>>, n: nat, i: nat, u: nat, v: nat)
    requires |evens| == |odds| && i < |evens| && AllLength(evens, n) && AllLength(odds, n)
    requires Room(|t|, u, v, |evens| - i, n)
    ensures |evens[i]| == n == |odds[i]| && u + n <= v && v + n <= |t|
    ensures Room(|t|, u + n, v + n, |evens| - (i + 1), n)
    ensures Split(t, evens, odds, n, i, u, v)
      == Split(Write(Write(t, u, evens[i]), v, odds[i]), evens, odds, n, i + 1, u + n, v + n)
  {
  }

  /** Writing a row's U and V parts, then the rest's, is writing the two whole planes. */
  lemma {:induction false} WriteMerge(s: seq<byte>, u: nat, v: nat, n: nat, e: seq<byte>, o: seq<byte>, es: seq<byte>, os: seq<byte>)
    requires |e| == n == |o| && |es| == |os| && u + n + |es| <= v && v + n + |os| <= |s|
    ensures Write(Write(Write(Write(s, u, e), v, o), u + n, es), v + n, os) == Write(Write(s, u, e + es), v, o + os)
  {
    var s1 := Write(s, u, e);
    WriteCommute(s1, u + |e|, es, v, o);
    WriteAdjacent(s, u, e, es);
    WriteAdjacent(Write(s, u, e + es), v, o, os);
  }

  /**
   * When the U rows end before the V rows start, the scratch buffer holds the whole
   * U plane from `u` and the whole V plane from `v`, and elsewhere what it held.
   */
  lemma {:induction false} SplitPlanes(scratch: seq<byte>, evens: seq<seq<byte>>, odds: seq<seq<byte>>, n: nat, i: nat, u: nat, v: nat)
    requires |evens| == |odds| && i <= |evens| && AllLength(evens, n) && AllLength(odds, n)
    requires u + |Concat(evens, i)| <= v && v + |Concat(odds, i)| <= |scratch|
    ensures Room(|scratch|, u, v, |evens| - i, n)
    ensures Split(scratch, evens, odds, n, i, u, v) == Write(Write(scratch, u, Concat(evens, i)), v, Concat(odds, i))
    decreases |evens| - i
  {
    ConcatSize(evens, n, i);
    ConcatSize(odds, n, i);
    if i < |evens| {
      var ce, co := Concat(evens, i + 1), Concat(odds, i + 1);
      assert |evens[i]| == n && |odds[i]| == n;
      assert Concat(evens, i) == evens[i] + ce && Concat(odds, i) == odds[i] + co;
      var t := Write(Write(scratch, u, evens[i]), v, odds[i]);
      SplitPlanes(t, evens, odds, n, i + 1, u + n, v + n);
      assert Split(scratch, evens, odds, n, i, u, v) == Split(t, evens, odds, n, i + 1, u + n, v + n);
      WriteMerge(scratch, u, v, n, evens[i], odds[i], ce, co);
    } else {
      assert Concat(evens, i) == [] && Concat(odds, i) == [];
      WriteNothing(scratch, u);
      WriteNothing(scratch, v);
    }
  }

  /** `rows` rows of `n` bytes from `u` ending before `v`, and from `v` inside the buffer, are room enough. */
  lemma {:induction false} RoomOf(size: nat, u: nat, v: nat, rows: nat, n: nat)
    requires RowStart(u, n, rows) <= v && RowStart(v, n, rows) <= size
    ensures Room(size, u, v, rows, n)
    decreases rows
  {
    if rows > 0 {
      RowStartShift(u, n, 1, rows - 1);
      RowStartShift(v, n, 1, rows - 1);
      RowStartFrom(u, n, rows - 1);
      RowStartFrom(v, n, rows - 1);
      RoomOf(size, u + n, v + n, rows - 1, n);
    }
  }

  /** Rows of a wider stride reach at least as far. */
  lemma {:induction false} RowStartMono(start: nat, s1: nat, s2: nat, r: nat)
    requires s1 <= s2
    ensures RowStart(start, s1, r) <= RowStart(start, s2, r)
    decreases r
  {
    if r > 0 {
      RowStartMono(start, s1, s2, r - 1);
    }
  }

  /** Rows of twice the stride reach twice as far. */
  lemma {:induction false} RowStartDouble(n: nat, r: nat)
    ensures RowStart(0, 2 * n, r) == 2 * RowStart(0, n, r)
    decreases r
  {
    if r > 0 {
      RowStartDouble(n, r - 1);
    }
  }

  // ---------------------------------------------------------------------------
  // The dumps

  /** Where the chroma planes start: after `vStride` rows of `hStride` luma bytes (`hStride * vStride`). */
  function ChromaStart(p: ImagePara): nat
  {
    RowStart(0, p.hStride, p.vStride)
  }

  /** The size of the scratch buffer the semi-planar formats allocate: `2 * hStride * height`. */
  function ScratchSize(p: ImagePara): nat
  {
    2 * RowStart(0, p.hStride, p.height)
  }

  /** Where NV16 puts its V plane in the scratch buffer: `width * height / 2`. */
  function HalfArea(p: ImagePara): nat
  {
    Area(p) / 2
  }

  /** Where NV24 puts its V plane in the scratch buffer: `width * height`. */
  function Area(p: ImagePara): nat
  {
    RowStart(0, p.width, p.height)
  }

  /** Whether the luma rows lie inside `size` bytes. */
  predicate LumaFits(size: nat, p: ImagePara)
  {
    RowsFit(size, 0, p.hStride, p.height, p.width)
  }

  /**
   * Whether the buffer of `size` bytes holds every byte the format's dump reads and,
   * for the semi-planar formats, the scratch buffer holds every byte written to it
   * and the part of it written out.
   */
  predicate Fits(size: nat, p: ImagePara)
  {
    var c := ChromaStart(p);
    var w, h, hs := p.width, p.height, p.hStride;
    match p.fmt
    case Grey => LumaFits(size, p)
    case NV12 | NV21 => LumaFits(size, p) && RowsFit(size, c, hs, h / 2, w)
    case YUV420 =>
      LumaFits(size, p) && RowsFit(size, c, hs / 2, h / 2, w / 2)
      && RowsFit(size, RowStart(c, hs / 2, h / 2), hs / 2, h / 2, w / 2)
    case NV16 =>
      LumaFits(size, p) && RowsFit(size, c, hs, h, 2 * (w / 2))
      && Room(ScratchSize(p), 0, HalfArea(p), h, w / 2) && Area(p) <= ScratchSize(p)
    case NV24 =>
      LumaFits(size, p) && RowsFit(size, c, 2 * hs, h, 2 * w)
      && Room(ScratchSize(p), 0, Area(p), h, w) && 2 * Area(p) <= ScratchSize(p)
    case ARGB32 | ABGR32 | RGB32 | BGR32 => RowsFit(size, 0, 4 * hs, h, 4 * w)
    case RGB565 | RGB555 | RGB444 => RowsFit(size, 0, 2 * hs, h, 2 * w)
    case Unsupported => true
  }

  /**
   * Rows no wider than their stride leave the scratch buffer room enough: the
   * requirement on the scratch buffer holds for every such image.
   */
  lemma {:induction false} ScratchRoom(p: ImagePara)
    requires p.width <= p.hStride
    ensures Room(ScratchSize(p), 0, HalfArea(p), p.height, p.width / 2) && Area(p) <= ScratchSize(p)
    ensures Room(ScratchSize(p), 0, Area(p), p.height, p.width) && 2 * Area(p) <= ScratchSize(p)
  {
    var w, h, hs := p.width, p.height, p.hStride;
    var a := w / 2;
    RowStartMono(0, 2 * a, w, h);
    RowStartDouble(a, h);
    RowStartMono(0, w, hs, h);
    RowStartFrom(HalfArea(p), a, h);
    RowStartFrom(Area(p), w, h);
    RoomOf(ScratchSize(p), 0, HalfArea(p), h, a);
    RoomOf(ScratchSize(p), 0, Area(p), h, w);
  }

  /** The `height` rows of `width` luma bytes, `hStride` apart. */
  function Luma(data: seq<byte>, p: ImagePara): seq<byte>
    requires LumaFits(|data|, p)
  {
    Gathered(data, 0, p.hStride, p.height, p.width, Whole)
  }

  /** The scratch buffer after de-interleaving `rows` chroma rows of `2 * n` bytes, `stride` apart from `c`. */
  function Chroma(scratch: seq<byte>, data: seq<byte>, c: nat, stride: nat, rows: nat, n: nat, vOff: nat): (r: seq<byte>)
    requires RowsFit(|data|, c, stride, rows, 2 * n) && Room(|scratch|, 0, vOff, rows, n)
    ensures |r| == |scratch|
  {
    RowsAt(data, c, stride, rows, n, Even);
    RowsAt(data, c, stride, rows, n, Odd);
    Split(scratch, Rows(data, c, stride, rows, n, Even), Rows(data, c, stride, rows, n, Odd), n, 0, 0, vOff)
  }

  /**
   * What `dump_videobuffer_to_file` writes for the buffer `data`, where `scratch` is
   * what the scratch buffer of the semi-planar formats holds before it is filled.
   */
  function Dump(data: seq<byte>, p: ImagePara, scratch: seq<byte>): seq<byte>
    requires Fits(|data|, p) && |scratch| == ScratchSize(p)
  {
    var c := ChromaStart(p);
    var w, h, hs := p.width, p.height, p.hStride;
    match p.fmt
    case Grey => Luma(data, p)
    case NV12 | NV21 => Luma(data, p) + Gathered(data, c, hs, h / 2, w, Whole)
    case YUV420 =>
      Luma(data, p) + Gathered(data, c, hs / 2, h / 2, w / 2, Whole)
      + Gathered(data, RowStart(c, hs / 2, h / 2), hs / 2, h / 2, w / 2, Whole)
    case NV16 => Luma(data, p) + Chroma(scratch, data, c, hs, h, w / 2, HalfArea(p))[..Area(p)]
    case NV24 => Luma(data, p) + Chroma(scratch, data, c, 2 * hs, h, w, Area(p))[..2 * Area(p)]
    case ARGB32 | ABGR32 | RGB32 | BGR32 => Gathered(data, 0, 4 * hs, h, 4 * w, Whole)
    case RGB565 | RGB555 | RGB444 => Gathered(data, 0, 2 * hs, h, 2 * w, Whole)
    case Unsupported => []
  }

  /**
   * GREY: the file is `height` rows of `width` bytes, byte `j` of its row `i` taken
   * from byte `j` of the buffer row `i` strides in.
   */
  lemma {:induction false} GreyLayout(data: seq<byte>, p: ImagePara, scratch: seq<byte>, i: nat, j: nat)
    requires p.fmt == Grey && Fits(|data|, p) && |scratch| == ScratchSize(p)
    requires i < p.height && j < p.width
    ensures RowStart(0, p.width, i) + j < |Dump(data, p, scratch)|
    ensures RowStart(0, p.hStride, i) + j < |data|
    ensures Dump(data, p, scratch)[RowStart(0, p.width, i) + j] == data[RowStart(0, p.hStride, i) + j]
  {
    GatheredAt(data, 0, p.hStride, p.height, p.width, Whole, i, j);
  }

  /**
   * NV12 and NV21: the file is the `height` luma rows followed by `height / 2`
   * chroma rows, all of `width` bytes; byte `j` of chroma row `i` (file row
   * `height + i`) is taken from the buffer row `i` strides after the chroma start.
   */
  lemma {:induction false} SemiPlanarLayout(data: seq<byte>, p: ImagePara, scratch: seq<byte>, i: nat, j: nat)
    requires (p.fmt == NV12 || p.fmt == NV21) && Fits(|data|, p) && |scratch| == ScratchSize(p)
    requires i < p.height / 2 && j < p.width
    ensures RowStart(0, p.width, p.height + i) + j < |Dump(data, p, scratch)|
    ensures RowStart(ChromaStart(p), p.hStride, i) + j < |data|
    ensures Dump(data, p, scratch)[RowStart(0, p.width, p.height + i) + j]
      == data[RowStart(ChromaStart(p), p.hStride, i) + j]
  {
    var w, h := p.width, p.height;
    var l := Luma(data, p);
    var g := Gathered(data, ChromaStart(p), p.hStride, h / 2, w, Whole);
    RowsAt(data, 0, p.hStride, h, w, Whole);
    ConcatSize(Rows(data, 0, p.hStride, h, w, Whole), w, 0);
    assert |l| == RowStart(0, w, h);
    GatheredAt(data, ChromaStart(p), p.hStride, h / 2, w, Whole, i, j);
    RowStartShift(0, w, h, i);
    RowStartFrom(RowStart(0, w, h), w, i);
    var at := |l| + (RowStart(0, w, i) + j);
    assert RowStart(0, w, h + i) + j == at;
    assert Dump(data, p, scratch) == l + g;
    assert (l + g)[at] == g[RowStart(0, w, i) + j];
  }

  /**
   * YUV420: the U rows and the V rows together are `2 * (height / 2)` rows of
   * `width / 2` bytes, `hStride / 2` apart from the chroma start: V continues right
   * after U.
   */
  lemma {:induction false} PlanarChromaContiguous(data: seq<byte>, p: ImagePara, scratch: seq<byte>)
    requires p.fmt == YUV420 && Fits(|data|, p) && |scratch| == ScratchSize(p)
    ensures RowsFit(|data|, ChromaStart(p), p.hStride / 2, p.height / 2 + p.height / 2, p.width / 2)
    ensures Dump(data, p, scratch)
      == Luma(data, p) + Gathered(data, ChromaStart(p), p.hStride / 2, p.height / 2 + p.height / 2, p.width / 2, Whole)
  {
    RowsContinue(data, ChromaStart(p), p.hStride / 2, p.height / 2, p.height / 2, p.width / 2, Whole);
  }

  /** The scratch buffer's first `2 * half` bytes, when U fills the first half and V the second. */
  lemma {:induction false} ChromaHalves(scratch: seq<byte>, data: seq<byte>, c: nat, stride: nat, rows: nat, n: nat, half: nat)
    requires RowsFit(|data|, c, stride, rows, 2 * n)
    requires half == rows * n && 2 * half <= |scratch|
    ensures Room(|scratch|, 0, half, rows, n)
    ensures Chroma(scratch, data, c, stride, rows, n, half)[..2 * half]
      == Gathered(data, c, stride, rows, n, Even) + Gathered(data, c, stride, rows, n, Odd)
  {
    var e, o := Rows(data, c, stride, rows, n, Even), Rows(data, c, stride, rows, n, Odd);
    RowsAt(data, c, stride, rows, n, Even);
    RowsAt(data, c, stride, rows, n, Odd);
    GatheredLength(data, c, stride, rows, n, Even);
    GatheredLength(data, c, stride, rows, n, Odd);
    SplitPlanes(scratch, e, o, n, 0, 0, half);
    var w1 := Write(scratch, 0, Concat(e, 0));
    var w := Write(w1, half, Concat(o, 0));
    WriteAt(scratch, 0, Concat(e, 0));
    WriteAt(w1, half, Concat(o, 0));
    assert w[..2 * half] == Concat(e, 0) + Concat(o, 0);
  }

  /**
   * NV16 with an even width: the luma rows, then the U plane (the even bytes of each
   * chroma row) and the V plane (the odd ones), whatever the scratch buffer held.
   */
  lemma {:induction false} NV16Planes(data: seq<byte>, p: ImagePara, scratch: seq<byte>)
    requires p.fmt == NV16 && Fits(|data|, p) && |scratch| == ScratchSize(p)
    requires p.width % 2 == 0
    ensures Dump(data, p, scratch) == Luma(data, p)
      + Gathered(data, ChromaStart(p), p.hStride, p.height, p.width / 2, Even)
      + Gathered(data, ChromaStart(p), p.hStride, p.height, p.width / 2, Odd)
  {
    var w, h, n := p.width, p.height, p.width / 2;
    RowStartIs(0, w, h);
    assert HalfArea(p) == h * n && Area(p) == 2 * HalfArea(p) by {
      assert w * h == 2 * (n * h);
    }
    ChromaHalves(scratch, data, ChromaStart(p), p.hStride, h, n, HalfArea(p));
  }

  /**
   * NV24: the luma rows, then the U plane and the V plane of `width * height`
   * bytes each, de-interleaved from chroma rows `2 * hStride` apart.
   */
  lemma {:induction false} NV24Planes(data: seq<byte>, p: ImagePara, scratch: seq<byte>)
    requires p.fmt == NV24 && Fits(|data|, p) && |scratch| == ScratchSize(p)
    ensures Dump(data, p, scratch) == Luma(data, p)
      + Gathered(data, ChromaStart(p), 2 * p.hStride, p.height, p.width, Even)
      + Gathered(data, ChromaStart(p), 2 * p.hStride, p.height, p.width, Odd)
  {
    RowStartIs(0, p.width, p.height);
    ChromaHalves(scratch, data, ChromaStart(p), 2 * p.hStride, p.height, p.width, Area(p));
  }

  /** How many bytes each format's dump writes. */
  function DumpSize(p: ImagePara): nat
  {
    var w, h := p.width, p.height;
    match p.fmt
    case Grey => h * w
    case NV12 | NV21 => h * w + h / 2 * w
    case YUV420 => h * w + 2 * (h / 2 * (w / 2))
    case NV16 => 2 * (h * w)
    case NV24 => 3 * (h * w)
    case ARGB32 | ABGR32 | RGB32 | BGR32 => h * (4 * w)
    case RGB565 | RGB555 | RGB444 => h * (2 * w)
    case Unsupported => 0
  }

  /** Every format writes its size; an unsupported one writes nothing. */
  lemma {:induction false} DumpLength(data: seq<byte>, p: ImagePara, scratch: seq<byte>)
    requires Fits(|data|, p) && |scratch| == ScratchSize(p)
    ensures |Dump(data, p, scratch)| == DumpSize(p)
  {
    match p.fmt {
      case NV12 | NV21 => InterleavedLength(data, p, scratch);
      case YUV420 => PlanarLength(data, p, scratch);
      case NV16 | NV24 => SplitLength(data, p, scratch);
      case Grey | ARGB32 | ABGR32 | RGB32 | BGR32 | RGB565 | RGB555 | RGB444 => PackedLength(data, p, scratch);
      case Unsupported =>
    }
  }

  lemma {:induction false} InterleavedLength(data: seq<byte>, p: ImagePara, scratch: seq<byte>)
    requires (p.fmt == NV12 || p.fmt == NV21) && Fits(|data|, p) && |scratch| == ScratchSize(p)
    ensures |Dump(data, p, scratch)| == DumpSize(p)
  {
    GatheredLength(data, 0, p.hStride, p.height, p.width, Whole);
    GatheredLength(data, ChromaStart(p), p.hStride, p.height / 2, p.width, Whole);
  }

  lemma {:induction false} PlanarLength(data: seq<byte>, p: ImagePara, scratch: seq<byte>)
    requires p.fmt == YUV420 && Fits(|data|, p) && |scratch| == ScratchSize(p)
    ensures |Dump(data, p, scratch)| == DumpSize(p)
  {
    var c, hs, h, w := ChromaStart(p), p.hStride / 2, p.height / 2, p.width / 2;
    GatheredLength(data, 0, p.hStride, p.height, p.width, Whole);
    GatheredLength(data, c, hs, h, w, Whole);
    GatheredLength(data, RowStart(c, hs, h), hs, h, w, Whole);
  }

  lemma {:induction false} SplitLength(data: seq<byte>, p: ImagePara, scratch: seq<byte>)
    requires (p.fmt == NV16 || p.fmt == NV24) && Fits(|data|, p) && |scratch| == ScratchSize(p)
    ensures |Dump(data, p, scratch)| == DumpSize(p)
  {
    GatheredLength(data, 0, p.hStride, p.height, p.width, Whole);
    RowStartIs(0, p.width, p.height);
  }

  lemma {:induction false} PackedLength(data: seq<byte>, p: ImagePara, scratch: seq<byte>)
    requires p.fmt in {Grey, ARGB32, ABGR32, RGB32, BGR32, RGB565, RGB555, RGB444}
    requires Fits(|data|, p) && |scratch| == ScratchSize(p)
    ensures |Dump(data, p, scratch)| == DumpSize(p)
  {
    var h, w, hs := p.height, p.width, p.hStride;
    if p.fmt == Grey {
      GatheredLength(data, 0, hs, h, w, Whole);
    } else if p.fmt in {ARGB32, ABGR32, RGB32, BGR32} {
      GatheredLength(data, 0, 4 * hs, h, 4 * w, Whole);
    } else {
      GatheredLength(data, 0, 2 * hs, h, 2 * w, Whole);
    }
  }

  // ---------------------------------------------------------------------------
  // The loops

  /**
   * `fwrite` of `count` rows of `n` bytes, the row cursor advancing by `stride`;
   * `next` is where the cursor stops.
   */
  method WriteRows(file: seq<byte>, data: seq<byte>, start: nat, stride: nat, count: nat, n: nat)
    returns (out: seq<byte>, next: nat)
    requires RowsFit(|data|, start, stride, count, n)
    ensures out == file + Gathered(data, start, stride, count, n, Whole)
    ensures next == RowStart(start, stride, count)
  {
    ghost var rows := Rows(data, start, stride, count, n, Whole);
    RowsAt(data, start, stride, count, n, Whole);
    out := file;
    next := start;
    var i := 0;
    while i < count
      invariant 0 <= i <= count && next == RowStart(start, stride, i)
      invariant out + Concat(rows, i) == file + Concat(rows, 0)
      decreases count - i
    {
      RowOfWhole(data, next, n);
      assert Concat(rows, i) == data[next..next + n] + Concat(rows, i + 1);
      out := out + data[next..next + n];
      next := next + stride;
      i := i + 1;
    }
  }

  /** One chroma row: its even bytes to `tmp[u..]`, its odd bytes to `tmp[v..]`. */
  method SplitRow(tmp: array<byte>, data: seq<byte>, base: nat, n: nat, u: nat, v: nat)
    requires base + 2 * n <= |data| && u + n <= v && v + n <= tmp.Length
    modifies tmp
    ensures tmp[..] == Write(Write(old(tmp[..]), u, RowOf(data, base, n, Even)), v, RowOf(data, base, n, Odd))
  {
    ghost var t0 := tmp[..];
    var j := 0;
    while j < n
      invariant 0 <= j <= n
      invariant forall k :: u <= k < u + j ==> tmp[k] == data[base + 2 * (k - u)]
      invariant forall k :: v <= k < v + j ==> tmp[k] == data[base + 2 * (k - v) + 1]
      invariant forall k :: 0 <= k < tmp.Length && !(u <= k < u + j) && !(v <= k < v + j) ==> tmp[k] == t0[k]
      decreases n - j
    {
      tmp[u + j] := data[base + 2 * j];
      tmp[v + j] := data[base + 2 * j + 1];
      j := j + 1;
    }
    SplitRowDone(t0, tmp[..], data, base, n, u, v);
  }

  lemma {:induction false} SplitRowDone(t0: seq<byte>, t: seq<byte>, data: seq<byte>, base: nat, n: nat, u: nat, v: nat)
    requires base + 2 * n <= |data| && u + n <= v && v + n <= |t0| == |t|
    requires forall k :: u <= k < u + n ==> t[k] == data[base + 2 * (k - u)]
    requires forall k :: v <= k < v + n ==> t[k] == data[base + 2 * (k - v) + 1]
    requires forall k :: 0 <= k < |t| && !(u <= k < u + n) && !(v <= k < v + n) ==> t[k] == t0[k]
    ensures t == Write(Write(t0, u, RowOf(data, base, n, Even)), v, RowOf(data, base, n, Odd))
  {
    var w := Write(Write(t0, u, RowOf(data, base, n, Even)), v, RowOf(data, base, n, Odd));
    RowOfAt(data, base, n, Even);
    RowOfAt(data, base, n, Odd);
    WriteAt(t0, u, RowOf(data, base, n, Even));
    WriteAt(Write(t0, u, RowOf(data, base, n, Even)), v, RowOf(data, base, n, Odd));
    assert forall k :: 0 <= k < |t| ==> t[k] == w[k];
  }

  /** The de-interleaving loop of NV16 and NV24, filling the scratch buffer `tmp`. */
  method Deinterleave(tmp: array<byte>, data: seq<byte>, start: nat, stride: nat, rows: nat, n: nat, vOff: nat)
    requires RowsFit(|data|, start, stride, rows, 2 * n) && Room(tmp.Length, 0, vOff, rows, n)
    modifies tmp
    ensures tmp[..] == Chroma(old(tmp[..]), data, start, stride, rows, n, vOff)
  {
    ghost var e, o := Rows(data, start, stride, rows, n, Even), Rows(data, start, stride, rows, n, Odd);
    RowsLength(data, start, stride, rows, n, Even);
    RowsLength(data, start, stride, rows, n, Odd);
    ghost var target := Split(tmp[..], e, o, n, 0, 0, vOff);
    var baseC := start;
    var tu: nat := 0;
    var tv: nat := vOff;
    var i := 0;
    while i < rows
      invariant 0 <= i <= rows && baseC == RowStart(start, stride, i) && Room(tmp.Length, tu, tv, rows - i, n)
      invariant Split(tmp[..], e, o, n, i, tu, tv) == target
      decreases rows - i
    {
      RowsRow(data, start, stride, rows, n, Even, i);
      RowsRow(data, start, stride, rows, n, Odd, i);
      ghost var t := tmp[..];
      SplitStep(t, e, o, n, i, tu, tv);
      SplitRow(tmp, data, baseC, n, tu, tv);
      assert tmp[..] == Write(Write(t, tu, e[i]), tv, o[i]);
      baseC := baseC + stride;
      tu := tu + n;
      tv := tv + n;
      i := i + 1;
    }
  }

  /**
   * The chroma part of NV16 and NV24: de-interleave into a scratch buffer that
   * first holds `scratch`, then write its first `total` bytes.
   */
  method WriteSplit(file: seq<byte>, data: seq<byte>, scratch: seq<byte>, start: nat, stride: nat, rows: nat, n: nat, vOff: nat, total: nat)
    returns (out: seq<byte>)
    requires RowsFit(|data|, start, stride, rows, 2 * n) && Room(|scratch|, 0, vOff, rows, n) && total <= |scratch|
    ensures out == file + Chroma(scratch, data, start, stride, rows, n, vOff)[..total]
  {
    var tmp := new byte[|scratch|](k => if 0 <= k < |scratch| then scratch[k] else 0);
    assert tmp[..] == scratch;
    Deinterleave(tmp, data, start, stride, rows, n, vOff);
    out := file + tmp[..total];
  }

  /** NV16: the luma rows, then the first `width * height` bytes of the de-interleaved chroma. */
  method DumpNV16(data: seq<byte>, p: ImagePara, scratch: seq<byte>) returns (out: seq<byte>)
    requires p.fmt == NV16 && Fits(|data|, p) && |scratch| == ScratchSize(p)
    ensures out == Dump(data, p, scratch)
  {
    var next;
    out, next := WriteRows([], data, 0, p.hStride, p.height, p.width);
    out := WriteSplit(out, data, scratch, ChromaStart(p), p.hStride, p.height, p.width / 2, HalfArea(p), Area(p));
  }

  /** NV24: the luma rows, then the U and V planes from chroma rows `2 * hStride` apart. */
  method DumpNV24(data: seq<byte>, p: ImagePara, scratch: seq<byte>) returns (out: seq<byte>)
    requires p.fmt == NV24 && Fits(|data|, p) && |scratch| == ScratchSize(p)
    ensures out == Dump(data, p, scratch)
  {
    var next;
    out, next := WriteRows([], data, 0, p.hStride, p.height, p.width);
    out := WriteSplit(out, data, scratch, ChromaStart(p), 2 * p.hStride, p.height, p.width, Area(p), 2 * Area(p));
  }

  /** NV12 and NV21: the luma rows, then `height / 2` interleaved chroma rows. */
  method DumpNV12(data: seq<byte>, p: ImagePara, scratch: seq<byte>) returns (out: seq<byte>)
    requires (p.fmt == NV12 || p.fmt == NV21) && Fits(|data|, p) && |scratch| == ScratchSize(p)
    ensures out == Dump(data, p, scratch)
  {
    var next;
    out, next := WriteRows([], data, 0, p.hStride, p.height, p.width);
    out, next := WriteRows(out, data, ChromaStart(p), p.hStride, p.height / 2, p.width);
  }

  /** YUV420: the luma rows, the U rows, and the V rows where the U rows left the cursor. */
  method DumpYUV420(data: seq<byte>, p: ImagePara, scratch: seq<byte>) returns (out: seq<byte>)
    requires p.fmt == YUV420 && Fits(|data|, p) && |scratch| == ScratchSize(p)
    ensures out == Dump(data, p, scratch)
  {
    var next;
    var hs, h, w := p.hStride / 2, p.height / 2, p.width / 2;
    out, next := WriteRows([], data, 0, p.hStride, p.height, p.width);
    out, next := WriteRows(out, data, ChromaStart(p), hs, h, w);
    out, next := WriteRows(out, data, next, hs, h, w);
  }

  /** GREY and the packed RGB formats: `height` rows of `bpp * width` bytes, `bpp * hStride` apart. */
  method DumpPacked(data: seq<byte>, p: ImagePara, scratch: seq<byte>, bpp: nat) returns (out: seq<byte>)
    requires Fits(|data|, p) && |scratch| == ScratchSize(p)
    requires || (p.fmt == Grey && bpp == 1)
             || (p.fmt in {ARGB32, ABGR32, RGB32, BGR32} && bpp == 4)
             || (p.fmt in {RGB565, RGB555, RGB444} && bpp == 2)
    ensures out == Dump(data, p, scratch)
  {
    var next;
    out, next := WriteRows([], data, 0, bpp * p.hStride, p.height, bpp * p.width);
  }

  /**
   * `dump_videobuffer_to_file`: nothing without a file or a buffer; otherwise the
   * buffer's planes as its format lays them out.
   */
  method DumpVideoBuffer(fileOpen: bool, buffer: Option<seq<byte>>, p: ImagePara, scratch: seq<byte>)
    returns (out: seq<byte>)
    requires buffer.Some? ==> Fits(|buffer.value|, p)
    requires |scratch| == ScratchSize(p)
    ensures !fileOpen || buffer.None? ==> out == []
    ensures fileOpen && buffer.Some? ==> out == Dump(buffer.value, p, scratch)
  {
    out := [];
    if !fileOpen || buffer.None? {
      return;
    }
    var data := buffer.value;
    match p.fmt {
      case NV16 => out := DumpNV16(data, p, scratch);
      case NV12 | NV21 => out := DumpNV12(data, p, scratch);
      case YUV420 => out := DumpYUV420(data, p, scratch);
      case NV24 => out := DumpNV24(data, p, scratch);
      case Grey => out := DumpPacked(data, p, scratch, 1);
      case ARGB32 | ABGR32 | RGB32 | BGR32 => out := DumpPacked(data, p, scratch, 4);
      case RGB565 | RGB555 | RGB444 => out := DumpPacked(data, p, scratch, 2);
      case Unsupported =>
    }
  }

  /**
   * `dump_normalbuffer_to_file`: the buffer's active bytes as they are, or nothing
   * without a file or a buffer.
   */
  method DumpNormalBuffer(fileOpen: bool, buffer: Option<seq<byte>>) returns (out: seq<byte>)
    ensures fileOpen && buffer.Some? ==> out == buffer.value
    ensures !fileOpen || buffer.None? ==> out == []
  {
    out := [];
    if fileOpen && buffer.Some? {
      out := out + buffer.value;
    }
  }
}
