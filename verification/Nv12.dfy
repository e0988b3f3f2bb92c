/** The 2:1 luma downscale: a sharpening 4-tap in each direction (with a box filter as
    the fallback), as the program runs it, with 8- and 16-lane vector loops, scalar
    tails and four rotating row buffers, against the plain two-pass filter. */
module Nv12 {
  import opened Serial

  function Clamp(v: int, lo: int, hi: int): int { if v < lo then lo else if v > hi then hi else v }

  /** 9(b + c) - (a + d), rounded down four bits. */
  function Sharp4(a: int, b: int, c: int, d: int): int { (9 * (b + c) - (a + d) + 8) / 16 }

  // ---- the reference: two plain passes ------------------------------------------------

  /** A source row is `2 * w` pixels. */
  function HFilter(row: seq<byte>, w: nat, x: nat): (r: int16)
    requires |row| == 2 * w && x < w
    ensures -32 <= r <= 287
  {
    Sharp4(row[Clamp(2 * x - 1, 0, 2 * w - 1)], row[2 * x], row[2 * x + 1],
           row[Clamp(2 * x + 2, 0, 2 * w - 1)])
  }

  function HRow(row: seq<byte>, w: nat): (r: seq<int16>)
    requires |row| == 2 * w
    ensures |r| == w
    ensures forall x :: 0 <= x < w ==> r[x] == HFilter(row, w, x)
  {
    seq(w, x requires 0 <= x < w => HFilter(row, w, x))
  }

  predicate Filtered(r: int) { -32 <= r <= 287 }

  function VFilter(a: int16, b: int16, c: int16, d: int16): (r: byte)
  {
    Clamp(Sharp4(a, b, c, d), 0, 255)
  }

  /** An image: `height` rows of `2 * w` pixels, `stride` apart. */
  predicate ImageFits(length: nat, stride: nat, rowBytes: nat, height: nat)
  {
    rowBytes <= stride && (height > 0 ==> (height - 1) * stride + rowBytes <= length)
  }

  lemma RowInside(length: nat, stride: nat, rowBytes: nat, height: nat, y: nat)
    requires ImageFits(length, stride, rowBytes, height) && y < height
    ensures 0 <= y * stride && y * stride + rowBytes <= length
  {
    MulMonotone(y, height - 1, stride);
  }

  function SourceRow(src: seq<byte>, stride: nat, w: nat, height: nat, y: int): (r: seq<byte>)
    requires ImageFits(|src|, stride, 2 * w, height) && 0 <= y < height
    ensures |r| == 2 * w
  {
    RowInside(|src|, stride, 2 * w, height, y);
    src[y * stride..y * stride + 2 * w]
  }

  /** Row `y` of the source, or the nearest one, through the horizontal filter. */
  function FilteredRow(src: seq<byte>, stride: nat, w: nat, h: nat, y: int): (r: seq<int16>)
    requires h > 0 && ImageFits(|src|, stride, 2 * w, 2 * h)
    ensures |r| == w
  {
    HRow(SourceRow(src, stride, w, 2 * h, Clamp(y, 0, 2 * h - 1)), w)
  }

  function VRow(a: seq<int16>, b: seq<int16>, c: seq<int16>, d: seq<int16>): (r: seq<byte>)
    requires |a| == |b| == |c| == |d|
    ensures |r| == |a| && forall x :: 0 <= x < |a| ==> r[x] == VFilter(a[x], b[x], c[x], d[x])
  {
    seq(|a|, x requires 0 <= x < |a| => VFilter(a[x], b[x], c[x], d[x]))
  }

  /** Output row `y` of the two-pass filter. */
  function SharpRow(src: seq<byte>, stride: nat, w: nat, h: nat, y: nat): (r: seq<byte>)
    requires h > 0 && ImageFits(|src|, stride, 2 * w, 2 * h) && y < h
    ensures |r| == w
  {
    VRow(FilteredRow(src, stride, w, h, 2 * y - 1), FilteredRow(src, stride, w, h, 2 * y),
         FilteredRow(src, stride, w, h, 2 * y + 1), FilteredRow(src, stride, w, h, 2 * y + 2))
  }

  /** The source pixel nearest to column `i` of row `j`. */
  function Near(src: seq<byte>, stride: nat, w: nat, h: nat, i: int, j: int): byte
    requires h > 0 && w > 0 && ImageFits(|src|, stride, 2 * w, 2 * h)
  {
    SourceRow(src, stride, w, 2 * h, Clamp(j, 0, 2 * h - 1))[Clamp(i, 0, 2 * w - 1)]
  }

  /** A flat neighbourhood passes through unchanged. */
  lemma FlatUnchanged(src: seq<byte>, stride: nat, w: nat, h: nat, x: nat, y: nat, v: byte)
    requires h > 0 && ImageFits(|src|, stride, 2 * w, 2 * h) && x < w && y < h
    requires forall i, j :: 2 * x - 1 <= i <= 2 * x + 2 && 2 * y - 1 <= j <= 2 * y + 2 ==>
      Near(src, stride, w, h, i, j) == v
    ensures SharpRow(src, stride, w, h, y)[x] == v
  {
    forall j | 2 * y - 1 <= j <= 2 * y + 2 ensures FilteredRow(src, stride, w, h, j)[x] == v {
      assert Near(src, stride, w, h, 2 * x - 1, j) == v && Near(src, stride, w, h, 2 * x, j) == v;
      assert Near(src, stride, w, h, 2 * x + 1, j) == v && Near(src, stride, w, h, 2 * x + 2, j) == v;
    }
  }

  // ---- what the filter does to a picture -----------------------------------------------------

  /** The values at -3, -1, 1 and 3 of the cubic with these coefficients. */
  predicate OnCubic(p: int, q: int, r: int, s: int, a: int, b: int, c: int, d: int)
  {
    && p == -27 * a + 9 * b - 3 * c + d && q == -a + b - c + d
    && r == a + b + c + d && s == 27 * a + 9 * b + 3 * c + d
  }

  predicate CubicAcross(src: seq<byte>, stride: nat, w: nat, h: nat, x: nat, j: int, a: int, b: int, c: int, d: int)
    requires h > 0 && w > 0 && ImageFits(|src|, stride, 2 * w, 2 * h)
  {
    OnCubic(Near(src, stride, w, h, 2 * x - 1, j), Near(src, stride, w, h, 2 * x, j),
            Near(src, stride, w, h, 2 * x + 1, j), Near(src, stride, w, h, 2 * x + 2, j), a, b, c, d)
  }

  predicate CubicDown(src: seq<byte>, stride: nat, w: nat, h: nat, i: int, y: nat, a: int, b: int, c: int, d: int)
    requires h > 0 && w > 0 && ImageFits(|src|, stride, 2 * w, 2 * h)
  {
    OnCubic(Near(src, stride, w, h, i, 2 * y - 1), Near(src, stride, w, h, i, 2 * y),
            Near(src, stride, w, h, i, 2 * y + 1), Near(src, stride, w, h, i, 2 * y + 2), a, b, c, d)
  }

  /** A picture that is a cubic across comes out as that cubic's value between the pixels, as
      far as a byte holds it; four taps that do so can only be these. */
  lemma CubicAcrossIsExact(
      src: seq<byte>, stride: nat, w: nat, h: nat, x: nat, y: nat, a: int, b: int, c: int, d: int)
    requires h > 0 && ImageFits(|src|, stride, 2 * w, 2 * h) && x < w && y < h
    requires forall j :: 2 * y - 1 <= j <= 2 * y + 2 ==> CubicAcross(src, stride, w, h, x, j, a, b, c, d)
    ensures SharpRow(src, stride, w, h, y)[x] as int == if d < 0 then 0 else if d > 255 then 255 else d
  {
    forall j | 2 * y - 1 <= j <= 2 * y + 2 ensures FilteredRow(src, stride, w, h, j)[x] as int == d {
      assert CubicAcross(src, stride, w, h, x, j, a, b, c, d);
    }
  }

  /** And so does one that is a cubic down. */
  lemma CubicDownIsExact(
      src: seq<byte>, stride: nat, w: nat, h: nat, x: nat, y: nat, a: int, b: int, c: int, d: int)
    requires h > 0 && ImageFits(|src|, stride, 2 * w, 2 * h) && x < w && y < h
    requires forall i :: 2 * x - 1 <= i <= 2 * x + 2 ==> CubicDown(src, stride, w, h, i, y, a, b, c, d)
    ensures SharpRow(src, stride, w, h, y)[x] as int == if d < 0 then 0 else if d > 255 then 255 else d
  {
    forall k | 0 <= k < 4
      ensures Column(src, stride, w, h, x, y)[k] == Near(src, stride, w, h, 2 * x, 2 * y - 1 + k) as int
    {
      var j := 2 * y - 1 + k;
      forall i | 2 * x - 1 <= i <= 2 * x + 2
        ensures Near(src, stride, w, h, i, j) == Near(src, stride, w, h, 2 * x, j)
      {
        assert CubicDown(src, stride, w, h, i, y, a, b, c, d);
        assert CubicDown(src, stride, w, h, 2 * x, y, a, b, c, d);
      }
      FlatAcross(src, stride, w, h, x, j);
    }
    assert CubicDown(src, stride, w, h, 2 * x, y, a, b, c, d);
    CubicMiddle(Column(src, stride, w, h, x, y), a, b, c, d);
    var v := ColumnRounds(src, stride, w, h, x, y);
    assert v == d;
  }

  /** What the first pass makes of row `j` in output column `x`. */
  function Across(src: seq<byte>, stride: nat, w: nat, h: nat, x: nat, j: int): int
    requires h > 0 && ImageFits(|src|, stride, 2 * w, 2 * h) && x < w
  {
    FilteredRow(src, stride, w, h, j)[x]
  }

  /** And of the four rows around output pixel (x, y). */
  function Column(src: seq<byte>, stride: nat, w: nat, h: nat, x: nat, y: nat): (f: seq<int>)
    requires h > 0 && ImageFits(|src|, stride, 2 * w, 2 * h) && x < w && y < h
    ensures |f| == 4 && forall k :: 0 <= k < 4 ==> f[k] == Across(src, stride, w, h, x, 2 * y - 1 + k)
  {
    [Across(src, stride, w, h, x, 2 * y - 1), Across(src, stride, w, h, x, 2 * y),
     Across(src, stride, w, h, x, 2 * y + 1), Across(src, stride, w, h, x, 2 * y + 2)]
  }

  lemma CubicMiddle(f: seq<int>, a: int, b: int, c: int, d: int)
    requires |f| == 4 && OnCubic(f[0], f[1], f[2], f[3], a, b, c, d)
    ensures 9 * f[1] + 9 * f[2] - f[0] - f[3] == 16 * d
  {
  }

  lemma FlatAcross(src: seq<byte>, stride: nat, w: nat, h: nat, x: nat, j: int)
    requires h > 0 && ImageFits(|src|, stride, 2 * w, 2 * h) && x < w
    requires forall i :: 2 * x - 1 <= i <= 2 * x + 2 ==>
      Near(src, stride, w, h, i, j) == Near(src, stride, w, h, 2 * x, j)
    ensures FilteredRow(src, stride, w, h, j)[x] as int == Near(src, stride, w, h, 2 * x, j) as int
  {
    assert Near(src, stride, w, h, 2 * x - 1, j) == Near(src, stride, w, h, 2 * x, j);
    assert Near(src, stride, w, h, 2 * x + 1, j) == Near(src, stride, w, h, 2 * x, j);
    assert Near(src, stride, w, h, 2 * x + 2, j) == Near(src, stride, w, h, 2 * x, j);
  }

  /** The nearest whole number to a sixteenth of `sum`, the greater of two. */
  predicate Nearest16(v: int, sum: int) { sum - 8 < 16 * v <= sum + 8 }

  /** On any picture each pass rounds to the nearest, and only the second is cut to a byte. */
  lemma RoundsToNearest(src: seq<byte>, stride: nat, w: nat, h: nat, x: nat, y: nat) returns (v: int)
    requires h > 0 && ImageFits(|src|, stride, 2 * w, 2 * h) && x < w && y < h
    ensures
      var f := Column(src, stride, w, h, x, y);
      && (forall k :: 0 <= k < 4 ==> RoundsAcross(src, stride, w, h, x, 2 * y - 1 + k, f[k]))
      && Nearest16(v, 9 * f[1] + 9 * f[2] - f[0] - f[3])
      && SharpRow(src, stride, w, h, y)[x] as int == if v < 0 then 0 else if v > 255 then 255 else v
  {
    v := ColumnRounds(src, stride, w, h, x, y);
    forall k | 0 <= k < 4
      ensures RoundsAcross(src, stride, w, h, x, 2 * y - 1 + k, Column(src, stride, w, h, x, y)[k])
    {
      RowRounds(src, stride, w, h, x, 2 * y - 1 + k);
    }
  }

  lemma ColumnRounds(src: seq<byte>, stride: nat, w: nat, h: nat, x: nat, y: nat) returns (v: int)
    requires h > 0 && ImageFits(|src|, stride, 2 * w, 2 * h) && x < w && y < h
    ensures
      var f := Column(src, stride, w, h, x, y);
      && Nearest16(v, 9 * f[1] + 9 * f[2] - f[0] - f[3])
      && SharpRow(src, stride, w, h, y)[x] as int == if v < 0 then 0 else if v > 255 then 255 else v
  {
    var f := Column(src, stride, w, h, x, y);
    v := Sharp4(f[0], f[1], f[2], f[3]);
    assert f[0] == FilteredRow(src, stride, w, h, 2 * y - 1)[x] as int;
    assert f[1] == FilteredRow(src, stride, w, h, 2 * y)[x] as int;
    assert f[2] == FilteredRow(src, stride, w, h, 2 * y + 1)[x] as int;
    assert f[3] == FilteredRow(src, stride, w, h, 2 * y + 2)[x] as int;
  }

  lemma RowRounds(src: seq<byte>, stride: nat, w: nat, h: nat, x: nat, j: int)
    requires h > 0 && ImageFits(|src|, stride, 2 * w, 2 * h) && x < w
    ensures RoundsAcross(src, stride, w, h, x, j, FilteredRow(src, stride, w, h, j)[x])
  {
  }

  predicate RoundsAcross(src: seq<byte>, stride: nat, w: nat, h: nat, x: nat, j: int, v: int)
    requires h > 0 && w > 0 && ImageFits(|src|, stride, 2 * w, 2 * h)
  {
    var b: int, c: int := Near(src, stride, w, h, 2 * x, j), Near(src, stride, w, h, 2 * x + 1, j);
    var a: int, d: int := Near(src, stride, w, h, 2 * x - 1, j), Near(src, stride, w, h, 2 * x + 2, j);
    Nearest16(v, 9 * b + 9 * c - a - d)
  }

  // ---- vector arithmetic ------------------------------------------------------------------

  /** 16-bit lanes wrap. */
  function S16(x: int): int16 { (x + 0x8000) % 0x1_0000 - 0x8000 }

  /** Even and odd lanes of a de-interleaving 32-byte load, which must lie in the row. */
  function LoadEven(row: seq<byte>, at: nat, lane: nat): byte
    requires at + 32 <= |row| && lane < 16
  {
    row[at + 2 * lane]
  }

  function LoadOdd(row: seq<byte>, at: nat, lane: nat): byte
    requires at + 32 <= |row| && lane < 16
  {
    row[at + 2 * lane + 1]
  }

  /** Rounding shift right by four. */
  function RoundShift4(v: int16): int16 { (v + 8) / 16 }

  /** Lane `i` of the horizontal vector step at output column `x`. */
  function HLane(row: seq<byte>, w: nat, x: nat, i: nat): int16
    requires |row| == 2 * w && 1 <= x && x + 17 <= w && i < 16
  {
    var bc := S16(LoadEven(row, 2 * x, i) + LoadOdd(row, 2 * x, i));
    var ad := S16(LoadEven(row, 2 * x - 1, i) + LoadEven(row, 2 * x + 2, i));
    RoundShift4(S16(S16(bc * 9) - ad))
  }

  /** Lane of the vertical vector step, saturated to a byte. */
  function VLane(a: int16, b: int16, c: int16, e: int16): byte
  {
    Clamp(RoundShift4(S16(S16(S16(b + c) * 9) - S16(a + e))), 0, 255)
  }

  lemma S16Small(x: int)
    requires -0x8000 <= x < 0x8000
    ensures S16(x) == x
  {
  }

  lemma NoOverflow(a: int, b: int, c: int, d: int, lo: int, hi: int)
    requires lo <= a <= hi && lo <= b <= hi && lo <= c <= hi && lo <= d <= hi
    requires -32 <= lo && hi <= 287
    ensures S16(b + c) == b + c && S16(a + d) == a + d
    ensures S16((b + c) * 9) == (b + c) * 9
    ensures S16((b + c) * 9 - (a + d)) == (b + c) * 9 - (a + d)
  {
    S16Small(b + c);
    S16Small(a + d);
    S16Small((b + c) * 9);
    S16Small((b + c) * 9 - (a + d));
  }

  /** No lane of the horizontal step overflows: it is the scalar filter. */
  lemma HLaneIs(row: seq<byte>, w: nat, x: nat, i: nat)
    requires |row| == 2 * w && 1 <= x && x + 17 <= w && i < 16
    ensures HLane(row, w, x, i) == HFilter(row, w, x + i)
  {
    var k := 2 * (x + i);
    NoOverflow(row[k - 1], row[k], row[k + 1], row[k + 2], 0, 255);
  }

  /** Nor does one of the vertical step, on rows the horizontal pass can produce. */
  lemma VLaneIs(a: int16, b: int16, c: int16, e: int16)
    requires Filtered(a) && Filtered(b) && Filtered(c) && Filtered(e)
    ensures VLane(a, b, c, e) == VFilter(a, b, c, e)
  {
    NoOverflow(a, b, c, e, -32, 287);
  }

  // ---- the program ---------------------------------------------------------------------------

  /** One source row at `from` into the row buffer at `at`. */
  method SharpHRow(rows: array<int16>, at: nat, src: array<byte>, from: nat, w: nat)
    requires w >= 2 && at + w <= rows.Length && from + 2 * w <= src.Length
    modifies rows
    ensures Slot(rows[..], at, w) == HRow(src[from..from + 2 * w], w)
    ensures forall k :: 0 <= k < rows.Length && !(at <= k < at + w) ==> rows[k] == old(rows[k])
  {
    ghost var row := src[from..from + 2 * w];
    rows[at] := Sharp4(src[from], src[from], src[from + 1], src[from + 2]);
    var x := SharpHVector(rows, at, src, from, w, row);
    while x < w
      invariant 1 <= x <= w
      invariant src[from..from + 2 * w] == row
      invariant forall j :: 0 <= j < x ==> rows[at + j] == HFilter(row, w, j)
      invariant forall k :: 0 <= k < rows.Length && !(at <= k < at + w) ==> rows[k] == old(rows[k])
    {
      var v := Sharp4(src[from + Clamp(2 * x - 1, 0, 2 * w - 1)], src[from + 2 * x],
                      src[from + 2 * x + 1], src[from + Clamp(2 * x + 2, 0, 2 * w - 1)]);
      assert v == HFilter(row, w, x);
      rows[at + x] := v;
      x := x + 1;
    }
    assert Slot(rows[..], at, w) == HRow(row, w);
  }

  /** The sixteen-lane part of it, from the second column as far as it goes. */
  method SharpHVector(rows: array<int16>, at: nat, src: array<byte>, from: nat, w: nat, ghost row: seq<byte>)
      returns (x: nat)
    requires w >= 2 && at + w <= rows.Length && from + 2 * w <= src.Length
    requires row == src[from..from + 2 * w] && rows[at] == HFilter(row, w, 0)
    modifies rows
    ensures 1 <= x <= w && x + 17 > w && row == src[from..from + 2 * w]
    ensures forall j :: 0 <= j < x ==> rows[at + j] == HFilter(row, w, j)
    ensures forall k :: 0 <= k < rows.Length && !(at <= k < at + w) ==> rows[k] == old(rows[k])
  {
    x := 1;
    while x + 17 <= w
      invariant 1 <= x <= w
      invariant src[from..from + 2 * w] == row
      invariant forall j :: 0 <= j < x ==> rows[at + j] == HFilter(row, w, j)
      invariant forall k :: 0 <= k < rows.Length && !(at <= k < at + w) ==> rows[k] == old(rows[k])
    {
      forall i | x <= i < x + 16 ensures HLane(row, w, x, i - x) == HFilter(row, w, i) {
        HLaneIs(row, w, x, i - x);
      }
      forall i | x <= i < x + 16 {
        rows[at + i] := HLane(src[from..from + 2 * w], w, x, i - x);
      }
      x := x + 16;
    }
  }

  /** Four row buffers of `w` columns inside `length`, no two overlapping. */
  predicate Slots(r: seq<nat>, w: nat, length: nat)
  {
    && |r| == 4 && (forall k :: 0 <= k < 4 ==> r[k] + w <= length)
    && (forall j, k :: 0 <= j < k < 4 ==> r[j] + w <= r[k] || r[k] + w <= r[j])
  }

  predicate AllFiltered(row: seq<int16>)
  {
    forall x :: 0 <= x < |row| ==> Filtered(row[x])
  }

  /** What a slot holds. */
  function Slot(rows: seq<int16>, at: nat, w: nat): (r: seq<int16>)
    requires at + w <= |rows|
    ensures |r| == w && forall j :: 0 <= j < w ==> r[j] == rows[at + j]
  {
    rows[at..at + w]
  }

  /** The output row the four slots make. */
  function OutRow(rows: seq<int16>, r: seq<nat>, w: nat): (out: seq<byte>)
    requires Slots(r, w, |rows|)
    ensures |out| == w
    ensures forall x :: 0 <= x < w ==>
      out[x] == VFilter(rows[r[0] + x], rows[r[1] + x], rows[r[2] + x], rows[r[3] + x])
  {
    VRow(Slot(rows, r[0], w), Slot(rows, r[1], w), Slot(rows, r[2], w), Slot(rows, r[3], w))
  }

  lemma OutAt(rows: seq<int16>, r: seq<nat>, w: nat, x: nat)
    requires Slots(r, w, |rows|) && x < w
    ensures OutRow(rows, r, w)[x]
         == Clamp(Sharp4(rows[r[0] + x], rows[r[1] + x], rows[r[2] + x], rows[r[3] + x]), 0, 255)
  {
  }

  /** One output row from the four slots. */
  method SharpVRow(dst: array<byte>, at: nat, rows: array<int16>, r: seq<nat>, w: nat)
    requires Slots(r, w, rows.Length) && at + w <= dst.Length
    requires forall k :: 0 <= k < 4 ==> AllFiltered(Slot(rows[..], r[k], w))
    modifies dst
    ensures dst[at..at + w] == OutRow(rows[..], r, w)
    ensures forall k :: 0 <= k < dst.Length && !(at <= k < at + w) ==> dst[k] == old(dst[k])
  {
    ghost var out := OutRow(rows[..], r, w);
    var x := SharpVVector(dst, at, rows, r, w, out);
    while x < w
      invariant 0 <= x <= w
      invariant forall j :: 0 <= j < x ==> dst[at + j] == out[j]
      invariant forall k :: 0 <= k < dst.Length && !(at <= k < at + w) ==> dst[k] == old(dst[k])
    {
      OutAt(rows[..], r, w, x);
      dst[at + x] := Clamp(Sharp4(rows[r[0] + x], rows[r[1] + x], rows[r[2] + x], rows[r[3] + x]), 0, 255);
      x := x + 1;
    }
    assert forall j :: 0 <= j < w ==> dst[at..at + w][j] == out[j];
  }

  /** The eight-lane part of it, as far as it goes. */
  method SharpVVector(dst: array<byte>, at: nat, rows: array<int16>, r: seq<nat>, w: nat, ghost out: seq<byte>)
      returns (x: nat)
    requires Slots(r, w, rows.Length) && at + w <= dst.Length && out == OutRow(rows[..], r, w)
    requires forall k :: 0 <= k < 4 ==> AllFiltered(Slot(rows[..], r[k], w))
    modifies dst
    ensures w - 8 < x <= w
    ensures forall j :: 0 <= j < x ==> dst[at + j] == out[j]
    ensures forall k :: 0 <= k < dst.Length && !(at <= k < at + w) ==> dst[k] == old(dst[k])
  {
    x := 0;
    while x + 8 <= w
      invariant 0 <= x <= w
      invariant forall j :: 0 <= j < x ==> dst[at + j] == out[j]
      invariant forall k :: 0 <= k < dst.Length && !(at <= k < at + w) ==> dst[k] == old(dst[k])
    {
      forall i | x <= i < x + 8
        ensures VLane(rows[r[0] + i], rows[r[1] + i], rows[r[2] + i], rows[r[3] + i]) == out[i]
      {
        assert forall k :: 0 <= k < 4 ==> Filtered(Slot(rows[..], r[k], w)[i]);
        VLaneIs(rows[r[0] + i], rows[r[1] + i], rows[r[2] + i], rows[r[3] + i]);
      }
      forall i | x <= i < x + 8 {
        dst[at + i] := VLane(rows[r[0] + i], rows[r[1] + i], rows[r[2] + i], rows[r[3] + i]);
      }
      x := x + 8;
    }
  }

  /** The slots hold the filtered rows 2y-1, 2y, 2y+1 and 2y+2. */
  predicate SlotsHold(rows: seq<int16>, r: seq<nat>, src: seq<byte>, stride: nat, w: nat, h: nat, y: nat)
    requires Slots(r, w, |rows|) && h > 0 && ImageFits(|src|, stride, 2 * w, 2 * h)
  {
    && Slot(rows, r[0], w) == FilteredRow(src, stride, w, h, 2 * y - 1)
    && Slot(rows, r[1], w) == FilteredRow(src, stride, w, h, 2 * y)
    && Slot(rows, r[2], w) == FilteredRow(src, stride, w, h, 2 * y + 1)
    && Slot(rows, r[3], w) == FilteredRow(src, stride, w, h, 2 * y + 2)
  }

  lemma HeldRows(rows: seq<int16>, r: seq<nat>, src: seq<byte>, stride: nat, w: nat, h: nat, y: nat)
    requires Slots(r, w, |rows|) && y < h && ImageFits(|src|, stride, 2 * w, 2 * h)
    requires SlotsHold(rows, r, src, stride, w, h, y)
    ensures forall k :: 0 <= k < 4 ==> AllFiltered(Slot(rows, r[k], w))
    ensures OutRow(rows, r, w) == SharpRow(src, stride, w, h, y)
  {
  }

  predicate InRow(k: nat, stride: nat, w: nat, y: nat)
  {
    y * stride <= k < y * stride + w
  }

  /** The pixels of the picture, as opposed to the padding of its rows. */
  predicate InPicture(k: nat, stride: nat, w: nat, h: nat)
  {
    exists y :: 0 <= y < h && InRow(k, stride, w, y)
  }

  /** Row `y` of the picture is `row`. */
  predicate RowWritten(dst: seq<byte>, stride: nat, w: nat, h: nat, y: nat, row: seq<byte>)
    requires ImageFits(|dst|, stride, w, h) && y < h
  {
    RowInside(|dst|, stride, w, h, y);
    dst[y * stride..y * stride + w] == row
  }

  /** The first `n` rows of the picture are the two-pass filter's. */
  predicate Sharpened(dst: seq<byte>, stride: nat, w: nat, h: nat, s: seq<byte>, srcStride: nat, n: nat)
    requires h > 0 && ImageFits(|dst|, stride, w, h) && ImageFits(|s|, srcStride, 2 * w, 2 * h) && n <= h
  {
    forall y :: 0 <= y < n ==> RowWritten(dst, stride, w, h, y, SharpRow(s, srcStride, w, h, y))
  }

  /** Nothing outside the picture has changed. */
  predicate Padding(before: seq<byte>, after: seq<byte>, stride: nat, w: nat, h: nat)
    requires |before| == |after|
  {
    forall k :: 0 <= k < |before| && !InPicture(k, stride, w, h) ==> after[k] == before[k]
  }

  /** Writing row `y` leaves every earlier row. */
  lemma RowKept(before: seq<byte>, after: seq<byte>, stride: nat, w: nat, h: nat, y: nat, z: nat, row: seq<byte>)
    requires |before| == |after| && ImageFits(|before|, stride, w, h) && z < y < h
    requires forall k :: 0 <= k < |before| && !InRow(k, stride, w, y) ==> after[k] == before[k]
    requires RowWritten(before, stride, w, h, z, row)
    ensures RowWritten(after, stride, w, h, z, row)
  {
    RowsApart(stride, w, z, y);
    RowInside(|before|, stride, w, h, z);
    var at := z * stride;
    assert forall k :: at <= k < at + w ==> after[k] == before[k];
    assert after[at..at + w] == before[at..at + w];
  }

  lemma PaddingKept(before: seq<byte>, after: seq<byte>, stride: nat, w: nat, h: nat, y: nat)
    requires |before| == |after| && y < h
    requires forall k :: 0 <= k < |before| && !InRow(k, stride, w, y) ==> after[k] == before[k]
    ensures Padding(before, after, stride, w, h)
  {
  }

  lemma RowsApart(stride: nat, w: nat, y: nat, z: nat)
    requires w <= stride && y < z
    ensures y * stride + w <= z * stride
  {
    MulMonotone(y + 1, z, stride);
  }

  /** sharp_hrow of the nearest source row into slot `k`; the other slots are kept. */
  method FillSlot(rows: array<int16>, r: seq<nat>, k: nat, src: array<byte>, stride: nat,
                  w: nat, h: nat, y: int, ghost s: seq<byte>)
    requires w >= 2 && h > 0 && ImageFits(src.Length, stride, 2 * w, 2 * h) && s == src[..]
    requires Slots(r, w, rows.Length) && k < 4
    modifies rows
    ensures Slot(rows[..], r[k], w) == FilteredRow(s, stride, w, h, y)
    ensures OthersKept(old(rows[..]), rows[..], r, w, k)
  {
    var row := Clamp(y, 0, 2 * h - 1);
    RowInside(src.Length, stride, 2 * w, 2 * h, row);
    ghost var before := rows[..];
    SharpHRow(rows, r[k], src, row * stride, w);
    assert src[row * stride..row * stride + 2 * w] == SourceRow(s, stride, w, 2 * h, row);
    KeepOthers(before, rows[..], r, w, k);
  }

  predicate OthersKept(before: seq<int16>, after: seq<int16>, r: seq<nat>, w: nat, k: nat)
    requires |before| == |after| && Slots(r, w, |before|)
  {
    forall j :: 0 <= j < 4 && j != k ==> Slot(after, r[j], w) == Slot(before, r[j], w)
  }

  lemma KeepOthers(before: seq<int16>, after: seq<int16>, r: seq<nat>, w: nat, k: nat)
    requires |before| == |after| && Slots(r, w, |before|) && k < 4
    requires forall i :: 0 <= i < |before| && !(r[k] <= i < r[k] + w) ==> after[i] == before[i]
    ensures OthersKept(before, after, r, w, k)
  {
    forall j | 0 <= j < 4 && j != k ensures Slot(after, r[j], w) == Slot(before, r[j], w) {
      assert r[j] + w <= r[k] || r[k] + w <= r[j];
      assert forall i :: r[j] <= i < r[j] + w ==> after[i] == before[i];
    }
  }

  /** The rotation and the two rows filtered afresh for output row `y + 1`. */
  method Refill(rows: array<int16>, r: seq<nat>, src: array<byte>, stride: nat, w: nat, h: nat, y: nat,
                ghost s: seq<byte>)
      returns (next: seq<nat>)
    requires w >= 2 && y + 1 < h && ImageFits(src.Length, stride, 2 * w, 2 * h) && s == src[..]
    requires Slots(r, w, rows.Length) && SlotsHold(rows[..], r, s, stride, w, h, y)
    modifies rows
    ensures Slots(next, w, rows.Length) && SlotsHold(rows[..], next, s, stride, w, h, y + 1)
  {
    next := [r[2], r[3], r[0], r[1]];
    Rotated(rows[..], r, next, s, stride, w, h, y);
    ghost var was := rows[..];
    FillSlot(rows, next, 2, src, stride, w, h, 2 * y + 3, s);
    ghost var mid := rows[..];
    FillSlot(rows, next, 3, src, stride, w, h, 2 * y + 4, s);
    Refilled(was, mid, rows[..], next, s, stride, w, h, y);
  }

  lemma Rotated(rows: seq<int16>, r: seq<nat>, next: seq<nat>, s: seq<byte>, stride: nat, w: nat, h: nat, y: nat)
    requires h > 0 && ImageFits(|s|, stride, 2 * w, 2 * h)
    requires Slots(r, w, |rows|) && SlotsHold(rows, r, s, stride, w, h, y)
    requires next == [r[2], r[3], r[0], r[1]]
    ensures Slots(next, w, |rows|)
    ensures Slot(rows, next[0], w) == FilteredRow(s, stride, w, h, 2 * y + 1)
    ensures Slot(rows, next[1], w) == FilteredRow(s, stride, w, h, 2 * y + 2)
  {
  }

  lemma Refilled(was: seq<int16>, mid: seq<int16>, now: seq<int16>, next: seq<nat>, s: seq<byte>,
                 stride: nat, w: nat, h: nat, y: nat)
    requires h > 0 && ImageFits(|s|, stride, 2 * w, 2 * h)
    requires |was| == |mid| == |now| && Slots(next, w, |was|)
    requires Slot(was, next[0], w) == FilteredRow(s, stride, w, h, 2 * y + 1)
    requires Slot(was, next[1], w) == FilteredRow(s, stride, w, h, 2 * y + 2)
    requires OthersKept(was, mid, next, w, 2) && OthersKept(mid, now, next, w, 3)
    requires Slot(mid, next[2], w) == FilteredRow(s, stride, w, h, 2 * y + 3)
    requires Slot(now, next[3], w) == FilteredRow(s, stride, w, h, 2 * y + 4)
    ensures SlotsHold(now, next, s, stride, w, h, y + 1)
  {
  }

  /** The four slots as they are before the first output row. */
  method Prime(rows: array<int16>, src: array<byte>, stride: nat, w: nat, h: nat, ghost s: seq<byte>)
      returns (r: seq<nat>)
    requires w >= 2 && h >= 1 && ImageFits(src.Length, stride, 2 * w, 2 * h) && s == src[..]
    requires 4 * w <= rows.Length
    modifies rows
    ensures Slots(r, w, rows.Length) && SlotsHold(rows[..], r, s, stride, w, h, 0)
  {
    r := [0, w, 2 * w, 3 * w];
    FillSlot(rows, r, 0, src, stride, w, h, -1, s);
    FillSlot(rows, r, 1, src, stride, w, h, 0, s);
    FillSlot(rows, r, 2, src, stride, w, h, 1, s);
    FillSlot(rows, r, 3, src, stride, w, h, 2, s);
  }

  /** scale2_sharp_luma for a destination of at most 1024 columns. */
  method ScaleSharp(dst: array<byte>, dstStride: nat, src: array<byte>, srcStride: nat, w: nat, h: nat)
    requires 2 <= w <= 1024 && h >= 1
    requires ImageFits(dst.Length, dstStride, w, h) && ImageFits(src.Length, srcStride, 2 * w, 2 * h)
    requires dst != src
    modifies dst
    ensures Sharpened(dst[..], dstStride, w, h, old(src[..]), srcStride, h)
    ensures Padding(old(dst[..]), dst[..], dstStride, w, h)
  {
    ghost var s := src[..];
    ghost var was := dst[..];
    var rows := new int16[4 * 1024];
    var r := Prime(rows, src, srcStride, w, h, s);
    var y := 0;
    while y < h
      invariant 0 <= y <= h && src[..] == s
      invariant Slots(r, w, rows.Length)
      invariant y < h ==> SlotsHold(rows[..], r, s, srcStride, w, h, y)
      invariant Sharpened(dst[..], dstStride, w, h, s, srcStride, y)
      invariant Padding(was, dst[..], dstStride, w, h)
    {
      ScaleRow(dst, dstStride, rows, r, s, srcStride, w, h, y);
      if y + 1 < h {
        r := Refill(rows, r, src, srcStride, w, h, y, s);
      }
      y := y + 1;
    }
  }

  method ScaleRow(dst: array<byte>, dstStride: nat, rows: array<int16>, r: seq<nat>,
                  ghost s: seq<byte>, ghost srcStride: nat, w: nat, ghost h: nat, y: nat)
    requires ImageFits(dst.Length, dstStride, w, h) && ImageFits(|s|, srcStride, 2 * w, 2 * h) && y < h
    requires Slots(r, w, rows.Length) && SlotsHold(rows[..], r, s, srcStride, w, h, y)
    modifies dst
    ensures old(Sharpened(dst[..], dstStride, w, h, s, srcStride, y)) ==>
      Sharpened(dst[..], dstStride, w, h, s, srcStride, y + 1)
    ensures Padding(old(dst[..]), dst[..], dstStride, w, h)
  {
    RowInside(dst.Length, dstStride, w, h, y);
    HeldRows(rows[..], r, s, srcStride, w, h, y);
    ghost var before := dst[..];
    SharpVRow(dst, y * dstStride, rows, r, w);
    PaddingKept(before, dst[..], dstStride, w, h, y);
    if Sharpened(before, dstStride, w, h, s, srcStride, y) {
      SharpenedStep(before, dst[..], dstStride, w, h, s, srcStride, y);
    }
  }

  lemma SharpenedStep(before: seq<byte>, after: seq<byte>, stride: nat, w: nat, h: nat,
                      s: seq<byte>, srcStride: nat, y: nat)
    requires |before| == |after| && ImageFits(|before|, stride, w, h) && y < h
    requires ImageFits(|s|, srcStride, 2 * w, 2 * h)
    requires Sharpened(before, stride, w, h, s, srcStride, y)
    requires forall k :: 0 <= k < |before| && !InRow(k, stride, w, y) ==> after[k] == before[k]
    requires RowWritten(after, stride, w, h, y, SharpRow(s, srcStride, w, h, y))
    ensures Sharpened(after, stride, w, h, s, srcStride, y + 1)
  {
    forall z | 0 <= z < y ensures RowWritten(after, stride, w, h, z, SharpRow(s, srcStride, w, h, z)) {
      RowKept(before, after, stride, w, h, y, z, SharpRow(s, srcStride, w, h, z));
    }
  }

  // ---- the box filter ---------------------------------------------------------------------------

  function Box4(a: int, b: int, c: int, d: int): int { (a + b + c + d + 2) / 4 }

  /** Output row `y`: the rounded mean of each 2x2 block. */
  function BoxRow(src: seq<byte>, stride: nat, w: nat, h: nat, y: nat): (r: seq<byte>)
    requires ImageFits(|src|, stride, 2 * w, 2 * h) && y < h
    ensures |r| == w
  {
    var r0 := SourceRow(src, stride, w, 2 * h, 2 * y);
    var r1 := SourceRow(src, stride, w, 2 * h, 2 * y + 1);
    seq(w, x requires 0 <= x < w => Box4(r0[2 * x], r0[2 * x + 1], r1[2 * x], r1[2 * x + 1]))
  }

  /** Each pixel of it is the whole number nearest the mean of its block, the greater of two. */
  lemma BoxIsNearestMean(src: seq<byte>, stride: nat, w: nat, h: nat, x: nat, y: nat)
    requires ImageFits(|src|, stride, 2 * w, 2 * h) && x < w && y < h
    ensures
      var a: int, b: int := Near(src, stride, w, h, 2 * x, 2 * y), Near(src, stride, w, h, 2 * x + 1, 2 * y);
      var c: int, d: int := Near(src, stride, w, h, 2 * x, 2 * y + 1), Near(src, stride, w, h, 2 * x + 1, 2 * y + 1);
      a + b + c + d - 2 < 4 * BoxRow(src, stride, w, h, y)[x] as int <= a + b + c + d + 2
  {
  }

  /** Three widening adds into 16 bits and a rounding narrow. */
  function BoxNarrow(a: byte, b: byte, c: byte, d: byte): byte
  {
    Wrap16(Wrap16(Wrap16(Wrap16(a + b) + c) + d) + 2) / 4 % 0x100
  }

  lemma BoxNarrowIs(a: byte, b: byte, c: byte, d: byte)
    ensures BoxNarrow(a, b, c, d) == Box4(a, b, c, d)
  {
    Small16(a + b);
    Small16(a + b + c);
    Small16(a + b + c + d);
    Small16(a + b + c + d + 2);
  }

  lemma Small16(x: int)
    requires 0 <= x < TWO16
    ensures Wrap16(x) == x
  {
  }

  /** Lane `i` of the vector step at column `x`. */
  function BoxLane(r0: seq<byte>, r1: seq<byte>, x: nat, i: nat): byte
    requires 2 * x + 32 <= |r0| && 2 * x + 32 <= |r1| && i < 16
  {
    BoxNarrow(LoadEven(r0, 2 * x, i), LoadOdd(r0, 2 * x, i), LoadEven(r1, 2 * x, i), LoadOdd(r1, 2 * x, i))
  }

  lemma BoxLaneIs(r0: seq<byte>, r1: seq<byte>, x: nat, i: nat)
    requires 2 * x + 32 <= |r0| && 2 * x + 32 <= |r1| && i < 16
    ensures BoxLane(r0, r1, x, i)
         == Box4(r0[2 * (x + i)], r0[2 * (x + i) + 1], r1[2 * (x + i)], r1[2 * (x + i) + 1])
  {
    var k := 2 * (x + i);
    BoxNarrowIs(r0[k], r0[k + 1], r1[k], r1[k + 1]);
  }

  method BoxOneRow(dst: array<byte>, at: nat, src: array<byte>, from0: nat, from1: nat, w: nat,
                   ghost out: seq<byte>)
    requires at + w <= dst.Length && from0 + 2 * w <= src.Length && from1 + 2 * w <= src.Length
    requires dst != src && |out| == w
    requires forall x :: 0 <= x < w ==>
      out[x] == Box4(src[from0 + 2 * x], src[from0 + 2 * x + 1], src[from1 + 2 * x], src[from1 + 2 * x + 1])
    modifies dst
    ensures dst[at..at + w] == out
    ensures forall k :: 0 <= k < dst.Length && !(at <= k < at + w) ==> dst[k] == old(dst[k])
  {
    var x := BoxVector(dst, at, src, from0, from1, w, out);
    while x < w
      invariant 0 <= x <= w
      invariant forall j :: 0 <= j < x ==> dst[at + j] == out[j]
      invariant forall k :: 0 <= k < dst.Length && !(at <= k < at + w) ==> dst[k] == old(dst[k])
    {
      var v := Box4(src[from0 + 2 * x], src[from0 + 2 * x + 1], src[from1 + 2 * x], src[from1 + 2 * x + 1]);
      assert v == out[x];
      dst[at + x] := v;
      x := x + 1;
    }
    assert dst[at..at + w] == out;
  }

  /** The sixteen-lane part of it, as far as it goes. */
  method BoxVector(dst: array<byte>, at: nat, src: array<byte>, from0: nat, from1: nat, w: nat,
                   ghost out: seq<byte>)
      returns (x: nat)
    requires at + w <= dst.Length && from0 + 2 * w <= src.Length && from1 + 2 * w <= src.Length
    requires dst != src && |out| == w
    requires forall x :: 0 <= x < w ==>
      out[x] == Box4(src[from0 + 2 * x], src[from0 + 2 * x + 1], src[from1 + 2 * x], src[from1 + 2 * x + 1])
    modifies dst
    ensures w - 16 < x <= w
    ensures forall j :: 0 <= j < x ==> dst[at + j] == out[j]
    ensures forall k :: 0 <= k < dst.Length && !(at <= k < at + w) ==> dst[k] == old(dst[k])
  {
    x := 0;
    while x + 16 <= w
      invariant 0 <= x <= w
      invariant forall j :: 0 <= j < x ==> dst[at + j] == out[j]
      invariant forall k :: 0 <= k < dst.Length && !(at <= k < at + w) ==> dst[k] == old(dst[k])
    {
      ghost var r0, r1 := src[from0..from0 + 2 * w], src[from1..from1 + 2 * w];
      forall i | x <= i < x + 16 ensures BoxLane(r0, r1, x, i - x) == out[i] {
        BoxLaneIs(r0, r1, x, i - x);
      }
      forall i | x <= i < x + 16 {
        dst[at + i] := BoxLane(src[from0..from0 + 2 * w], src[from1..from1 + 2 * w], x, i - x);
      }
      x := x + 16;
    }
  }

  predicate Boxed(dst: seq<byte>, stride: nat, w: nat, h: nat, s: seq<byte>, srcStride: nat, n: nat)
    requires ImageFits(|dst|, stride, w, h) && ImageFits(|s|, srcStride, 2 * w, 2 * h) && n <= h
  {
    forall y :: 0 <= y < n ==> RowWritten(dst, stride, w, h, y, BoxRow(s, srcStride, w, h, y))
  }

  /** scale2_box_luma. */
  method ScaleBox(dst: array<byte>, dstStride: nat, src: array<byte>, srcStride: nat, w: nat, h: nat)
    requires ImageFits(dst.Length, dstStride, w, h) && ImageFits(src.Length, srcStride, 2 * w, 2 * h)
    requires dst != src
    modifies dst
    ensures Boxed(dst[..], dstStride, w, h, old(src[..]), srcStride, h)
    ensures Padding(old(dst[..]), dst[..], dstStride, w, h)
  {
    ghost var s := src[..];
    ghost var was := dst[..];
    var y := 0;
    while y < h
      invariant 0 <= y <= h && src[..] == s
      invariant Boxed(dst[..], dstStride, w, h, s, srcStride, y)
      invariant Padding(was, dst[..], dstStride, w, h)
    {
      RowInside(dst.Length, dstStride, w, h, y);
      RowInside(src.Length, srcStride, 2 * w, 2 * h, 2 * y);
      RowInside(src.Length, srcStride, 2 * w, 2 * h, 2 * y + 1);
      ghost var before := dst[..];
      ghost var out := BoxRow(s, srcStride, w, h, y);
      BoxOneRow(dst, y * dstStride, src, 2 * y * srcStride, 2 * y * srcStride + srcStride, w, out);
      BoxedStep(before, dst[..], dstStride, w, h, s, srcStride, y);
      PaddingKept(before, dst[..], dstStride, w, h, y);
      y := y + 1;
    }
  }

  lemma BoxedStep(before: seq<byte>, after: seq<byte>, stride: nat, w: nat, h: nat,
                  s: seq<byte>, srcStride: nat, y: nat)
    requires |before| == |after| && ImageFits(|before|, stride, w, h) && y < h
    requires ImageFits(|s|, srcStride, 2 * w, 2 * h)
    requires Boxed(before, stride, w, h, s, srcStride, y)
    requires forall k :: 0 <= k < |before| && !InRow(k, stride, w, y) ==> after[k] == before[k]
    requires RowWritten(after, stride, w, h, y, BoxRow(s, srcStride, w, h, y))
    ensures Boxed(after, stride, w, h, s, srcStride, y + 1)
  {
    forall z | 0 <= z < y ensures RowWritten(after, stride, w, h, z, BoxRow(s, srcStride, w, h, z)) {
      RowKept(before, after, stride, w, h, y, z, BoxRow(s, srcStride, w, h, z));
    }
  }

  /** scale2_sharp_luma: too wide a destination falls back to the box filter. */
  method ScaleSharpLuma(dst: array<byte>, dstStride: nat, src: array<byte>, srcStride: nat, w: nat, h: nat)
    requires w >= 2 && h >= 1
    requires ImageFits(dst.Length, dstStride, w, h) && ImageFits(src.Length, srcStride, 2 * w, 2 * h)
    requires dst != src
    modifies dst
    ensures w <= 1024 ==> Sharpened(dst[..], dstStride, w, h, old(src[..]), srcStride, h)
    ensures w > 1024 ==> Boxed(dst[..], dstStride, w, h, old(src[..]), srcStride, h)
    ensures Padding(old(dst[..]), dst[..], dstStride, w, h)
  {
    if w > 1024 {
      ScaleBox(dst, dstStride, src, srcStride, w, h);
    } else {
      ScaleSharp(dst, dstStride, src, srcStride, w, h);
    }
  }
}
