/** Fitting a photo's long side to 1200 pixels, and the memory gate before decoding. */
module Scaling {
  import opened Arithmetic
  import opened Common

  const MAX_EDGE := 1200
  const MAX_PIXELS := 50_000_000
  const MAX_SIDE := 8192
  const MAX_DECODE_BYTES := 256 * 1024 * 1024
  const SCALER_CELL_BYTES := 32
  const TWO_63 := 0x8000_0000_0000_0000

  /** edge * 1200 / long, rounded to the nearest integer, halves up. */
  function Shrink(edge: nat, long: nat): nat
    requires long > 0
  {
    (edge * MAX_EDGE + long / 2) / long
  }

  function ScaledSize(w: nat, h: nat): (nat, nat) {
    var long := Max(w, h);
    if long > MAX_EDGE then (Max(1, Shrink(w, long)), Max(1, Shrink(h, long))) else (w, h)
  }

  /** Rounding is within half a unit of the exact quotient, and goes up from the very middle. */
  lemma ShrinkIsNearest(edge: nat, long: nat)
    requires long > 0
    ensures 2 * edge * MAX_EDGE - long < 2 * (Shrink(edge, long) * long) <= 2 * edge * MAX_EDGE + long
  {
    DivBounds(edge * MAX_EDGE + long / 2, long);
  }

  lemma ShrinkLong(long: nat)
    requires long > 0
    ensures Shrink(long, long) == MAX_EDGE
  {
    var n := long * MAX_EDGE + long / 2;
    QuotientAtMost(n, long, MAX_EDGE);
    QuotientAtLeast(n, long, MAX_EDGE);
  }

  lemma ShrinkNeverGrows(edge: nat, long: nat)
    requires 1 <= edge <= long && long > MAX_EDGE
    ensures Shrink(edge, long) <= MAX_EDGE
    ensures Shrink(edge, long) <= edge
  {
    var n := edge * MAX_EDGE + long / 2;
    assert n < (MAX_EDGE + 1) * long;
    QuotientAtMost(n, long, MAX_EDGE);
    MulMono(edge, edge, MAX_EDGE, long);
    assert (edge + 1) * long == edge * long + long;
    QuotientAtMost(n, long, edge);
  }

  /**
   Main result: both sides stay at least 1 and never grow; an oversized long side
   becomes exactly 1200; every other side is the nearest integer to the exact
   value, unless that was 0 and it was raised to 1.
   */
  lemma ScaledSizeIsSound(w: nat, h: nat)
    requires w >= 1 && h >= 1
    ensures
      var (sw, sh) := ScaledSize(w, h);
      var long := Max(w, h);
      && 1 <= sw <= w && 1 <= sh <= h
      && Max(sw, sh) == Min(long, MAX_EDGE)
      && (long > MAX_EDGE ==>
            && (sw == Shrink(w, long) || (sw == 1 && Shrink(w, long) == 0))
            && (sh == Shrink(h, long) || (sh == 1 && Shrink(h, long) == 0)))
  {
    var long := Max(w, h);
    if long > MAX_EDGE {
      ShrinkNeverGrows(w, long);
      ShrinkNeverGrows(h, long);
      ShrinkLong(long);
    }
  }

  /** Scaling before turning the picture gives the size that turning before scaling would. */
  lemma ScaleCommutesWithSwap(w: nat, h: nat)
    ensures ScaledSize(h, w) == (ScaledSize(w, h).1, ScaledSize(w, h).0)
  {
  }

  /** A photo already within bounds, or already scaled, is left alone. */
  lemma ScaleIsIdempotent(w: nat, h: nat)
    requires w >= 1 && h >= 1
    ensures
      var (sw, sh) := ScaledSize(w, h);
      ScaledSize(sw, sh) == (sw, sh)
  {
    ScaledSizeIsSound(w, h);
  }

  // -------------------------------------------------------------- the memory gate

  datatype ColorModel = Palette | RGBA64 | NRGBA64 | RGBA | NRGBA | CMYK | YCbCr | Gray16 | Gray | Unknown

  function BytesPerPixel(m: ColorModel): (n: nat)
    ensures 1 <= n <= 8
  {
    match m
    case Palette => 4
    case RGBA64 => 8
    case NRGBA64 => 8
    case RGBA => 4
    case NRGBA => 4
    case CMYK => 4
    case YCbCr => 3
    case Gray16 => 2
    case Gray => 1
    case Unknown => 8
  }

  function EstimatedPeak(w: nat, h: nat, m: ColorModel): int {
    var (sw, _) := ScaledSize(w, h);
    w * h * BytesPerPixel(m) + sw * h * SCALER_CELL_BYTES
  }

  predicate TooLarge(w: nat, h: nat, m: ColorModel) {
    w > MAX_SIDE || h > MAX_SIDE || w * h > MAX_PIXELS || EstimatedPeak(w, h, m) > MAX_DECODE_BYTES
  }

  /** Behind the side limit every intermediate value of the estimate is far from 2^63. */
  lemma EstimateCannotOverflow(w: nat, h: nat, m: ColorModel)
    requires w <= MAX_SIDE && h <= MAX_SIDE
    ensures w * h * BytesPerPixel(m) < TWO_63
    ensures ScaledSize(w, h).0 * h * SCALER_CELL_BYTES < TWO_63
    ensures EstimatedPeak(w, h, m) < TWO_63
    ensures w * MAX_EDGE + Max(w, h) / 2 < TWO_63 && h * MAX_EDGE + Max(w, h) / 2 < TWO_63
  {
    var sw := ScaledSize(w, h).0;
    if w == 0 {
      ZeroWidth(h);
    } else if h > 0 {
      ScaledSizeIsSound(w, h);
    }
    MulMono(w, MAX_SIDE, h, MAX_SIDE);
    MulMono(w * h, MAX_SIDE * MAX_SIDE, BytesPerPixel(m), 8);
    if h == 0 {
      assert sw * h == 0;
    } else {
      MulMono(sw, MAX_SIDE, h, MAX_SIDE);
    }
  }

  lemma ZeroWidth(h: nat)
    ensures ScaledSize(0, h).0 <= 1
  {
    if h > MAX_EDGE {
      DivBounds(h / 2, h);
    }
  }

  /** What passes the gate fits with its output too: the decoded picture, the scaler's buffer and the new picture. */
  lemma AcceptedFits(w: nat, h: nat, m: ColorModel)
    requires w >= 1 && h >= 1 && !TooLarge(w, h, m)
    ensures ScaledSize(w, h).0 * ScaledSize(w, h).1 <= MAX_EDGE * MAX_EDGE
    ensures EstimatedPeak(w, h, m) + 4 * (ScaledSize(w, h).0 * ScaledSize(w, h).1)
         <= MAX_DECODE_BYTES + 4 * MAX_EDGE * MAX_EDGE
  {
    ScaledSizeIsSound(w, h);
    MulMono(ScaledSize(w, h).0, MAX_EDGE, ScaledSize(w, h).1, MAX_EDGE);
  }

  /** Sizes that cameras and screens make, and the ones that are refused. */
  lemma CommonSizes()
    ensures !TooLarge(4000, 3000, YCbCr) && !TooLarge(3000, 4000, YCbCr) && !TooLarge(6000, 4000, YCbCr)
    ensures TooLarge(8064, 6048, YCbCr)
    ensures !TooLarge(1290, 2796, RGBA)
    ensures TooLarge(7000, 6000, RGBA64) && TooLarge(7000, 6000, Unknown)
    ensures !TooLarge(8192, 1, Unknown) && TooLarge(8193, 1, Gray) && TooLarge(1, 8193, Gray)
  {
  }

  /** The side of the largest square picture that passes the gate, for each way of storing a pixel. */
  function LargestSquare(m: ColorModel): nat {
    match m
    case Gray => 6040
    case Gray16 => 5445
    case YCbCr => 5020
    case Palette => 4694
    case RGBA => 4694
    case NRGBA => 4694
    case CMYK => 4694
    case RGBA64 => 3870
    case NRGBA64 => 3870
    case Unknown => 3870
  }

  lemma SquareEstimate(n: nat, m: ColorModel)
    requires n > MAX_EDGE
    ensures EstimatedPeak(n, n, m) == n * n * BytesPerPixel(m) + 38400 * n
  {
    ShrinkLong(n);
  }

  lemma Grows(n: nat, k: nat, bytes: nat)
    requires n <= k
    ensures n * n <= k * k
    ensures n * n * bytes + 38400 * n <= k * k * bytes + 38400 * k
  {
    MulMono(n, k, n, k);
    MulMono(n * n, k * k, bytes, bytes);
  }

  lemma SmallSquaresFit(n: nat, m: ColorModel)
    requires n <= MAX_EDGE
    ensures !TooLarge(n, n, m)
  {
    MulMono(n, MAX_EDGE, n, MAX_EDGE);
    MulMono(n * n, MAX_EDGE * MAX_EDGE, BytesPerPixel(m), 8);
  }

  /** Main result: those sides are exact. */
  lemma SquareFitsIff(n: nat, m: ColorModel)
    ensures !TooLarge(n, n, m) <==> n <= LargestSquare(m)
  {
    var limit := LargestSquare(m);
    if n <= MAX_EDGE {
      SmallSquaresFit(n, m);
    } else if n <= limit {
      SquareEstimate(n, m);
      Grows(n, limit, BytesPerPixel(m));
    } else {
      SquareEstimate(n, m);
      Grows(limit + 1, n, BytesPerPixel(m));
    }
  }

  /** The limit on pixels never decides: whatever exceeds it within the sides exceeds the budget too. */
  lemma PixelLimitIsImplied(w: nat, h: nat, m: ColorModel)
    requires w <= MAX_SIDE && h <= MAX_SIDE && w * h > MAX_PIXELS
    ensures EstimatedPeak(w, h, m) > MAX_DECODE_BYTES
  {
    if h <= 6103 {
      MulMono(w, MAX_SIDE, h, 6103);
    }
    if w <= 6103 {
      MulMono(w, 6103, h, MAX_SIDE);
    }
    var long := Max(w, h);
    ShrinkIsNearest(w, long);
    assert 2 * (Shrink(w, long) * long) >= 2 * w * MAX_EDGE - long;
    ScaledAreaIsLarge(w, h);
    MulMono(w * h, w * h, 1, BytesPerPixel(m));
  }

  lemma ScaledAreaIsLarge(w: nat, h: nat)
    requires 6103 < w <= MAX_SIDE && 6103 < h <= MAX_SIDE
    ensures ScaledSize(w, h).0 * h >= 7_300_000
  {
    if w >= h {
      ShrinkLong(w);
    } else {
      ShrinkIsNearest(w, h);
    }
  }
}
