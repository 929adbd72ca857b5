/** Applying an EXIF orientation to a flat RGBA buffer. */
module Reorient {
  import opened Arithmetic

  type Byte = n: int | 0 <= n < 256

  const BYTES := 4

  /** A picture: 4 bytes a pixel, row by row. */
  datatype Image = Image(w: nat, h: nat, pix: seq<Byte>) {
    predicate Valid() {
      |pix| == Area() * BYTES
    }

    function Area(): nat {
      w * h
    }
  }

  // ----------------------------------------------------------- where pixels come from

  type Orientation = o: int | 1 <= o <= 8 witness 1

  predicate Swaps(o: Orientation) {
    o >= 5
  }

  function Width(o: Orientation, w: nat, h: nat): nat {
    if Swaps(o) then h else w
  }

  function Height(o: Orientation, w: nat, h: nat): nat {
    if Swaps(o) then w else h
  }

  /** The source pixel that lands at (x, y). */
  function Source(o: Orientation, w: nat, h: nat, x: nat, y: nat): (s: (nat, nat))
    requires x < Width(o, w, h) && y < Height(o, w, h)
    ensures s.0 < w && s.1 < h
  {
    match o
    case 1 => (x, y)
    case 2 => (w - 1 - x, y)
    case 3 => (w - 1 - x, h - 1 - y)
    case 4 => (x, h - 1 - y)
    case 5 => (y, x)
    case 6 => (y, h - 1 - x)
    case 7 => (w - 1 - y, h - 1 - x)
    case 8 => (w - 1 - y, x)
  }

  function Inverse(o: Orientation): Orientation {
    match o
    case 6 => 8
    case 8 => 6
    case _ => o
  }

  /** Each orientation is a bijection, undone by its inverse: 6 and 8 undo each other, the rest undo themselves. */
  lemma SourceInverts(o: Orientation, w: nat, h: nat, x: nat, y: nat)
    requires x < Width(o, w, h) && y < Height(o, w, h)
    ensures
      var s := Source(o, w, h, x, y);
      Source(Inverse(o), Width(o, w, h), Height(o, w, h), s.0, s.1) == (x, y)
  {
  }

  /** Orientation b applied to the result of a is one orientation: the table of the symmetries of a rectangle. */
  function Then(a: Orientation, b: Orientation): Orientation {
    match a
    case 1 => b
    case 2 => (match b case 1 => 2 case 2 => 1 case 3 => 4 case 4 => 3 case 5 => 8 case 6 => 7 case 7 => 6 case 8 => 5)
    case 3 => (match b case 1 => 3 case 2 => 4 case 3 => 1 case 4 => 2 case 5 => 7 case 6 => 8 case 7 => 5 case 8 => 6)
    case 4 => (match b case 1 => 4 case 2 => 3 case 3 => 2 case 4 => 1 case 5 => 6 case 6 => 5 case 7 => 8 case 8 => 7)
    case 5 => (match b case 1 => 5 case 2 => 6 case 3 => 7 case 4 => 8 case 5 => 1 case 6 => 2 case 7 => 3 case 8 => 4)
    case 6 => (match b case 1 => 6 case 2 => 5 case 3 => 8 case 4 => 7 case 5 => 4 case 6 => 3 case 7 => 2 case 8 => 1)
    case 7 => (match b case 1 => 7 case 2 => 8 case 3 => 5 case 4 => 6 case 5 => 3 case 6 => 4 case 7 => 1 case 8 => 2)
    case 8 => (match b case 1 => 8 case 2 => 7 case 3 => 6 case 4 => 5 case 5 => 2 case 6 => 1 case 7 => 4 case 8 => 3)
  }

  lemma SourcesCompose(a: Orientation, b: Orientation, w: nat, h: nat, x: nat, y: nat)
    requires x < Width(Then(a, b), w, h) && y < Height(Then(a, b), w, h)
    ensures Width(Then(a, b), w, h) == Width(b, Width(a, w, h), Height(a, w, h))
    ensures Height(Then(a, b), w, h) == Height(b, Width(a, w, h), Height(a, w, h))
    ensures
      var m := Source(b, Width(a, w, h), Height(a, w, h), x, y);
      Source(a, w, h, m.0, m.1) == Source(Then(a, b), w, h, x, y)
  {
  }

  lemma SymmetriesFormAGroup(a: Orientation, b: Orientation, c: Orientation)
    ensures Then(Then(a, b), c) == Then(a, Then(b, c))
    ensures Then(1, a) == a == Then(a, 1)
    ensures Then(a, Inverse(a)) == 1 == Then(Inverse(a), a)
  {
  }

  // ---------------------------------------------------------- pixels by number

  /** Pixel numbers run along rows. */
  function Number(w: nat, x: nat, y: nat): nat {
    y * w + x
  }

  lemma NumberDecodes(w: nat, x: nat, y: nat)
    requires x < w
    ensures Number(w, x, y) / w == y && Number(w, x, y) % w == x
  {
    QuotientIs(Number(w, x, y), w, y, x);
  }

  lemma NumberInBounds(w: nat, h: nat, x: nat, y: nat)
    requires x < w && y < h
    ensures Number(w, x, y) < w * h
  {
    assert (y + 1) * w <= h * w;
    assert (y + 1) * w == y * w + w;
  }

  lemma CoordinatesInBounds(w: nat, h: nat, q: nat)
    requires q < w * h
    ensures w > 0 && q % w < w && q / w < h && q == Number(w, q % w, q / w)
  {
    DivBounds(q, w);
    Cancel(q / w, h, w);
  }

  lemma AreaSurvives(o: Orientation, w: nat, h: nat)
    ensures Width(o, w, h) * Height(o, w, h) == w * h
  {
  }

  /** The number of the source pixel that lands at destination pixel q. */
  function SourceNumber(o: Orientation, w: nat, h: nat, q: nat): (p: nat)
    requires q < w * h
    ensures p < w * h
  {
    AreaSurvives(o, w, h);
    CoordinatesInBounds(Width(o, w, h), Height(o, w, h), q);
    var s := Source(o, w, h, q % Width(o, w, h), q / Width(o, w, h));
    NumberInBounds(w, h, s.0, s.1);
    Number(w, s.0, s.1)
  }

  lemma SourceNumberAt(o: Orientation, w: nat, h: nat, x: nat, y: nat)
    requires x < Width(o, w, h) && y < Height(o, w, h)
    ensures Number(Width(o, w, h), x, y) < w * h
    ensures SourceNumber(o, w, h, Number(Width(o, w, h), x, y))
         == Number(w, Source(o, w, h, x, y).0, Source(o, w, h, x, y).1)
  {
    AreaSurvives(o, w, h);
    NumberInBounds(Width(o, w, h), Height(o, w, h), x, y);
    NumberDecodes(Width(o, w, h), x, y);
  }

  lemma NumbersCompose(a: Orientation, b: Orientation, w: nat, h: nat, q: nat)
    requires q < w * h
    ensures Width(a, w, h) * Height(a, w, h) == w * h
    ensures SourceNumber(a, w, h, SourceNumber(b, Width(a, w, h), Height(a, w, h), q))
         == SourceNumber(Then(a, b), w, h, q)
  {
    var c := Then(a, b);
    var mw, mh, dw, dh := Width(a, w, h), Height(a, w, h), Width(c, w, h), Height(c, w, h);
    AreaSurvives(a, w, h);
    AreaSurvives(c, w, h);
    CoordinatesInBounds(dw, dh, q);
    SourcesCompose(a, b, w, h, q % dw, q / dw);
    var m := Source(b, mw, mh, q % dw, q / dw);
    assert SourceNumber(b, mw, mh, q) == Number(mw, m.0, m.1);
    SourceNumberAt(a, w, h, m.0, m.1);
  }

  lemma NumbersInvert(o: Orientation, w: nat, h: nat, q: nat)
    requires q < w * h
    ensures Width(o, w, h) * Height(o, w, h) == w * h
    ensures SourceNumber(o, w, h, SourceNumber(Inverse(o), Width(o, w, h), Height(o, w, h), q)) == q
  {
    NumbersCompose(o, Inverse(o), w, h, q);
    SymmetriesFormAGroup(o, o, o);
    CoordinatesInBounds(w, h, q);
  }

  // ------------------------------------------------------------------- buffers

  function Pixel(pix: seq<Byte>, q: nat): (b: seq<Byte>)
    requires (q + 1) * BYTES <= |pix|
    ensures |b| == BYTES
  {
    pix[q * BYTES..(q + 1) * BYTES]
  }

  /** dst is src displayed under orientation o: pixel by pixel, nothing else. */
  ghost predicate IsOriented(src: Image, dst: Image, o: Orientation) {
    && src.Valid() && dst.Valid()
    && dst.w == Width(o, src.w, src.h) && dst.h == Height(o, src.w, src.h) && dst.Area() == src.Area()
    && forall q | 0 <= q < src.Area() :: Pixel(dst.pix, q) == Pixel(src.pix, SourceNumber(o, src.w, src.h, q))
  }

  lemma SamePixelsSameBuffer(a: seq<Byte>, b: seq<Byte>, n: nat)
    requires |a| == |b| == n * BYTES
    requires forall q | 0 <= q < n :: Pixel(a, q) == Pixel(b, q)
    ensures a == b
  {
    forall i | 0 <= i < |a| ensures a[i] == b[i] {
      var q := i / BYTES;
      assert Pixel(a, q)[i % BYTES] == Pixel(b, q)[i % BYTES];
    }
  }

  /** The picture and the orientation determine the result, byte for byte. */
  lemma OrientedIsUnique(src: Image, dst: Image, other: Image, o: Orientation)
    requires IsOriented(src, dst, o) && IsOriented(src, other, o)
    ensures dst == other
  {
    forall q | 0 <= q < src.Area() ensures Pixel(dst.pix, q) == Pixel(other.pix, q) {
      assert Pixel(dst.pix, q) == Pixel(src.pix, SourceNumber(o, src.w, src.h, q));
    }
    SamePixelsSameBuffer(dst.pix, other.pix, src.Area());
  }

  /** Main result: two orientations in a row are one, as the symmetries of a rectangle compose. */
  lemma OrientationsCompose(src: Image, mid: Image, dst: Image, a: Orientation, b: Orientation)
    requires IsOriented(src, mid, a) && IsOriented(mid, dst, b)
    ensures IsOriented(src, dst, Then(a, b))
  {
    AreaSurvives(Then(a, b), src.w, src.h);
    forall q | 0 <= q < src.Area()
      ensures Pixel(dst.pix, q) == Pixel(src.pix, SourceNumber(Then(a, b), src.w, src.h, q))
    {
      NumbersCompose(a, b, src.w, src.h, q);
      var p := SourceNumber(b, mid.w, mid.h, q);
      assert Pixel(dst.pix, q) == Pixel(mid.pix, p);
      assert Pixel(mid.pix, p) == Pixel(src.pix, SourceNumber(a, src.w, src.h, p));
    }
  }

  /** Applying an orientation and then its inverse gives back every byte. */
  lemma InverseUndoes(src: Image, mid: Image, dst: Image, o: Orientation)
    requires IsOriented(src, mid, o) && IsOriented(mid, dst, Inverse(o))
    ensures dst == src
  {
    OrientationsCompose(src, mid, dst, o, Inverse(o));
    SymmetriesFormAGroup(o, o, o);
    assert IsOriented(src, src, 1) by {
      forall q | 0 <= q < src.Area() ensures SourceNumber(1, src.w, src.h, q) == q {
        CoordinatesInBounds(src.w, src.h, q);
      }
    }
    OrientedIsUnique(src, dst, src, 1);
  }

  /** Every source pixel lands at exactly one destination pixel. */
  lemma EveryPixelLandsOnce(src: Image, dst: Image, o: Orientation, p: nat)
    requires IsOriented(src, dst, o) && p < src.Area()
    ensures exists q ::
              && 0 <= q < dst.Area() && SourceNumber(o, src.w, src.h, q) == p && Pixel(dst.pix, q) == Pixel(src.pix, p)
              && forall r | 0 <= r < dst.Area() && SourceNumber(o, src.w, src.h, r) == p :: r == q
  {
    NumbersInvert(o, src.w, src.h, p);
    var q := SourceNumber(Inverse(o), dst.w, dst.h, p);
    forall r | 0 <= r < dst.Area() && SourceNumber(o, src.w, src.h, r) == p ensures r == q {
      NumbersInvert(Inverse(o), dst.w, dst.h, r);
    }
  }

  // ------------------------------------------------- what the orientation values mean

  datatype Side = Top | Right | Bottom | Left {
    predicate Upright?() {
      Left? || Right?
    }
  }

  /** The side of the picture on which the stored row 0 is to be shown (TIFF 6.0, Orientation). */
  function RowZero(o: Orientation): Side {
    match o
    case 1 => Top
    case 2 => Top
    case 3 => Bottom
    case 4 => Bottom
    case 5 => Left
    case 6 => Right
    case 7 => Right
    case 8 => Left
  }

  /** And the side on which the stored column 0 is to be shown. */
  function ColumnZero(o: Orientation): Side {
    match o
    case 1 => Left
    case 2 => Right
    case 3 => Right
    case 4 => Left
    case 5 => Top
    case 6 => Top
    case 7 => Bottom
    case 8 => Bottom
  }

  /** How far a shown pixel is from a side of the picture. */
  function Distance(side: Side, dst: Image, x: nat, y: nat): (d: nat)
    requires x < dst.w && y < dst.h
  {
    match side
    case Top => y
    case Right => dst.w - 1 - x
    case Bottom => dst.h - 1 - y
    case Left => x
  }

  /** The pixel shown at (x, y) comes from as many stored rows down, and columns across, as it is from those sides. */
  ghost predicate ShownFrom(src: Image, dst: Image, o: Orientation, x: nat, y: nat)
    requires src.Valid() && dst.Valid() && x < dst.w && y < dst.h
  {
    var column, row := Distance(ColumnZero(o), dst, x, y), Distance(RowZero(o), dst, x, y);
    column < src.w && row < src.h && Dot(dst, x, y) == Dot(src, column, row)
  }

  /** The pixel in column x of row y. */
  function Dot(image: Image, x: nat, y: nat): seq<Byte>
    requires image.Valid() && x < image.w && y < image.h
  {
    NumberInBounds(image.w, image.h, x, y);
    Pixel(image.pix, y * image.w + x)
  }

  lemma SidesAreSource(src: Image, dst: Image, o: Orientation, x: nat, y: nat)
    requires x < dst.w && y < dst.h && dst.w == Width(o, src.w, src.h) && dst.h == Height(o, src.w, src.h)
    ensures Source(o, src.w, src.h, x, y) == (Distance(ColumnZero(o), dst, x, y), Distance(RowZero(o), dst, x, y))
  {
  }

  lemma ShownIffCopied(src: Image, dst: Image, o: Orientation, x: nat, y: nat)
    requires src.Valid() && dst.Valid() && x < dst.w && y < dst.h
    requires dst.w == Width(o, src.w, src.h) && dst.h == Height(o, src.w, src.h) && dst.Area() == src.Area()
    ensures Number(dst.w, x, y) < src.Area()
    ensures ShownFrom(src, dst, o, x, y) <==>
              Pixel(dst.pix, Number(dst.w, x, y))
              == Pixel(src.pix, SourceNumber(o, src.w, src.h, Number(dst.w, x, y)))
  {
    SidesAreSource(src, dst, o, x, y);
    SourceNumberAt(o, src.w, src.h, x, y);
    hide Distance, RowZero, ColumnZero, Source, SourceNumber, Width, Height, Pixel;
  }

  lemma OrientedShows(src: Image, dst: Image, o: Orientation, x: nat, y: nat)
    requires IsOriented(src, dst, o) && x < dst.w && y < dst.h
    ensures ShownFrom(src, dst, o, x, y)
  {
    ShownIffCopied(src, dst, o, x, y);
    hide ShownFrom, SourceNumber;
  }

  lemma SidesDecide(src: Image, dst: Image, o: Orientation)
    requires src.Valid() && dst.Valid() && dst.w == Width(o, src.w, src.h) && dst.h == Height(o, src.w, src.h)
    requires forall x: nat, y: nat | x < dst.w && y < dst.h :: ShownFrom(src, dst, o, x, y)
    ensures IsOriented(src, dst, o)
  {
    AreaSurvives(o, src.w, src.h);
    hide ShownFrom, SourceNumber, Pixel;
    forall q | 0 <= q < src.Area() ensures Pixel(dst.pix, q) == Pixel(src.pix, SourceNumber(o, src.w, src.h, q)) {
      CoordinatesInBounds(dst.w, dst.h, q);
      var x: nat, y: nat := q % dst.w, q / dst.w;
      assert ShownFrom(src, dst, o, x, y);
      ShownIffCopied(src, dst, o, x, y);
    }
  }

  /**
   Main result: a picture is displayed under an orientation exactly when its stored row 0
   and column 0 are shown on the sides that the orientation names.
   */
  lemma OrientedIffSides(src: Image, dst: Image, o: Orientation)
    requires src.Valid() && dst.Valid()
    ensures IsOriented(src, dst, o) <==>
              && (if RowZero(o).Upright?() then dst.w == src.h && dst.h == src.w else dst.w == src.w && dst.h == src.h)
              && forall x: nat, y: nat | x < dst.w && y < dst.h :: ShownFrom(src, dst, o, x, y)
  {
    SidesTurn(src, dst, o);
    hide *;
    if IsOriented(src, dst, o) {
      forall x: nat, y: nat | x < dst.w && y < dst.h ensures ShownFrom(src, dst, o, x, y) {
        OrientedShows(src, dst, o, x, y);
      }
    } else if && (if RowZero(o).Upright?() then dst.w == src.h && dst.h == src.w else dst.w == src.w && dst.h == src.h)
              && forall x: nat, y: nat | x < dst.w && y < dst.h :: ShownFrom(src, dst, o, x, y) {
      SidesDecide(src, dst, o);
    }
  }

  lemma SidesTurn(src: Image, dst: Image, o: Orientation)
    ensures (if RowZero(o).Upright?() then dst.w == src.h && dst.h == src.w else dst.w == src.w && dst.h == src.h)
            <==> dst.w == Width(o, src.w, src.h) && dst.h == Height(o, src.w, src.h)
    ensures IsOriented(src, dst, o) ==> dst.w == Width(o, src.w, src.h) && dst.h == Height(o, src.w, src.h)
  {
  }

  /** Stored pixel by stored pixel: 6, the usual portrait photo, is turned a quarter clockwise, and so on. */
  lemma PixelIsShownAt(src: Image, dst: Image, o: Orientation, x: nat, y: nat)
    requires IsOriented(src, dst, o) && x < src.w && y < src.h
    ensures if o < 5 then dst.w == src.w && dst.h == src.h else dst.w == src.h && dst.h == src.w
    ensures Dot(src, x, y) == match o
                              case 1 => Dot(dst, x, y)
                              case 2 => Dot(dst, src.w - 1 - x, y)
                              case 3 => Dot(dst, src.w - 1 - x, src.h - 1 - y)
                              case 4 => Dot(dst, x, src.h - 1 - y)
                              case 5 => Dot(dst, y, x)
                              case 6 => Dot(dst, src.h - 1 - y, x)
                              case 7 => Dot(dst, src.h - 1 - y, src.w - 1 - x)
                              case 8 => Dot(dst, y, src.w - 1 - x)
  {
    var (p: nat, q: nat) := match o
      case 1 => (x, y)
      case 2 => (src.w - 1 - x, y)
      case 3 => (src.w - 1 - x, src.h - 1 - y)
      case 4 => (x, src.h - 1 - y)
      case 5 => (y, x)
      case 6 => (src.h - 1 - y, x)
      case 7 => (src.h - 1 - y, src.w - 1 - x)
      case 8 => (y, src.w - 1 - x);
    OrientedShows(src, dst, o, p, q);
    hide IsOriented, Dot;
  }

  // -------------------------------------------------------------------- the loop

  /** The first n destination pixels are in place. */
  ghost predicate Copied(src: seq<Byte>, dst: seq<Byte>, o: Orientation, w: nat, h: nat, n: int) {
    && |src| == |dst| == w * h * BYTES && 0 <= n <= w * h
    && forall q | 0 <= q < n :: Pixel(dst, q) == Pixel(src, SourceNumber(o, w, h, q))
  }

  lemma OneMoreCopied(src: seq<Byte>, before: seq<Byte>, after: seq<Byte>, o: Orientation, w: nat, h: nat, n: nat)
    requires Copied(src, before, o, w, h, n) && n < w * h && |after| == |before|
    requires after[..n * BYTES] == before[..n * BYTES]
    requires Pixel(after, n) == Pixel(src, SourceNumber(o, w, h, n))
    ensures Copied(src, after, o, w, h, n + 1)
  {
    forall q | 0 <= q < n ensures Pixel(after, q) == Pixel(before, q) {
      assert Pixel(after, q) == after[..n * BYTES][q * BYTES..(q + 1) * BYTES];
      assert Pixel(before, q) == before[..n * BYTES][q * BYTES..(q + 1) * BYTES];
    }
  }

  method CopyPixel(src: array<Byte>, dst: array<Byte>, from: nat, to: nat)
    requires src != dst && (from + 1) * BYTES <= src.Length && (to + 1) * BYTES <= dst.Length
    modifies dst
    ensures Pixel(dst[..], to) == Pixel(src[..], from)
    ensures dst[..to * BYTES] == old(dst[..to * BYTES])
  {
    var si, di := from * BYTES, to * BYTES;
    dst[di], dst[di + 1], dst[di + 2], dst[di + 3] := src[si], src[si + 1], src[si + 2], src[si + 3];
  }

  method SourceOf(o: int, w: nat, h: nat, x: nat, y: nat) returns (sx: nat, sy: nat)
    requires 2 <= o <= 8 && x < Width(o, w, h) && y < Height(o, w, h)
    ensures (sx, sy) == Source(o, w, h, x, y)
  {
    match o {
      case 2 => sx, sy := w - 1 - x, y;          // flip horizontally
      case 3 => sx, sy := w - 1 - x, h - 1 - y;  // rotate 180
      case 4 => sx, sy := x, h - 1 - y;          // flip vertically
      case 5 => sx, sy := y, x;                  // transpose
      case 6 => sx, sy := y, h - 1 - x;          // rotate 90 clockwise
      case 7 => sx, sy := w - 1 - y, h - 1 - x;  // transverse
      case _ => sx, sy := w - 1 - y, x;          // rotate 90 counter-clockwise
    }
  }

  /** Values outside 2..8 leave the picture, and the buffer, as they are. */
  method Orient8(src: array<Byte>, w: nat, h: nat, o: int) returns (dst: array<Byte>, dw: nat, dh: nat)
    requires Image(w, h, src[..]).Valid()
    ensures o < 2 || o > 8 ==> dst == src && dw == w && dh == h
    ensures 2 <= o <= 8 ==> fresh(dst) && IsOriented(Image(w, h, src[..]), Image(dw, dh, dst[..]), o)
  {
    if o < 2 || o > 8 {
      return src, w, h;
    }
    dw, dh := w, h;
    if o >= 5 {
      dw, dh := h, w;
    }
    AreaSurvives(o, w, h);
    ghost var area, n := w * h, 0;
    assert dw * dh == area;
    dst := new Byte[dw * dh * BYTES](_ => 0);
    for y := 0 to dh
      invariant n == y * dw && src != dst
      invariant Copied(src[..], dst[..], o, w, h, n)
    {
      NextRow(dw, dh, y);
      CopyRow(src, dst, o, w, h, y);
      n := n + dw;
    }
    AllCopied(Image(w, h, src[..]), Image(dw, dh, dst[..]), o, n);
  }

  lemma AllCopied(src: Image, dst: Image, o: Orientation, n: nat)
    requires dst.w == Width(o, src.w, src.h) && dst.h == Height(o, src.w, src.h) && n == dst.h * dst.w
    requires Copied(src.pix, dst.pix, o, src.w, src.h, n)
    ensures IsOriented(src, dst, o)
  {
    AreaSurvives(o, src.w, src.h);
  }

  /** The inner loop. */
  method CopyRow(src: array<Byte>, dst: array<Byte>, o: int, w: nat, h: nat, y: nat)
    requires 2 <= o <= 8 && y < Height(o, w, h) && src != dst
    requires Copied(src[..], dst[..], o, w, h, y * Width(o, w, h))
    modifies dst
    ensures Copied(src[..], dst[..], o, w, h, y * Width(o, w, h) + Width(o, w, h))
  {
    var dw := Width(o, w, h);
    ghost var n := y * dw;
    for x := 0 to dw
      invariant n == y * dw + x
      invariant Copied(src[..], dst[..], o, w, h, n)
    {
      var sx, sy := SourceOf(o, w, h, x, y);
      SourceNumberAt(o, w, h, x, y);
      ghost var before := dst[..];
      var from, to := sy * w + sx, y * dw + x;
      assert from == SourceNumber(o, w, h, n) && to == n < w * h;
      CopyPixel(src, dst, from, to);
      OneMoreCopied(src[..], before, dst[..], o, w, h, n);
      n := n + 1;
    }
  }

  lemma NextRow(dw: nat, dh: nat, y: nat)
    requires y < dh
    ensures (y + 1) * dw == y * dw + dw <= dw * dh
  {
    assert (y + 1) * dw <= dh * dw;
  }
}
