/**
 Reading the EXIF orientation of a JPEG, and a writer it inverts.

 Offsets are unbounded integers here; the program compares them in uint64, where
 the largest sum, 2^32 + 1 + 65535 * 12, does not wrap.
 */
module Exif {
  import opened Common

  type Byte = n: int | 0 <= n < 256
  type Bytes = seq<Byte>

  const TAG_ORIENTATION := 0x0112
  const TYPE_SHORT := 3
  const ENTRY_SIZE := 12
  const HEADER_SIZE := 6
  const EXIF_HEADER: Bytes := [0x45, 0x78, 0x69, 0x66, 0x00, 0x00]  // "Exif\0\0"

  datatype Order = LittleEndian | BigEndian {
    function Uint16(b: Bytes): int
      requires |b| >= 2
    {
      var first, second := b[0] as int, b[1] as int;
      if LittleEndian? then first + 256 * second else 256 * first + second
    }

    function Uint32(b: Bytes): int
      requires |b| >= 4
    {
      if LittleEndian? then Uint16(b) + 65536 * Uint16(b[2..]) else 65536 * Uint16(b) + Uint16(b[2..])
    }

    function Put16(n: int): (b: Bytes)
      requires 0 <= n < 65536
      ensures |b| == 2 && Uint16(b) == n
    {
      if LittleEndian? then [n % 256, n / 256] else [n / 256, n % 256]
    }

    function Put32(n: int): (b: Bytes)
      requires 0 <= n < 0x1_0000_0000
      ensures |b| == 4 && Uint32(b) == n
    {
      var low, high := Put16(n % 65536), Put16(n / 65536);
      if LittleEndian? then
        assert (low + high)[2..] == high;
        low + high
      else
        assert (high + low)[2..] == low;
        high + low
    }
  }

  // ------------------------------------------------------------ the TIFF block

  /** Entry i of the directory that starts at `entries`. */
  function Entry(tiff: Bytes, entries: nat, i: nat): (e: Bytes)
    requires entries + (i + 1) * ENTRY_SIZE <= |tiff|
    ensures |e| == ENTRY_SIZE
  {
    tiff[entries + i * ENTRY_SIZE .. entries + (i + 1) * ENTRY_SIZE]
  }

  function Upright(v: int): (r: int)
    ensures 1 <= r <= 8
  {
    if 1 <= v <= 8 then v else 1
  }

  /** The first orientation entry decides, from entry i on. */
  function ScanEntries(order: Order, tiff: Bytes, entries: nat, count: nat, i: nat): (r: int)
    requires i <= count && entries + count * ENTRY_SIZE <= |tiff|
    ensures 1 <= r <= 8
    decreases count - i
  {
    if i == count then 1 else
      var e := Entry(tiff, entries, i);
      if order.Uint16(e) != TAG_ORIENTATION then ScanEntries(order, tiff, entries, count, i + 1)
      else if order.Uint16(e[2..]) != TYPE_SHORT then 1
      else Upright(order.Uint16(e[8..]))
  }

  function ByteOrder(tiff: Bytes): Option<Order>
    requires |tiff| >= 2
  {
    if tiff[..2] == [0x49, 0x49] then Some(LittleEndian)       // "II"
    else if tiff[..2] == [0x4D, 0x4D] then Some(BigEndian)     // "MM"
    else None
  }

  function TiffOrientation(tiff: Bytes): (r: int)
    ensures 1 <= r <= 8
  {
    if |tiff| < 8 || ByteOrder(tiff).None? then 1 else
      var order := ByteOrder(tiff).value;
      var ifd := order.Uint32(tiff[4..]);
      if order.Uint16(tiff[2..]) != 42 || ifd + 2 > |tiff| then 1 else
        var count := order.Uint16(tiff[ifd..]);
        if ifd + 2 + count * ENTRY_SIZE > |tiff| then 1 else ScanEntries(order, tiff, ifd + 2, count, 0)
  }

  method ReadTiffOrientation(tiff: Bytes) returns (r: int)
    ensures r == TiffOrientation(tiff)
  {
    if |tiff| < 8 {
      return 1;
    }
    var order;
    if tiff[..2] == [0x49, 0x49] {
      order := LittleEndian;
    } else if tiff[..2] == [0x4D, 0x4D] {
      order := BigEndian;
    } else {
      return 1;
    }
    if order.Uint16(tiff[2..]) != 42 {
      return 1;
    }
    var ifd := order.Uint32(tiff[4..]);
    if ifd + 2 > |tiff| {
      return 1;
    }
    var count := order.Uint16(tiff[ifd..]);
    var entries := ifd + 2;
    if entries + count * ENTRY_SIZE > |tiff| {
      return 1;
    }
    for i := 0 to count
      invariant TiffOrientation(tiff) == ScanEntries(order, tiff, entries, count, i)
    {
      var e := tiff[entries + i * ENTRY_SIZE .. entries + (i + 1) * ENTRY_SIZE];
      if order.Uint16(e) != TAG_ORIENTATION {
        continue;
      }
      if order.Uint16(e[2..]) != TYPE_SHORT {
        return 1;
      }
      var v := order.Uint16(e[8..]);
      if 1 <= v <= 8 {
        return v;
      }
      return 1;
    }
    return 1;
  }

  // ------------------------------------------------------- the segments of a JPEG

  /** How many 0xFF bytes d begins with. */
  function Fill(d: Bytes): (n: nat)
    ensures n <= |d| && (forall i | 0 <= i < n :: d[i] == 0xFF) && (n < |d| ==> d[n] != 0xFF)
  {
    if d != [] && d[0] == 0xFF then 1 + Fill(d[1..]) else 0
  }

  predicate IsExif(marker: Byte, payload: Bytes) {
    marker == 0xE1 && |payload| >= HEADER_SIZE && payload[..HEADER_SIZE] == EXIF_HEADER
  }

  /** What the walk does at a marker: give up, find the Exif block, or skip to the next segment. */
  datatype Turn = Stop | Found(tiff: Bytes) | Skip(next: nat)

  function TurnAt(data: Bytes, pos: nat): (t: Turn)
    requires pos <= |data|
    ensures t.Skip? ==> pos + 3 <= t.next <= |data|
  {
    if pos == |data| || data[pos] == 0xDA || pos + 3 > |data| then Stop else
      var segLen := BigEndian.Uint16(data[pos + 1..]);
      var end := pos + 1 + segLen;
      if segLen < 2 || end > |data| then Stop else
        var payload := data[pos + 3..end];
        if IsExif(data[pos], payload) then Found(payload[HEADER_SIZE..]) else Skip(end)
  }

  /** The walk over what is left of the file. */
  function Walk(d: Bytes): (r: int)
    ensures 1 <= r <= 8
    decreases |d|
  {
    var n := Fill(d);
    if n == 0 then 1 else
      match TurnAt(d, n)
      case Stop => 1
      case Found(tiff) => TiffOrientation(tiff)
      case Skip(next) => Walk(d[next..])
  }

  function Orientation(data: Bytes): (r: int)
    ensures 1 <= r <= 8
  {
    if |data| < 2 || data[0] != 0xFF || data[1] != 0xD8 then 1 else Walk(data[2..])
  }

  /** Past the fill bytes at pos. */
  method SkipFill(data: Bytes, start: nat) returns (pos: nat)
    requires start < |data| && data[start] == 0xFF
    ensures start < pos <= |data| && (pos < |data| ==> data[pos] != 0xFF)
    ensures forall i | start <= i < pos :: data[i] == 0xFF
  {
    pos := start;
    while pos < |data| && data[pos] == 0xFF
      invariant start <= pos <= |data| && (start == pos ==> data[pos] == 0xFF)
      invariant forall i | start <= i < pos :: data[i] == 0xFF
    {
      pos := pos + 1;
    }
  }

  /** The segment whose marker is at pos. */
  method ReadSegment(data: Bytes, pos: nat) returns (turn: Turn)
    requires pos <= |data|
    ensures turn == TurnAt(data, pos)
  {
    if pos >= |data| {
      return Stop;
    }
    var marker, pos := data[pos], pos + 1;
    if marker == 0xDA {
      return Stop;
    }
    if pos + 2 > |data| {
      return Stop;
    }
    var segLen := BigEndian.Uint16(data[pos..]);
    if segLen < 2 || pos + segLen > |data| {
      return Stop;
    }
    var payload := data[pos + 2..pos + segLen];
    if marker == 0xE1 && |payload| >= HEADER_SIZE && payload[..HEADER_SIZE] == EXIF_HEADER {
      return Found(payload[HEADER_SIZE..]);
    }
    return Skip(pos + segLen);
  }

  /** Terminates, reads in bounds and returns 1..8 on every byte string. */
  method ReadOrientation(data: Bytes) returns (r: int)
    ensures r == Orientation(data)
    ensures 1 <= r <= 8
  {
    if |data| < 2 || data[0] != 0xFF || data[1] != 0xD8 {
      return 1;
    }
    var pos := 2;
    while pos < |data|
      invariant 2 <= pos <= |data|
      invariant Orientation(data) == Walk(data[pos..])
    {
      if data[pos] != 0xFF {
        return 1;
      }
      ghost var start := pos;
      pos := SkipFill(data, pos);
      WalkTurn(data, start, pos);
      var turn := ReadSegment(data, pos);
      match turn {
        case Stop => return 1;
        case Found(tiff) =>
          r := ReadTiffOrientation(tiff);
          return;
        case Skip(next) => pos := next;
      }
    }
    return 1;
  }

  lemma {:induction false} FillIs(d: Bytes, n: nat)
    requires n <= |d| && (forall i | 0 <= i < n :: d[i] == 0xFF) && (n < |d| ==> d[n] != 0xFF)
    ensures Fill(d) == n
    decreases n
  {
    if n > 0 {
      FillIs(d[1..], n - 1);
    }
  }

  function Shift(t: Turn, start: nat): Turn
    requires t.Skip? ==> start <= t.next
  {
    if t.Skip? then Skip(t.next - start) else t
  }

  lemma Slice(data: Bytes, start: nat, from: nat, to: nat)
    requires start <= from <= to <= |data|
    ensures data[start..][from - start..to - start] == data[from..to]
  {
  }

  lemma TurnShifts(data: Bytes, start: nat, pos: nat)
    requires start <= pos <= |data|
    ensures TurnAt(data[start..], pos - start) == Shift(TurnAt(data, pos), start)
  {
    if pos + 3 <= |data| {
      Slice(data, start, pos + 1, |data|);
      var end := pos + 1 + BigEndian.Uint16(data[pos + 1..]);
      if pos + 3 <= end <= |data| {
        Slice(data, start, pos + 3, end);
      }
    }
  }

  /** One turn of the walk, in positions of the whole file: `start` is the turn's first byte, `pos` its marker. */
  lemma WalkTurn(data: Bytes, start: nat, pos: nat)
    requires start < pos <= |data| && (forall i | start <= i < pos :: data[i] == 0xFF)
    requires pos < |data| ==> data[pos] != 0xFF
    ensures Walk(data[start..]) == match TurnAt(data, pos)
                                   case Stop => 1
                                   case Found(tiff) => TiffOrientation(tiff)
                                   case Skip(next) => Walk(data[next..])
  {
    hide TurnAt, Fill, TiffOrientation;
    var d, n, turn := data[start..], pos - start, TurnAt(data, pos);
    assert Fill(d) == n by { FillIs(d, n); }
    assert TurnAt(d, n) == Shift(turn, start) by { TurnShifts(data, start, pos); }
    if turn.Skip? {
      assert d[turn.next - start..] == data[turn.next..];
    }
  }

  // --------------------------------------------------------------- the writer

  /** A segment with a length: any number of extra fill bytes, a marker, a payload. */
  datatype Segment = Segment(fill: nat, marker: Byte, payload: Bytes) {
    predicate WellFormed() {
      marker != 0xFF && marker != 0xDA && |payload| + 2 < 65536
    }

    function Write(): Bytes
      requires WellFormed()
    {
      seq(fill + 1, i => 0xFF) + ([marker] + (BigEndian.Put16(|payload| + 2) + payload))
    }
  }

  function WriteSegments(segments: seq<Segment>): Bytes
    requires forall s <- segments :: s.WellFormed()
  {
    if segments == [] then [] else segments[0].Write() + WriteSegments(segments[1..])
  }

  lemma WalkSegment(s: Segment, rest: Bytes)
    requires s.WellFormed()
    ensures Walk(s.Write() + rest)
         == if IsExif(s.marker, s.payload) then TiffOrientation(s.payload[HEADER_SIZE..]) else Walk(rest)
  {
    var d, n := s.Write() + rest, s.fill + 1;
    var length := BigEndian.Put16(|s.payload| + 2);
    var end := n + 3 + |s.payload|;
    assert d[n] == s.marker;
    FillIs(d, n);
    assert d[n + 1..] == length + s.payload + rest;
    assert d[n + 1..][..2] == length;
    assert BigEndian.Uint16(d[n + 1..]) == BigEndian.Uint16(length);
    assert d[n + 3..end] == s.payload;
    assert d[end..] == rest;
  }

  lemma {:induction false} WalkSegments(segments: seq<Segment>, rest: Bytes)
    requires forall s <- segments :: s.WellFormed() && !IsExif(s.marker, s.payload)
    ensures Walk(WriteSegments(segments) + rest) == Walk(rest)
    decreases |segments|
  {
    if segments == [] {
      assert WriteSegments(segments) + rest == rest;
    } else {
      var tail := WriteSegments(segments[1..]) + rest;
      assert WriteSegments(segments) + rest == segments[0].Write() + tail;
      WalkSegment(segments[0], tail);
      WalkSegments(segments[1..], rest);
    }
  }

  /** Where the segments end: at a byte that starts no marker, at the scan, or at a length that cannot be. */
  predicate EndsSegments(rest: Bytes) {
    || rest == [] || rest[0] != 0xFF
    || (|rest| >= 2 && rest[0] == 0xFF && rest[1] == 0xDA)
    || (|rest| >= 4 && rest[0] == 0xFF && rest[1] != 0xFF
        && (256 * (rest[2] as int) + rest[3] as int < 2 || 2 + 256 * (rest[2] as int) + rest[3] as int > |rest|))
  }

  lemma WalkEnds(rest: Bytes)
    requires EndsSegments(rest)
    ensures Walk(rest) == 1
  {
    if rest != [] && rest[0] == 0xFF {
      FillIs(rest, 1);
      if rest[1] != 0xDA {
        assert rest[2..][0] == rest[2] && rest[2..][1] == rest[3];
      }
    }
  }

  /** Nothing after that is looked at, Exif or not. */
  lemma SearchEndsUpright(segments: seq<Segment>, rest: Bytes)
    requires forall s <- segments :: s.WellFormed() && !IsExif(s.marker, s.payload)
    requires EndsSegments(rest)
    ensures Orientation([0xFF, 0xD8] + (WriteSegments(segments) + rest)) == 1
  {
    var data := [0xFF, 0xD8] + (WriteSegments(segments) + rest);
    assert data[2..] == WriteSegments(segments) + rest;
    WalkSegments(segments, rest);
    WalkEnds(rest);
  }

  lemma OtherFilesAreUpright(data: Bytes)
    requires |data| < 2 || data[..2] != [0xFF, 0xD8]
    ensures Orientation(data) == 1
  {
  }

  /** Nor is a block that is not TIFF, whatever it says. */
  lemma OtherBlocksAreUpright(tiff: Bytes)
    requires |tiff| < 8 || tiff[..4] !in [[0x49, 0x49, 42, 0], [0x4D, 0x4D, 0, 42]]
    ensures TiffOrientation(tiff) == 1
  {
    if |tiff| >= 8 && ByteOrder(tiff).Some? && ByteOrder(tiff).value.Uint16(tiff[2..]) == 42 {
      MarksOfTiff(tiff);
    }
  }

  lemma MarksOfTiff(tiff: Bytes)
    requires |tiff| >= 8 && ByteOrder(tiff).Some? && ByteOrder(tiff).value.Uint16(tiff[2..]) == 42
    ensures tiff[..4] in [[0x49, 0x49, 42, 0], [0x4D, 0x4D, 0, 42]]
  {
    assert tiff[0] == tiff[..2][0] && tiff[1] == tiff[..2][1];
    assert tiff[2..][0] == tiff[2] && tiff[2..][1] == tiff[3];
    if ByteOrder(tiff).value.LittleEndian? {
      assert tiff[..4] == [0x49, 0x49, 42, 0];
    } else {
      assert tiff[..4] == [0x4D, 0x4D, 0, 42];
    }
  }

  /** A directory entry: tag, type, count and four bytes of value. */
  datatype Field = Field(tag: int, kind: int, count: int, value: Bytes) {
    predicate WellFormed() {
      0 <= tag < 65536 && 0 <= kind < 65536 && 0 <= count < 0x1_0000_0000 && |value| == 4
    }

    function Write(order: Order): (e: Bytes)
      requires WellFormed()
      ensures |e| == ENTRY_SIZE
    {
      order.Put16(tag) + (order.Put16(kind) + (order.Put32(count) + value))
    }
  }

  predicate AllWellFormed(fields: seq<Field>) {
    forall i | 0 <= i < |fields| :: fields[i].WellFormed()
  }

  function WriteFields(order: Order, fields: seq<Field>): (b: Bytes)
    requires AllWellFormed(fields)
    ensures |b| == |fields| * ENTRY_SIZE
  {
    if fields == [] then [] else fields[0].Write(order) + WriteFields(order, fields[1..])
  }

  /** A TIFF block: header, any gap, the directory, any trailing bytes. */
  datatype Tiff = Tiff(order: Order, gap: Bytes, fields: seq<Field>, trailer: Bytes) {
    predicate WellFormed() {
      |fields| < 65536 && 8 + |gap| < 0x1_0000_0000 && AllWellFormed(fields)
    }

    function Header(): (h: Bytes)
      requires WellFormed()
      ensures |h| == 8
    {
      var mark: Bytes := if order.LittleEndian? then [0x49, 0x49] else [0x4D, 0x4D];
      mark + (order.Put16(42) + order.Put32(8 + |gap|))
    }

    function Write(): Bytes
      requires WellFormed()
    {
      Header() + (gap + (order.Put16(|fields|) + (WriteFields(order, fields) + trailer)))
    }
  }

  /** What a list of fields says about orientation: the first orientation field decides. */
  function Meaning(order: Order, fields: seq<Field>): int
    requires AllWellFormed(fields)
  {
    if fields == [] then 1
    else if fields[0].tag != TAG_ORIENTATION then Meaning(order, fields[1..])
    else if fields[0].kind != TYPE_SHORT then 1
    else Upright(order.Uint16(fields[0].value))
  }

  lemma FieldReads(order: Order, f: Field)
    requires f.WellFormed()
    ensures
      var e := f.Write(order);
      order.Uint16(e) == f.tag && order.Uint16(e[2..]) == f.kind && e[8..] == f.value
  {
    var e := f.Write(order);
    assert e[..2] == order.Put16(f.tag);
    assert e[2..][..2] == order.Put16(f.kind);
  }

  lemma {:induction false} DropFields(order: Order, fields: seq<Field>, i: nat)
    requires AllWellFormed(fields) && i <= |fields|
    ensures WriteFields(order, fields)[i * ENTRY_SIZE..] == WriteFields(order, fields[i..])
    decreases i
  {
    if i == 0 {
      assert fields[0..] == fields;
    } else {
      var first, later := fields[0].Write(order), WriteFields(order, fields[1..]);
      DropFields(order, fields[1..], i - 1);
      assert fields[1..][i - 1..] == fields[i..];
      assert (first + later)[i * ENTRY_SIZE..] == later[(i - 1) * ENTRY_SIZE..];
    }
  }

  lemma FieldAt(order: Order, fields: seq<Field>, i: nat)
    requires AllWellFormed(fields) && i < |fields|
    ensures WriteFields(order, fields)[i * ENTRY_SIZE..(i + 1) * ENTRY_SIZE] == fields[i].Write(order)
  {
    var all, left := WriteFields(order, fields), WriteFields(order, fields[i..]);
    DropFields(order, fields, i);
    assert left[..ENTRY_SIZE] == fields[i].Write(order);
    assert all[i * ENTRY_SIZE..][..ENTRY_SIZE] == all[i * ENTRY_SIZE..(i + 1) * ENTRY_SIZE];
  }

  lemma {:induction false} ScanReads(order: Order, tiff: Bytes, entries: nat, fields: seq<Field>, i: nat)
    requires AllWellFormed(fields)
    requires i <= |fields| && entries + |fields| * ENTRY_SIZE <= |tiff|
    requires forall j | 0 <= j < |fields| :: Entry(tiff, entries, j) == fields[j].Write(order)
    ensures ScanEntries(order, tiff, entries, |fields|, i) == Meaning(order, fields[i..])
    decreases |fields| - i
  {
    if i < |fields| {
      assert fields[i..][0] == fields[i] && fields[i..][1..] == fields[i + 1..];
      FieldReads(order, fields[i]);
      ScanReads(order, tiff, entries, fields, i + 1);
    }
  }

  lemma HeaderReads(t: Tiff, rest: Bytes)
    requires t.WellFormed()
    ensures
      var b := t.Header() + rest;
      && ByteOrder(b) == Some(t.order)
      && t.order.Uint16(b[2..]) == 42
      && t.order.Uint32(b[4..]) == 8 + |t.gap|
  {
    var b, h := t.Header() + rest, t.Header();
    var offset := t.order.Put32(8 + |t.gap|);
    assert b[..2] == h[..2];
    assert h[2..4] == t.order.Put16(42) && h[4..] == offset;
    assert b[2..][0] == h[2] && b[2..][1] == h[3];
    assert b[4..][0] == offset[0] && b[4..][1] == offset[1];
    assert b[4..][2..][0] == offset[2] && b[4..][2..][1] == offset[3];
  }

  lemma CountReads(t: Tiff)
    requires t.WellFormed()
    ensures
      var b, ifd := t.Write(), 8 + |t.gap|;
      ifd + 2 + |t.fields| * ENTRY_SIZE <= |b| && t.order.Uint16(b[ifd..]) == |t.fields|
  {
    var count := t.order.Put16(|t.fields|);
    var b, ifd := t.Write(), 8 + |t.gap|;
    assert b[ifd..] == count + (WriteFields(t.order, t.fields) + t.trailer);
    assert b[ifd..][0] == count[0] && b[ifd..][1] == count[1];
  }

  lemma FieldReadsBack(t: Tiff, j: nat)
    requires t.WellFormed() && j < |t.fields|
    requires 8 + |t.gap| + 2 + |t.fields| * ENTRY_SIZE <= |t.Write()|
    ensures Entry(t.Write(), 8 + |t.gap| + 2, j) == t.fields[j].Write(t.order)
  {
    var b, start, fields := t.Write(), 8 + |t.gap| + 2, WriteFields(t.order, t.fields);
    assert b[start..] == fields + t.trailer;
    FieldAt(t.order, t.fields, j);
    var from, to := j * ENTRY_SIZE, (j + 1) * ENTRY_SIZE;
    assert Entry(b, start, j) == b[start..][from..to] == fields[from..to];
  }

  lemma TiffReads(t: Tiff)
    requires t.WellFormed()
    ensures TiffOrientation(t.Write()) == Meaning(t.order, t.fields)
  {
    CountReads(t);
    HeaderReads(t, t.gap + (t.order.Put16(|t.fields|) + (WriteFields(t.order, t.fields) + t.trailer)));
    forall j | 0 <= j < |t.fields| ensures Entry(t.Write(), 8 + |t.gap| + 2, j) == t.fields[j].Write(t.order) {
      FieldReadsBack(t, j);
    }
    assert t.fields[0..] == t.fields;
    ScanReads(t.order, t.Write(), 8 + |t.gap| + 2, t.fields, 0);
  }

  /** A whole file: SOI, any segments, then an Exif segment, then anything. */
  function WriteJpeg(before: seq<Segment>, fill: nat, tiff: Tiff, rest: Bytes): Bytes
    requires forall s <- before :: s.WellFormed()
    requires tiff.WellFormed() && |tiff.Write()| + HEADER_SIZE + 2 < 65536
  {
    var exif := Segment(fill, 0xE1, [0x45, 0x78, 0x69, 0x66, 0x00, 0x00] + tiff.Write());
    [0xFF, 0xD8] + (WriteSegments(before) + (exif.Write() + rest))
  }

  /**
   Main result: the reader inverts the writer, in both byte orders, with any other
   segments and fill bytes before the Exif segment and anything after it.
   */
  lemma ReaderInvertsWriter(before: seq<Segment>, fill: nat, tiff: Tiff, rest: Bytes)
    requires forall s <- before :: s.WellFormed() && !IsExif(s.marker, s.payload)
    requires tiff.WellFormed() && |tiff.Write()| + HEADER_SIZE + 2 < 65536
    ensures Orientation(WriteJpeg(before, fill, tiff, rest)) == Meaning(tiff.order, tiff.fields)
  {
    var exif := Segment(fill, 0xE1, EXIF_HEADER + tiff.Write());
    var tail := exif.Write() + rest;
    assert WriteJpeg(before, fill, tiff, rest)[2..] == WriteSegments(before) + tail;
    WalkSegments(before, tail);
    WalkSegment(exif, rest);
    assert exif.payload[..HEADER_SIZE] == EXIF_HEADER && exif.payload[HEADER_SIZE..] == tiff.Write();
    TiffReads(tiff);
  }

  /** In particular, an orientation written as the first field of its tag comes back. */
  lemma {:induction false} FirstOrientationComesBack(
      order: Order, before: seq<Field>, v: int, count: int, spare: Bytes, after: seq<Field>)
    requires 1 <= v <= 8 && 0 <= count < 0x1_0000_0000 && |spare| == 2
    requires AllWellFormed(before) && forall i | 0 <= i < |before| :: before[i].tag != TAG_ORIENTATION
    requires AllWellFormed(after)
    ensures
      var field := Field(TAG_ORIENTATION, TYPE_SHORT, count, order.Put16(v) + spare);
      Meaning(order, before + [field] + after) == v
    decreases |before|
  {
    var field := Field(TAG_ORIENTATION, TYPE_SHORT, count, order.Put16(v) + spare);
    var fields := before + [field] + after;
    if before == [] {
      assert fields[0] == field;
      assert (order.Put16(v) + spare)[..2] == order.Put16(v);
    } else {
      assert fields[0] == before[0] && fields[1..] == before[1..] + [field] + after;
      FirstOrientationComesBack(order, before[1..], v, count, spare, after);
    }
  }

  /** Whatever the first field of its tag holds: a SHORT from 1 to 8 counts, and anything else reads as upright. */
  lemma {:induction false} FirstOrientationDecides(order: Order, before: seq<Field>, field: Field, after: seq<Field>)
    requires AllWellFormed(before) && forall i | 0 <= i < |before| :: before[i].tag != 0x0112
    requires field.WellFormed() && field.tag == 0x0112 && AllWellFormed(after)
    ensures
      var v := order.Uint16(field.value);
      Meaning(order, before + [field] + after) == if field.kind == 3 && v in {1, 2, 3, 4, 5, 6, 7, 8} then v else 1
    decreases |before|
  {
    var fields := before + [field] + after;
    if before == [] {
      assert fields[0] == field;
    } else {
      assert fields[0] == before[0] && fields[1..] == before[1..] + [field] + after;
      FirstOrientationDecides(order, before[1..], field, after);
    }
  }

  lemma {:induction false} NoOrientationIsUpright(order: Order, fields: seq<Field>)
    requires AllWellFormed(fields) && forall i | 0 <= i < |fields| :: fields[i].tag != 0x0112
    ensures Meaning(order, fields) == 1
    decreases |fields|
  {
    if fields != [] {
      NoOrientationIsUpright(order, fields[1..]);
    }
  }

  lemma WrittenOrientationIsRead(segments: seq<Segment>, fill: nat, order: Order, gap: Bytes, before: seq<Field>,
                                 v: int, count: int, spare: Bytes, after: seq<Field>, trailer: Bytes, rest: Bytes)
    requires forall s <- segments :: s.WellFormed() && !IsExif(s.marker, s.payload)
    requires 1 <= v <= 8 && 0 <= count < 0x1_0000_0000 && |spare| == 2
    requires AllWellFormed(before) && forall i | 0 <= i < |before| :: before[i].tag != TAG_ORIENTATION
    requires AllWellFormed(after)
    requires
      var field := Field(TAG_ORIENTATION, TYPE_SHORT, count, order.Put16(v) + spare);
      var tiff := Tiff(order, gap, before + [field] + after, trailer);
      tiff.WellFormed() && |tiff.Write()| + HEADER_SIZE + 2 < 65536
    ensures
      var field := Field(TAG_ORIENTATION, TYPE_SHORT, count, order.Put16(v) + spare);
      var tiff := Tiff(order, gap, before + [field] + after, trailer);
      Orientation(WriteJpeg(segments, fill, tiff, rest)) == v
  {
    var field := Field(TAG_ORIENTATION, TYPE_SHORT, count, order.Put16(v) + spare);
    ReaderInvertsWriter(segments, fill, Tiff(order, gap, before + [field] + after, trailer), rest);
    FirstOrientationComesBack(order, before, v, count, spare, after);
  }
}
