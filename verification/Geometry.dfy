/** The reader of geometry values, `parseGeometryValue` of lib/packets/packet.js, against the
    well-known binary format of section 8 of OGC 06-103r4. */
module Geometry {
  import opened Bytes
  import opened Maybes

  /** An IEEE double, kept as its eight bytes in little-endian order. */
  type Double = d: Buffer | |d| == 8 witness [0, 0, 0, 0, 0, 0, 0, 0]

  /** What the reader returns: null, a point, or an array. */
  datatype Value = Null | Point(x: Double, y: Double) | Array(items: seq<Value>)

  // ---------------------------------------------------------------- reading bytes

  function Reverse(b: Buffer): (r: Buffer)
    ensures |r| == |b|
  {
    if b == [] then [] else Reverse(b[1..]) + [b[0]]
  }

  function ReadUInt32(b: Buffer, offset: nat, little: bool): nat
    requires offset + 4 <= |b|
  {
    FromLe(if little then b[offset..offset + 4] else Reverse(b[offset..offset + 4]))
  }

  function ReadDouble(b: Buffer, offset: nat, little: bool): Double
    requires offset + 8 <= |b|
  {
    if little then b[offset..offset + 8] else Reverse(b[offset..offset + 8])
  }

  function ReadPoint(b: Buffer, offset: nat, little: bool): Value
    requires offset + 16 <= |b|
  {
    Point(ReadDouble(b, offset, little), ReadDouble(b, offset + 8, little))
  }

  /** Up to `n` points, as far as the buffer goes. */
  function ReadPoints(b: Buffer, offset: nat, n: nat, little: bool): (r: (seq<Value>, nat))
    requires offset <= |b|
    ensures offset <= r.1 <= |b|
    decreases n
  {
    if n == 0 || offset + 16 > |b| then ([], offset)
    else
      var (points, end) := ReadPoints(b, offset + 16, n - 1, little);
      ([ReadPoint(b, offset, little)] + points, end)
  }

  function ReadRings(b: Buffer, offset: nat, n: nat, little: bool): (r: (seq<Value>, nat))
    requires offset <= |b|
    ensures offset <= r.1 <= |b|
    decreases n
  {
    if n == 0 || offset + 4 > |b| then ([], offset)
    else
      var (points, middle) := ReadPoints(b, offset + 4, ReadUInt32(b, offset, little), little);
      var (rings, end) := ReadRings(b, middle, n - 1, little);
      ([Array(points)] + rings, end)
  }

  /** One geometry at an offset: its value and the offset after it. The counts are checked against the
      bytes that are left, so each level of nesting consumes input. */
  function ReadGeometry(b: Buffer, offset: nat): (r: (Value, nat))
    requires offset <= |b|
    ensures offset <= r.1 <= |b|
    decreases |b| - offset, 0
  {
    if offset + 5 > |b| then (Null, offset)
    else
      var little := b[offset] != 0;
      var kind, body := ReadUInt32(b, offset + 1, little), offset + 5;
      if kind == 1 then
        if body + 16 > |b| then (Null, body) else (ReadPoint(b, body, little), body + 16)
      else if 2 <= kind <= 7 then
        if body + 4 > |b| then (Null, body)
        else
          var n, start := ReadUInt32(b, body, little), body + 4;
          var least := if kind == 2 then 16 else if kind == 3 then 4 else 9;
          if n * least > |b| - start then (Null, start)
          else
            var (items, end) :=
              if kind == 2 then ReadPoints(b, start, n, little)
              else if kind == 3 then ReadRings(b, start, n, little)
              else ReadMembers(b, start, n);
            (Array(items), end)
      else (Null, body)
  }

  function ReadMembers(b: Buffer, offset: nat, n: nat): (r: (seq<Value>, nat))
    requires offset <= |b|
    ensures offset <= r.1 <= |b|
    decreases |b| - offset, n + 1
  {
    if n == 0 then ([], offset)
    else
      var (first, middle) := ReadGeometry(b, offset);
      var (others, end) := ReadMembers(b, middle, n - 1);
      ([first] + others, end)
  }

  // ---------------------------------------------------------------- the reader

  lemma Joins(done: seq<Value>, next: Value, rest: seq<Value>)
    ensures (done + [next]) + rest == done + ([next] + rest)
    ensures [] + rest == rest && done + [] == done
  {
  }

  class GeometryReader {
    const buffer: Buffer
    var offset: nat

    constructor (buffer: Buffer, offset: nat)
      requires offset <= |buffer|
      ensures this.buffer == buffer && this.offset == offset
    {
      this.buffer := buffer;
      this.offset := offset;
    }

    /** Ends on every input, with every read inside the buffer. */
    method ParseGeometry() returns (result: Value)
      requires offset <= |buffer|
      modifies this
      ensures offset <= |buffer| && (result, offset) == ReadGeometry(buffer, old(offset))
      decreases |buffer| - offset, 0
    {
      hide ReadPoint, ReadUInt32, ReadPoints, ReadRings, ReadMembers;
      if offset + 5 > |buffer| {
        return Null;
      }
      var little := buffer[offset] != 0;
      offset := offset + 1;
      var wkbType := ReadUInt32(buffer, offset, little);
      offset := offset + 4;
      if wkbType == 1 {
        if offset + 16 > |buffer| {
          return Null;
        }
        result := ReadPoint(buffer, offset, little);
        offset := offset + 16;
      } else if 2 <= wkbType <= 7 {
        if offset + 4 > |buffer| {
          return Null;
        }
        var count := ReadUInt32(buffer, offset, little);
        offset := offset + 4;
        if wkbType == 2 {
          if count * 16 > |buffer| - offset {
            return Null;
          }
          var points := ParsePoints(count, little);
          result := Array(points);
        } else if wkbType == 3 {
          if count * 4 > |buffer| - offset {
            return Null;
          }
          var rings := ParseRings(count, little);
          result := Array(rings);
        } else {
          if count * 9 > |buffer| - offset {
            return Null;
          }
          var members := ParseMembers(count);
          result := Array(members);
        }
      } else {
        result := Null;
      }
    }

    method ParsePoints(numPoints: nat, little: bool) returns (points: seq<Value>)
      requires offset <= |buffer|
      modifies this
      ensures offset <= |buffer| && (points, offset) == ReadPoints(buffer, old(offset), numPoints, little)
    {
      hide ReadPoint;
      points := [];
      var i := numPoints;
      Joins([], Null, ReadPoints(buffer, offset, numPoints, little).0);
      while i > 0
        invariant offset <= |buffer|
        invariant var (rest, end) := ReadPoints(buffer, offset, i, little);
                  ReadPoints(buffer, old(offset), numPoints, little) == (points + rest, end)
      {
        if offset + 16 > |buffer| {
          break;
        }
        Joins(points, ReadPoint(buffer, offset, little), ReadPoints(buffer, offset + 16, i - 1, little).0);
        points := points + [ReadPoint(buffer, offset, little)];
        offset := offset + 16;
        i := i - 1;
      }
      assert points + [] == points;
    }

    method ParseRings(numRings: nat, little: bool) returns (rings: seq<Value>)
      requires offset <= |buffer|
      modifies this
      ensures offset <= |buffer| && (rings, offset) == ReadRings(buffer, old(offset), numRings, little)
    {
      hide ReadPoints, ReadUInt32;
      rings := [];
      var i := numRings;
      Joins([], Null, ReadRings(buffer, offset, numRings, little).0);
      while i > 0
        invariant offset <= |buffer|
        invariant var (rest, end) := ReadRings(buffer, offset, i, little);
                  ReadRings(buffer, old(offset), numRings, little) == (rings + rest, end)
      {
        if offset + 4 > |buffer| {
          break;
        }
        var numPoints := ReadUInt32(buffer, offset, little);
        offset := offset + 4;
        var line := ParsePoints(numPoints, little);
        Joins(rings, Array(line), ReadRings(buffer, offset, i - 1, little).0);
        rings := rings + [Array(line)];
        i := i - 1;
      }
      assert rings + [] == rings;
    }

    method ParseMembers(num: nat) returns (members: seq<Value>)
      requires offset <= |buffer|
      modifies this
      ensures offset <= |buffer| && (members, offset) == ReadMembers(buffer, old(offset), num)
      decreases |buffer| - offset, num + 1
    {
      hide ReadGeometry;
      members := [];
      var i: int := num;
      Joins([], Null, ReadMembers(buffer, offset, num).0);
      while i > 0
        invariant old(offset) <= offset <= |buffer| && 0 <= i <= num
        invariant var (rest, end) := ReadMembers(buffer, offset, i);
                  ReadMembers(buffer, old(offset), num) == (members + rest, end)
      {
        var member := ParseGeometry();
        Joins(members, member, ReadMembers(buffer, offset, i - 1).0);
        members := members + [member];
        i := i - 1;
      }
      assert members + [] == members;
    }
  }

  /** `parseGeometryValue` on the column's bytes; the first four are the spatial reference id. */
  method ParseGeometryValue(value: Maybe<Buffer>) returns (result: Value)
    ensures result == GeometryValue(value)
  {
    if value.Nothing? || |value.value| == 0 {
      return Null;
    }
    var buffer := value.value;
    if 4 > |buffer| {
      return Null;
    }
    var reader := new GeometryReader(buffer, 4);
    result := reader.ParseGeometry();
  }

  function GeometryValue(value: Maybe<Buffer>): Value {
    if value.Nothing? || |value.value| < 4 then Null else ReadGeometry(value.value, 4).0
  }

  // ---------------------------------------------------------------- the format

  type Coordinates = (Double, Double)

  /** A geometry with a byte order for each of its parts; kinds 4 to 7 hold other geometries. */
  datatype Shape =
    | WkbPoint(little: bool, at: Coordinates)
    | WkbLineString(little: bool, points: seq<Coordinates>)
    | WkbPolygon(little: bool, rings: seq<seq<Coordinates>>)
    | WkbCollection(little: bool, kind: nat, members: seq<Shape>)

  predicate Encodable(s: Shape) {
    match s
    case WkbPoint(_, _) => true
    case WkbLineString(_, points) => |points| < 0x1_0000_0000
    case WkbPolygon(_, rings) => |rings| < 0x1_0000_0000 && forall r :: r in rings ==> |r| < 0x1_0000_0000
    case WkbCollection(_, kind, members) =>
      4 <= kind <= 7 && |members| < 0x1_0000_0000 && forall m :: m in members ==> Encodable(m)
  }

  function UInt32(n: nat, little: bool): (b: Buffer)
    ensures |b| == 4
  {
    var a, b, c, d := n % 0x100, n / 0x100 % 0x100, n / 0x1_0000 % 0x100, n / 0x100_0000 % 0x100;
    if little then [a, b, c, d] else [d, c, b, a]
  }

  function DoubleBytes(d: Double, little: bool): (b: Buffer)
    ensures |b| == 8
  {
    if little then d else [d[7], d[6], d[5], d[4], d[3], d[2], d[1], d[0]]
  }

  function PointBytes(p: Coordinates, little: bool): (b: Buffer)
    ensures |b| == 16
  {
    DoubleBytes(p.0, little) + DoubleBytes(p.1, little)
  }

  function PointsBytes(points: seq<Coordinates>, little: bool): (b: Buffer)
    ensures |b| == 16 * |points|
  {
    if points == [] then [] else PointBytes(points[0], little) + PointsBytes(points[1..], little)
  }

  function RingsBytes(rings: seq<seq<Coordinates>>, little: bool): (b: Buffer)
    ensures |b| >= 4 * |rings|
  {
    if rings == [] then []
    else UInt32(|rings[0]|, little) + PointsBytes(rings[0], little) + RingsBytes(rings[1..], little)
  }

  function Header(little: bool, kind: nat): (b: Buffer)
    ensures |b| == 5
  {
    [if little then 1 else 0] + UInt32(kind, little)
  }

  function Encode(s: Shape): (b: Buffer)
    ensures |b| >= 9
    decreases s, 0
  {
    match s
    case WkbPoint(little, at) => Header(little, 1) + PointBytes(at, little)
    case WkbLineString(little, points) => Header(little, 2) + UInt32(|points|, little) + PointsBytes(points, little)
    case WkbPolygon(little, rings) => Header(little, 3) + UInt32(|rings|, little) + RingsBytes(rings, little)
    case WkbCollection(little, kind, members) =>
      Header(little, kind) + UInt32(|members|, little) + EncodeAll(members)
  }

  function EncodeAll(shapes: seq<Shape>): (b: Buffer)
    ensures |b| >= 9 * |shapes|
    decreases shapes, 1
  {
    if shapes == [] then [] else Encode(shapes[0]) + EncodeAll(shapes[1..])
  }

  // The coordinates of a geometry, as nested arrays.

  function PointValues(points: seq<Coordinates>): seq<Value> {
    if points == [] then [] else [Point(points[0].0, points[0].1)] + PointValues(points[1..])
  }

  function RingValues(rings: seq<seq<Coordinates>>): seq<Value> {
    if rings == [] then [] else [Array(PointValues(rings[0]))] + RingValues(rings[1..])
  }

  function ShapeValue(s: Shape): Value
    decreases s, 0
  {
    match s
    case WkbPoint(_, at) => Point(at.0, at.1)
    case WkbLineString(_, points) => Array(PointValues(points))
    case WkbPolygon(_, rings) => Array(RingValues(rings))
    case WkbCollection(_, _, members) => Array(ShapeValues(members))
  }

  function ShapeValues(shapes: seq<Shape>): seq<Value>
    decreases shapes, 1
  {
    if shapes == [] then [] else [ShapeValue(shapes[0])] + ShapeValues(shapes[1..])
  }

  // ---------------------------------------------------------------- round trip

  lemma {:induction false} ReverseAppend(a: Buffer, b: Buffer)
    ensures Reverse(a + b) == Reverse(b) + Reverse(a)
    decreases |a|
  {
    if a == [] {
      assert a + b == b;
    } else {
      ReverseAppend(a[1..], b);
      assert (a + b)[1..] == a[1..] + b;
    }
  }

  lemma ReverseFour(a: Byte, b: Byte, c: Byte, d: Byte)
    ensures Reverse([a, b, c, d]) == [d, c, b, a]
  {
    ReverseAppend([a, b], [c, d]);
    assert [a, b, c, d] == [a, b] + [c, d];
    ReversePair(a, b);
    ReversePair(c, d);
  }

  lemma ReversePair(a: Byte, b: Byte)
    ensures Reverse([a, b]) == [b, a]
  {
    assert Reverse([b]) == [b] && [a, b][1..] == [b];
  }

  lemma BigDouble(d: Double)
    ensures Reverse(DoubleBytes(d, false)) == d
  {
    var b := DoubleBytes(d, false);
    ReverseAppend(b[..4], b[4..]);
    assert b == b[..4] + b[4..];
    assert b[..4] == [d[7], d[6], d[5], d[4]] && b[4..] == [d[3], d[2], d[1], d[0]];
    ReverseFour(d[7], d[6], d[5], d[4]);
    ReverseFour(d[3], d[2], d[1], d[0]);
    assert d == [d[0], d[1], d[2], d[3]] + [d[4], d[5], d[6], d[7]];
  }

  lemma FourDigits(n: nat)
    ensures Le(n, 4) == [n % 0x100, n / 0x100 % 0x100, n / 0x1_0000 % 0x100, n / 0x100_0000 % 0x100]
  {
    assert Le(n, 4) == [n % 0x100] + Le(n / 0x100, 3);
    assert Le(n / 0x100, 3) == [n / 0x100 % 0x100] + Le(n / 0x100 / 0x100, 2);
    assert Le(n / 0x100 / 0x100, 2) == [n / 0x100 / 0x100 % 0x100] + Le(n / 0x100 / 0x100 / 0x100, 1);
    assert n / 0x100 / 0x100 == n / 0x1_0000 && n / 0x1_0000 / 0x100 == n / 0x100_0000;
  }

  lemma ReadsUInt32(b: Buffer, offset: nat, n: nat, little: bool)
    requires n < 0x1_0000_0000 && Holds(b, offset, UInt32(n, little))
    ensures ReadUInt32(b, offset, little) == n
  {
    assert Pow256(4) == 0x1_0000_0000;
    LeRoundTrip(n, 4);
    FourDigits(n);
    ReverseFour(n / 0x100_0000 % 0x100, n / 0x1_0000 % 0x100, n / 0x100 % 0x100, n % 0x100);
  }

  lemma ReadsPoint(b: Buffer, offset: nat, p: Coordinates, little: bool)
    requires Holds(b, offset, PointBytes(p, little))
    ensures ReadPoint(b, offset, little) == Point(p.0, p.1)
  {
    HoldsSplit(b, offset, DoubleBytes(p.0, little), DoubleBytes(p.1, little));
    BigDouble(p.0);
    BigDouble(p.1);
    hide Reverse;
  }

  lemma {:induction false} ReadsPoints(b: Buffer, offset: nat, points: seq<Coordinates>, little: bool)
    requires Holds(b, offset, PointsBytes(points, little))
    ensures ReadPoints(b, offset, |points|, little) == (PointValues(points), offset + |PointsBytes(points, little)|)
    decreases |points|
  {
    hide PointBytes, ReadPoint;
    if points != [] {
      HoldsSplit(b, offset, PointBytes(points[0], little), PointsBytes(points[1..], little));
      ReadsPoint(b, offset, points[0], little);
      ReadsPoints(b, offset + 16, points[1..], little);
    }
  }

  lemma HeldInside(b: Buffer, offset: nat, part: Buffer)
    requires Holds(b, offset, part)
    ensures offset + |part| <= |b|
  {
  }

  lemma {:induction false} ReadsRings(b: Buffer, offset: nat, rings: seq<seq<Coordinates>>, little: bool)
    requires Holds(b, offset, RingsBytes(rings, little)) && forall r :: r in rings ==> |r| < 0x1_0000_0000
    ensures ReadRings(b, offset, |rings|, little) == (RingValues(rings), offset + |RingsBytes(rings, little)|)
    decreases |rings|
  {
    hide UInt32, ReadUInt32, PointsBytes, PointValues, ReadPoints, Holds;
    if rings != [] {
      var count, points, others := UInt32(|rings[0]|, little), PointsBytes(rings[0], little),
        RingsBytes(rings[1..], little);
      HoldsSplit(b, offset, count + points, others);
      HoldsSplit(b, offset, count, points);
      HeldInside(b, offset, count);
      assert rings[0] in rings;
      ReadsUInt32(b, offset, |rings[0]|, little);
      ReadsPoints(b, offset + 4, rings[0], little);
      ReadsRings(b, offset + |count + points|, rings[1..], little);
    }
  }

  lemma ReadsHeader(b: Buffer, offset: nat, kind: nat, little: bool)
    requires kind <= 7 && Holds(b, offset, Header(little, kind))
    ensures (b[offset] != 0) == little && ReadUInt32(b, offset + 1, little) == kind
  {
    hide UInt32, ReadUInt32;
    HoldsSplit(b, offset, [if little then 1 else 0], UInt32(kind, little));
    ReadsUInt32(b, offset + 1, kind, little);
  }

  /** Header, count and items of the kinds that have a count. */
  lemma ReadsCounted(b: Buffer, offset: nat, kind: nat, little: bool, n: nat, items: Buffer)
    requires 2 <= kind <= 7 && n < 0x1_0000_0000 && Holds(b, offset, Header(little, kind) + UInt32(n, little) + items)
    ensures (b[offset] != 0) == little && ReadUInt32(b, offset + 1, little) == kind
    ensures ReadUInt32(b, offset + 5, little) == n && Holds(b, offset + 9, items)
  {
    hide UInt32, Header, ReadUInt32;
    HoldsSplit(b, offset, Header(little, kind) + UInt32(n, little), items);
    HoldsSplit(b, offset, Header(little, kind), UInt32(n, little));
    ReadsHeader(b, offset, kind, little);
    ReadsUInt32(b, offset + 5, n, little);
  }

  /** WKB round trip: any nesting of geometries, in any mix of byte orders, reads back as its coordinates. */
  lemma {:induction false} ReadsShape(b: Buffer, offset: nat, s: Shape)
    requires Holds(b, offset, Encode(s)) && Encodable(s)
    ensures ReadGeometry(b, offset) == (ShapeValue(s), offset + |Encode(s)|)
    decreases s, 0
  {
    hide UInt32, Header, ReadUInt32, ReadPoint, ReadPoints, ReadRings, ReadMembers, PointBytes, PointsBytes, RingsBytes,
      EncodeAll, ShapeValues, PointValues, RingValues;
    match s
    case WkbPoint(little, at) =>
      HoldsSplit(b, offset, Header(little, 1), PointBytes(at, little));
      ReadsHeader(b, offset, 1, little);
      ReadsPoint(b, offset + 5, at, little);
    case WkbLineString(little, points) =>
      ReadsCounted(b, offset, 2, little, |points|, PointsBytes(points, little));
      ReadsPoints(b, offset + 9, points, little);
    case WkbPolygon(little, rings) =>
      ReadsCounted(b, offset, 3, little, |rings|, RingsBytes(rings, little));
      ReadsRings(b, offset + 9, rings, little);
    case WkbCollection(little, kind, members) =>
      ReadsCounted(b, offset, kind, little, |members|, EncodeAll(members));
      ReadsShapes(b, offset + 9, members);
  }

  lemma {:induction false} ReadsShapes(b: Buffer, offset: nat, shapes: seq<Shape>)
    requires Holds(b, offset, EncodeAll(shapes)) && forall s :: s in shapes ==> Encodable(s)
    ensures ReadMembers(b, offset, |shapes|) == (ShapeValues(shapes), offset + |EncodeAll(shapes)|)
    decreases shapes, 1
  {
    hide ReadGeometry, ShapeValue, Encode, Encodable;
    if shapes != [] {
      HoldsSplit(b, offset, Encode(shapes[0]), EncodeAll(shapes[1..]));
      ReadsShape(b, offset, shapes[0]);
      ReadsShapes(b, offset + |Encode(shapes[0])|, shapes[1..]);
    }
  }

  /** A column value: a spatial reference id and a geometry. */
  lemma GeometryRoundTrip(srid: Buffer, s: Shape)
    requires |srid| == 4 && Encodable(s)
    ensures GeometryValue(Just(srid + Encode(s))) == ShapeValue(s)
  {
    hide Encode, ReadGeometry, Encodable;
    var b := srid + Encode(s);
    assert b[4..4 + |Encode(s)|] == Encode(s);
    ReadsShape(b, 4, s);
  }
}
