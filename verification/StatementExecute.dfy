/** COM_STMT_EXECUTE: lib/packets/execute.js sizes the packet, then writes it; lib/packets/encode_parameter.js
    and lib/packets/typed_parameter.js choose the type, length and writer of each value. */
module StatementExecute {
  import opened BitMasks
  import opened Bytes
  import opened ExecuteServer
  import opened LengthCoded
  import opened Maybes
  import opened TimeValues

  const DECIMAL: Byte := 0x00
  const TINY: Byte := 0x01
  const SHORT: Byte := 0x02
  const LONG: Byte := 0x03
  const FLOAT: Byte := 0x04
  const DOUBLE: Byte := 0x05
  const NULL: Byte := 0x06
  const TIMESTAMP: Byte := 0x07
  const LONGLONG: Byte := 0x08
  const INT24: Byte := 0x09
  const DATE: Byte := 0x0a
  const TIME: Byte := 0x0b
  const DATETIME: Byte := 0x0c
  const YEAR: Byte := 0x0d
  const VARCHAR: Byte := 0x0f
  const VECTOR: Byte := 0xf2
  const JSON: Byte := 0xf5
  const NEWDECIMAL: Byte := 0xf6
  const ENUM: Byte := 0xf7
  const SET: Byte := 0xf8
  const TINY_BLOB: Byte := 0xf9
  const MEDIUM_BLOB: Byte := 0xfa
  const LONG_BLOB: Byte := 0xfb
  const BLOB: Byte := 0xfc
  const VAR_STRING: Byte := 0xfd
  const STRING: Byte := 0xfe

  const STMT_EXECUTE: Byte := 0x17
  const PARAMETER_COUNT_AVAILABLE: Byte := 8

  /** IEEE numbers, kept as the bytes the buffer writers give. */
  type Double = d: Buffer | |d| == 8 witness [0, 0, 0, 0, 0, 0, 0, 0]
  type Float = f: Buffer | |f| == 4 witness [0, 0, 0, 0]

  /** Encoded text or binary data, of a length that a buffer can have. */
  type Data = d: Buffer | |d| < TWO53

  /** The fields of a Date in the connection's time zone. */
  datatype DateParts = DateParts(year: int, month: Byte, day: Byte, hour: Byte, minute: Byte, second: Byte,
                                 milliseconds: nat)

  // ---------------------------------------------------------------- what a parameter is sent as

  /** A value with its writer. */
  datatype Content =
    | Nothing0
    | UIntLE(n: nat, bytes: nat)
    | DoubleLE(double: Double)
    | FloatLE(float: Float)
    | DateContent(date: DateParts)
    | TimeContent(time: TimeParts)
    | LengthCodedBuffer(data: Data)

  datatype Parameter = Parameter(columnType: Byte, unsigned: bool, isNull: bool, length: nat, content: Content)

  /** Whether the writer takes the value without throwing. */
  predicate CanWrite(c: Content) {
    match c
    case UIntLE(n, bytes) => n < Pow256(bytes)
    case DateContent(d) => 0 <= d.year < TWO16 && d.milliseconds < 1000
    case TimeContent(t) => Writable(t)
    case _ => true
  }

  function DateBytes(d: DateParts): (b: Buffer)
    requires CanWrite(DateContent(d))
    ensures |b| == 12
  {
    [11] + Le(d.year, 2) + [d.month, d.day, d.hour, d.minute, d.second] + Le(d.milliseconds * 1000, 4)
  }

  function ContentBytes(c: Content): Buffer
    requires CanWrite(c)
  {
    match c
    case Nothing0 => []
    case UIntLE(n, bytes) => Le(n, bytes)
    case DoubleLE(d) => d
    case FloatLE(f) => f
    case DateContent(d) => DateBytes(d)
    case TimeContent(t) => TimeBytes(t)
    case LengthCodedBuffer(d) => LcBytes(|d|) + d
  }

  // ---------------------------------------------------------------- choosing it

  datatype Failure = TypeError | RangeError

  datatype Outcome<+T> = Done(value: T) | Thrown(failure: Failure)

  /** The value of a typed parameter, already converted to what its type takes. */
  datatype Payload =
    | NullPayload
    | IntegerPayload(n: int)
    | DoublePayload(double: Double)
    | FloatPayload(float: Float)
    | DatePayload(date: DateParts)
    | TimePayload(time: TimeParts)
    | TextPayload(data: Data)

  datatype TypedParameter = TypedParameter(columnType: Byte, value: Payload, unsigned: bool)

  /** A bound value. A number carries its integer when it is a safe one; a big integer its
      decimal text; text, buffers and JSON their bytes. */
  datatype Value =
    | Undefined
    | Null
    | Number(double: Double, integer: Maybe<int>)
    | Boolean(b: bool)
    | BigInt(n: int, text: Data)
    | Date(date: DateParts)
    | Json(text: Data)
    | Blob(data: Data)
    | Text(data: Data)
    | Typed(parameter: TypedParameter)

  /** What the server said about a placeholder. */
  datatype Hint = Hint(columnType: Byte, unsigned: bool)

  /** `INTEGER_BYTES`. */
  function IntegerBytes(t: Byte): nat {
    if t == TINY then 1
    else if t == SHORT || t == YEAR then 2
    else if t == INT24 || t == LONG then 4
    else if t == LONGLONG then 8
    else 0
  }

  predicate HintUpgradable(t: Byte) {
    t == TINY || t == SHORT || t == LONG || t == LONGLONG
  }

  predicate InIntegerRange(n: int, bytes: nat, unsigned: bool)
    requires bytes > 0
  {
    if unsigned then 0 <= n < Pow256(bytes) else -(Pow256(bytes) / 2) <= n < Pow256(bytes) / 2
  }

  /** `BigInt.asUintN`: two's complement. */
  function AsUint(n: int, bytes: nat): (u: nat)
    ensures u < Pow256(bytes)
  {
    n % Pow256(bytes)
  }

  function WireType(t: Byte, jsonAsString: bool): Byte {
    if t == JSON && jsonAsString then VAR_STRING
    else if t == INT24 then LONG
    else if t == YEAR then SHORT
    else if t == ENUM || t == SET then STRING
    else if t == VECTOR then BLOB
    else t
  }

  predicate IsTemporal(t: Byte) {
    t == DATE || t == DATETIME || t == TIMESTAMP
  }

  predicate IsLengthCoded(t: Byte) {
    t in {DECIMAL, NEWDECIMAL, VARCHAR, VAR_STRING, STRING, ENUM, SET, JSON, VECTOR, TINY_BLOB, MEDIUM_BLOB, LONG_BLOB,
          BLOB}
  }

  /** The payload is what the encoder of the type makes of the value. */
  predicate Converted(p: TypedParameter) {
    match p.value
    case NullPayload => true
    case IntegerPayload(_) => IntegerBytes(p.columnType) > 0
    case DoublePayload(_) => p.columnType == DOUBLE
    case FloatPayload(_) => p.columnType == FLOAT
    case DatePayload(_) => IsTemporal(p.columnType)
    case TimePayload(_) => p.columnType == TIME
    case TextPayload(_) =>
      IntegerBytes(p.columnType) == 0 && p.columnType !in {DOUBLE, FLOAT, TIME} && !IsTemporal(p.columnType)
  }

  function LcSize(d: Data): nat {
    LcLength(|d|) + |d|
  }

  /** `encodeTypedParameter`. */
  function EncodeTyped(p: TypedParameter, jsonAsString: bool): Outcome<Parameter>
    requires Converted(p)
  {
    var t := WireType(p.columnType, jsonAsString);
    if p.columnType == NULL then Done(Parameter(t, p.unsigned, true, 0, Nothing0))
    else match p.value
      case NullPayload => Done(Parameter(t, p.unsigned, true, 0, Nothing0))
      case IntegerPayload(n) =>
        var bytes := IntegerBytes(p.columnType);
        if !InIntegerRange(n, bytes, p.unsigned) then Thrown(RangeError)
        else Done(Parameter(t, p.unsigned, false, bytes, UIntLE(AsUint(n, bytes), bytes)))
      case DoublePayload(d) => Done(Parameter(t, p.unsigned, false, 8, DoubleLE(d)))
      case FloatPayload(f) => Done(Parameter(t, p.unsigned, false, 4, FloatLE(f)))
      case DatePayload(d) => Done(Parameter(t, p.unsigned, false, 12, DateContent(d)))
      case TimePayload(time) => Done(Parameter(t, p.unsigned, false, TimeLength(time), TimeContent(time)))
      case TextPayload(d) =>
        if IsLengthCoded(p.columnType) then Done(Parameter(t, p.unsigned, false, LcSize(d), LengthCodedBuffer(d)))
        else Thrown(TypeError)
  }

  /** `integerHint`: a value that is an integer in the range of an integer placeholder takes its type. */
  function IntegerHint(v: Value, h: Hint): Maybe<TypedParameter> {
    var n := match v
      case BigInt(n, _) => Just(n)
      case Boolean(b) => Just(if b then 1 else 0)
      case Number(_, integer) => integer
      case _ => Nothing;
    if !HintUpgradable(h.columnType) || n.Nothing?
      || !InIntegerRange(n.value, IntegerBytes(h.columnType), h.unsigned) then Nothing
    else Just(TypedParameter(h.columnType, IntegerPayload(n.value), h.unsigned))
  }

  /** `toParameter`. */
  function ToParameter(v: Value, jsonAsString: bool, hint: Maybe<Hint>): Outcome<Parameter>
    requires v.Typed? ==> Converted(v.parameter)
  {
    if v.Typed? then EncodeTyped(v.parameter, jsonAsString)
    else if hint.Just? && IntegerHint(v, hint.value).Just? then
      EncodeTyped(IntegerHint(v, hint.value).value, jsonAsString)
    else match v
      case Undefined => Thrown(TypeError)
      case Null => Done(Parameter(NULL, false, true, 0, Nothing0))
      case Number(double, _) => Done(Parameter(DOUBLE, false, false, 8, DoubleLE(double)))
      case Boolean(b) => Done(Parameter(TINY, false, false, 1, UIntLE(if b then 1 else 0, 1)))
      case Date(d) => Done(Parameter(DATETIME, false, false, 12, DateContent(d)))
      case Json(text) =>
        var columnType := if jsonAsString then VAR_STRING else JSON;
        Done(Parameter(columnType, false, false, LcSize(text), LengthCodedBuffer(text)))
      case Blob(d) => Done(Parameter(BLOB, false, false, LcSize(d), LengthCodedBuffer(d)))
      case Text(d) => Done(Parameter(VAR_STRING, false, false, LcSize(d), LengthCodedBuffer(d)))
      case BigInt(_, text) => Done(Parameter(VAR_STRING, false, false, LcSize(text), LengthCodedBuffer(text)))
  }

  // ---------------------------------------------------------------- the packet

  datatype Execute = Execute(
    id: nat,
    parameters: seq<Value>, attributes: seq<(Data, Value)>,
    queryAttributes: bool, jsonAsString: bool,
    definitions: seq<Maybe<Hint>>)

  /** What the caller gives: a statement id of 32 bits, typed values of their types, and no more values
      than an array can hold. */
  predicate Valid(e: Execute) {
    && e.id < TWO32 && |e.parameters| + |e.attributes| < TWO32
    && (forall v :: v in e.parameters ==> v.Typed? ==> Converted(v.parameter))
    && (forall a :: a in e.attributes ==> a.1.Typed? ==> Converted(a.1.parameter))
  }

  function Total(e: Execute): nat {
    |e.parameters| + if e.queryAttributes then |e.attributes| else 0
  }

  function ValueAt(e: Execute, i: nat): Value
    requires i < Total(e)
  {
    if i < |e.parameters| then e.parameters[i] else e.attributes[i - |e.parameters|].1
  }

  /** Attributes are never sent as strings for MariaDB, and have no hints. */
  function JsonAsString(e: Execute, i: nat): bool {
    i < |e.parameters| && e.jsonAsString
  }

  function HintAt(e: Execute, i: nat): Maybe<Hint> {
    if i < |e.parameters| && i < |e.definitions| then e.definitions[i] else Nothing
  }

  /** Bind parameters have an empty name. */
  function NameAt(e: Execute, i: nat): Data
    requires i < Total(e)
  {
    if i < |e.parameters| then [] else e.attributes[i - |e.parameters|].0
  }

  function ParameterAt(e: Execute, i: nat): Outcome<Parameter>
    requires Valid(e) && i < Total(e)
  {
    assert ValueAt(e, i).Typed? ==> Converted(ValueAt(e, i).parameter) by {
      if i < |e.parameters| { assert e.parameters[i] in e.parameters; }
      else { assert e.attributes[i - |e.parameters|] in e.attributes; }
    }
    ToParameter(ValueAt(e, i), JsonAsString(e, i), HintAt(e, i))
  }

  /** The first `n` parameters, or the first failure. */
  function Gathered(e: Execute, n: nat): (r: Outcome<seq<Parameter>>)
    requires Valid(e) && n <= Total(e)
    ensures r.Done? ==> |r.value| == n && forall i :: 0 <= i < n ==> ParameterAt(e, i) == Done(r.value[i])
  {
    if n == 0 then Done([])
    else
      var before := Gathered(e, n - 1);
      if before.Thrown? then before
      else
        var p := ParameterAt(e, n - 1);
        if p.Thrown? then Thrown(p.failure) else Done(before.value + [p.value])
  }

  method Gather(e: Execute) returns (all: Outcome<seq<Parameter>>)
    requires Valid(e)
    ensures all == Gathered(e, Total(e))
  {
    hide ParameterAt;
    var params := [];
    for i := 0 to Total(e)
      invariant Gathered(e, i) == Done(params)
    {
      var p := ParameterAt(e, i);
      if p.Thrown? {
        GatheredFails(e, i + 1, Total(e));
        return Thrown(p.failure);
      }
      params := params + [p.value];
    }
    all := Done(params);
  }

  lemma {:induction false} GatheredFails(e: Execute, n: nat, m: nat)
    requires Valid(e) && n <= m <= Total(e) && Gathered(e, n).Thrown?
    ensures Gathered(e, m) == Gathered(e, n)
    decreases m
  {
    hide ParameterAt;
    if n < m {
      GatheredFails(e, n, m - 1);
    }
  }

  /** A parameter's length is that of what its writer writes; a null one writes nothing. */
  predicate Sized(p: Parameter) {
    if p.isNull then p.content == Nothing0 else CanWrite(p.content) ==> |ContentBytes(p.content)| == p.length
  }

  lemma AllSized(e: Execute, i: nat)
    requires Valid(e) && i < Total(e) && ParameterAt(e, i).Done?
    ensures Sized(ParameterAt(e, i).value)
  {
    hide Le, LcBytes, TimeBytes, Pow256, InIntegerRange, WireType, AsUint, LcLength;
  }

  // ---------------------------------------------------------------- sizes

  function NameSizes(e: Execute, k: nat): nat
    requires k <= |e.attributes|
  {
    if k == 0 then 0 else NameSizes(e, k - 1) + LcSize(e.attributes[k - 1].0)
  }

  function ValueSizes(params: seq<Parameter>): nat {
    if params == [] then 0
    else ValueSizes(params[..|params| - 1]) + if params[|params| - 1].isNull then 0 else params[|params| - 1].length
  }

  /** The size pass, with the four bytes of the header. */
  function PacketLength(e: Execute, params: seq<Parameter>): nat {
    14 + (if e.queryAttributes then LcLength(Total(e)) else 0) +
    if Total(e) == 0 then 0
    else
      (Total(e) + 7) / 8 + 1 + Total(e) * 2 +
      (if e.queryAttributes then |e.parameters| + NameSizes(e, |e.attributes|) else 0) + ValueSizes(params)
  }

  method Size(e: Execute, params: seq<Parameter>) returns (length: nat)
    requires |params| == Total(e)
    ensures length == PacketLength(e, params)
  {
    hide LcLength, LcSize;
    length := 14;
    if e.queryAttributes {
      length := length + LcLength(Total(e));
    }
    if Total(e) > 0 {
      length := length + ((Total(e) + 7) / 8 + 1 + Total(e) * 2);
      if e.queryAttributes {
        length := length + |e.parameters|;
        ghost var base := length;
        for i := 0 to |e.attributes|
          invariant length == base + NameSizes(e, i)
        {
          length := length + LcSize(e.attributes[i].0);
        }
      }
      ghost var base := length;
      for i := 0 to Total(e)
        invariant length == base + ValueSizes(params[..i])
      {
        assert params[..i + 1][..i] == params[..i];
        if !params[i].isNull {
          length := length + params[i].length;
        }
      }
      assert params[..Total(e)] == params;
    }
  }

  // ---------------------------------------------------------------- bytes

  /** The bits of up to eight flags. */
  function PackedBits(flags: seq<bool>): nat {
    if flags == [] then 0
    else PackedBits(flags[..|flags| - 1]) + if flags[|flags| - 1] then Pow2(|flags| - 1) else 0
  }

  lemma {:induction false} PackedBitsBound(flags: seq<bool>)
    ensures PackedBits(flags) < Pow2(|flags|)
  {
    if flags != [] {
      PackedBitsBound(flags[..|flags| - 1]);
    }
  }

  lemma EightBits(flags: seq<bool>)
    requires |flags| <= 8
    ensures PackedBits(flags) < 0x100
  {
    PackedBitsBound(flags);
    Pow2Monotone(|flags|, 8);
    Pow2Eight();
  }

  lemma Pow2Eight()
    ensures Pow2(8) == 256
  {
    assert Pow2(2) == 2 * Pow2(1) && Pow2(4) == 2 * Pow2(3) && Pow2(6) == 2 * Pow2(5) && Pow2(8) == 2 * Pow2(7);
  }

  lemma {:induction false} Pow2Monotone(j: nat, k: nat)
    requires j <= k
    ensures Pow2(j) <= Pow2(k) && (j < k ==> Pow2(j) < Pow2(k))
    decreases k
  {
    if j < k {
      Pow2Monotone(j, k - 1);
    }
  }

  function NullFlags(params: seq<Parameter>): (flags: seq<bool>)
    ensures |flags| == |params| && forall i :: 0 <= i < |params| ==> flags[i] == params[i].isNull
  {
    seq(|params|, i requires 0 <= i < |params| => params[i].isNull)
  }

  /** The first `k` bytes of the null bitmap. */
  function BitmapBytes(flags: seq<bool>, k: nat): (b: Buffer)
    requires 8 * k <= |flags| + 7
    ensures |b| == k
  {
    if k == 0 then []
    else
      var byte := flags[8 * (k - 1)..if 8 * k <= |flags| then 8 * k else |flags|];
      EightBits(byte);
      BitmapBytes(flags, k - 1) + [PackedBits(byte)]
  }

  function Bitmap(params: seq<Parameter>): (b: Buffer)
    ensures |b| == (|params| + 7) / 8
  {
    BitmapBytes(NullFlags(params), (|params| + 7) / 8)
  }

  method WriteBitmap(packet: Packet, params: seq<Parameter>)
    requires packet.Valid() && packet.offset + (|params| + 7) / 8 <= packet.buffer.Length
    modifies packet, packet.buffer
    ensures packet.Valid() && packet.Written() == old(packet.Written()) + Bitmap(params)
  {
    hide Pow2, Packet.Written, PackedBits, BitmapBytes, NullFlags;
    var flags := NullFlags(params);
    var bitmap: nat, bitValue: nat := 0, 1;
    StartByte(flags, 0);
    assert packet.Written() + BitmapBytes(flags, 0) == packet.Written() by { EmptyBitmap(flags); }
    for i := 0 to |params|
      invariant packet.Valid() && packet.offset == old(packet.offset) + i / 8
      invariant packet.Written() == old(packet.Written()) + BitmapBytes(flags, i / 8)
      invariant bitmap == PackedBits(flags[8 * (i / 8)..i]) && bitValue == Pow2(i % 8)
    {
      NextBit(flags, i);
      if params[i].isNull {
        bitmap := bitmap + bitValue;
      }
      bitValue := bitValue * 2;
      if bitValue == 256 {
        NextByte(old(packet.Written()), flags, i / 8 + 1);
        StartByte(flags, i + 1);
        packet.WriteInt8(bitmap);
        bitmap := 0;
        bitValue := 1;
      }
    }
    StartByte(flags, |params|);
    if bitValue != 1 {
      var k := |params| / 8;
      NextByte(old(packet.Written()), flags, k + 1);
      packet.WriteInt8(bitmap);
    }
  }

  lemma EmptyBitmap(flags: seq<bool>)
    ensures BitmapBytes(flags, 0) == []
  {
  }

  lemma StartByte(flags: seq<bool>, i: nat)
    requires i <= |flags|
    ensures i % 8 == 0 ==> PackedBits(flags[8 * (i / 8)..i]) == 0
    ensures Pow2(i % 8) == 1 <==> i % 8 == 0
  {
    if i % 8 == 0 {
      assert flags[8 * (i / 8)..i] == [];
    } else {
      Pow2Monotone(0, i % 8);
    }
  }

  lemma NextBit(flags: seq<bool>, i: nat)
    requires i < |flags|
    ensures PackedBits(flags[8 * (i / 8)..i + 1]) ==
            PackedBits(flags[8 * (i / 8)..i]) + if flags[i] then Pow2(i % 8) else 0
    ensures Pow2(i % 8) * 2 == Pow2(i % 8 + 1) && (Pow2(i % 8) * 2 == 256 <==> i % 8 == 7)
    ensures PackedBits(flags[8 * (i / 8)..i + 1]) < 256
  {
    var byte := flags[8 * (i / 8)..i + 1];
    assert byte[..|byte| - 1] == flags[8 * (i / 8)..i];
    Pow2Eight();
    if i % 8 < 7 {
      Pow2Monotone(i % 8 + 1, 8);
    }
    EightBits(byte);
  }

  lemma NextByte(written: Buffer, flags: seq<bool>, k: nat)
    requires 1 <= k && 8 * k <= |flags| + 7
    ensures var byte := flags[8 * (k - 1)..if 8 * k <= |flags| then 8 * k else |flags|];
            && PackedBits(byte) < 256
            && written + BitmapBytes(flags, k) == (written + BitmapBytes(flags, k - 1)) + [PackedBits(byte)]
  {
    EightBits(flags[8 * (k - 1)..if 8 * k <= |flags| then 8 * k else |flags|]);
  }

  function TypeEntry(e: Execute, p: Parameter, i: nat): Buffer
    requires i < Total(e)
  {
    [p.columnType, if p.unsigned then 0x80 else 0] +
    (if e.queryAttributes then LcBytes(|NameAt(e, i)|) + NameAt(e, i) else [])
  }

  function TypeEntries(e: Execute, params: seq<Parameter>): seq<Buffer>
    requires |params| <= Total(e)
  {
    seq(|params|, i requires 0 <= i < |params| => TypeEntry(e, params[i], i))
  }

  predicate AllWritable(params: seq<Parameter>) {
    forall i :: 0 <= i < |params| ==> params[i].isNull || CanWrite(params[i].content)
  }

  function ValueEntry(p: Parameter): Buffer
    requires p.isNull || CanWrite(p.content)
  {
    if p.isNull then [] else ContentBytes(p.content)
  }

  function ValueEntries(params: seq<Parameter>): seq<Buffer>
    requires AllWritable(params)
  {
    seq(|params|, i requires 0 <= i < |params| => ValueEntry(params[i]))
  }

  function Head(e: Execute): (b: Buffer)
    ensures |b| == 10
  {
    [STMT_EXECUTE] + Le(e.id, 4) + [if e.queryAttributes then PARAMETER_COUNT_AVAILABLE else 0] + Le(1, 4)
  }

  function Sections(e: Execute, params: seq<Parameter>): Buffer
    requires |params| == Total(e) && AllWritable(params)
  {
    Bitmap(params) + [1] + Concat(TypeEntries(e, params)) + Concat(ValueEntries(params))
  }

  /** The payload: what is written after the header. */
  function PayloadBytes(e: Execute, params: seq<Parameter>): Buffer
    requires |params| == Total(e) && AllWritable(params)
  {
    Head(e) + (if e.queryAttributes then LcBytes(Total(e)) else []) + if Total(e) > 0 then Sections(e, params) else []
  }

  lemma TypeEntriesSnoc(e: Execute, params: seq<Parameter>, i: nat)
    requires i < |params| <= Total(e)
    ensures Concat(TypeEntries(e, params[..i + 1])) == Concat(TypeEntries(e, params[..i])) + TypeEntry(e, params[i], i)
  {
    hide TypeEntry;
    ConcatSnoc(TypeEntries(e, params[..i]), TypeEntry(e, params[i], i));
    assert TypeEntries(e, params[..i + 1]) == TypeEntries(e, params[..i]) + [TypeEntry(e, params[i], i)];
  }

  lemma ValueEntriesSnoc(params: seq<Parameter>, i: nat)
    requires i < |params| && AllWritable(params[..i + 1])
    ensures AllWritable(params[..i]) && (params[i].isNull || CanWrite(params[i].content))
    ensures Concat(ValueEntries(params[..i + 1])) == Concat(ValueEntries(params[..i])) + ValueEntry(params[i])
  {
    hide ValueEntry;
    assert params[..i + 1][i] == params[i];
    assert forall k :: 0 <= k < i ==> params[..i][k] == params[..i + 1][k];
    ConcatSnoc(ValueEntries(params[..i]), ValueEntry(params[i]));
    assert ValueEntries(params[..i + 1]) == ValueEntries(params[..i]) + [ValueEntry(params[i])];
  }

  // The size pass is right: for every section, and so for the packet.

  lemma {:induction false} TypeSizes(e: Execute, params: seq<Parameter>, i: nat)
    requires i <= |params| == Total(e)
    ensures |Concat(TypeEntries(e, params[..i]))| ==
            2 * i + if !e.queryAttributes then 0
                    else if i <= |e.parameters| then i else |e.parameters| + NameSizes(e, i - |e.parameters|)
  {
    hide Concat, LcBytes;
    if i == 0 {
      assert TypeEntries(e, params[..0]) == [] && |Concat<Byte>([])| == 0 by { NoParts(); }
    } else {
      TypeSizes(e, params, i - 1);
      TypeEntriesSnoc(e, params, i - 1);
    }
  }

  lemma NoParts()
    ensures Concat<Byte>([]) == []
  {
  }

  lemma {:induction false} ValueSizesRight(params: seq<Parameter>, i: nat)
    requires i <= |params| && AllWritable(params) && forall k :: 0 <= k < |params| ==> Sized(params[k])
    ensures AllWritable(params[..i]) && |Concat(ValueEntries(params[..i]))| == ValueSizes(params[..i])
  {
    hide Concat, CanWrite, ContentBytes;
    if i == 0 {
      assert ValueEntries(params[..0]) == [] && |Concat<Byte>([])| == 0 by { NoParts(); }
    } else {
      ValueSizesRight(params, i - 1);
      ValueEntriesSnoc(params, i - 1);
      assert params[..i][..i - 1] == params[..i - 1];
    }
  }

  /** The write pass ends where the size pass said it would. */
  lemma SizedExactly(e: Execute, params: seq<Parameter>)
    requires Valid(e) && Gathered(e, Total(e)) == Done(params) && AllWritable(params)
    ensures |PayloadBytes(e, params)| + 4 == PacketLength(e, params)
  {
    hide Concat, CanWrite, ParameterAt, Sized, Bitmap, LcLength;
    forall k | 0 <= k < |params| ensures Sized(params[k]) {
      AllSized(e, k);
    }
    TypeSizes(e, params, |params|);
    ValueSizesRight(params, |params|);
    assert params[..|params|] == params;
  }

  // ---------------------------------------------------------------- the write pass

  method WriteContent(packet: Packet, c: Content)
    requires packet.Valid() && CanWrite(c) && packet.offset + |ContentBytes(c)| <= packet.buffer.Length
    modifies packet, packet.buffer
    ensures packet.Valid() && packet.Written() == old(packet.Written()) + ContentBytes(c)
  {
    hide Le, LcBytes, Pow256, TimeBytes, Writable, Packet.Written;
    match c {
      case Nothing0 =>
      case UIntLE(n, bytes) => packet.WriteUIntLE(n, bytes);
      case DoubleLE(d) => packet.WriteBuffer(d);
      case FloatLE(f) => packet.WriteBuffer(f);
      case DateContent(d) => WriteDate(packet, d);
      case TimeContent(t) => WriteTime(packet, t);
      case LengthCodedBuffer(d) =>
        packet.WriteLengthCodedBuffer(d);
        assert old(packet.Written()) + LcBytes(|d|) + d == old(packet.Written()) + (LcBytes(|d|) + d);
    }
  }

  method WriteDate(packet: Packet, d: DateParts)
    requires packet.Valid() && CanWrite(DateContent(d)) && packet.offset + 12 <= packet.buffer.Length
    modifies packet, packet.buffer
    ensures packet.Valid() && packet.Written() == old(packet.Written()) + DateBytes(d)
  {
    hide Le, Pow256, Packet.Written;
    Pow256Values();
    ghost var before := packet.Written();
    packet.WriteInt8(11);
    packet.WriteUIntLE(d.year, 2);
    packet.WriteBuffer([d.month, d.day, d.hour, d.minute, d.second]);
    packet.WriteUIntLE(d.milliseconds * 1000, 4);
    var fields := [d.month, d.day, d.hour, d.minute, d.second];
    assert before + [11] + Le(d.year, 2) + fields + Le(d.milliseconds * 1000, 4) ==
           before + ([11] + Le(d.year, 2) + fields + Le(d.milliseconds * 1000, 4));
  }

  method WriteTypes(packet: Packet, e: Execute, params: seq<Parameter>)
    requires |params| == Total(e)
    requires packet.Valid() && packet.offset + |Concat(TypeEntries(e, params))| <= packet.buffer.Length
    modifies packet, packet.buffer
    ensures packet.Valid() && packet.Written() == old(packet.Written()) + Concat(TypeEntries(e, params))
  {
    hide Concat, LcBytes, Packet.Written;
    ghost var before := packet.Written();
    assert TypeEntries(e, params[..0]) == [];
    NoParts();
    assert before + [] == before;
    for i := 0 to |params|
      invariant packet.Valid() && packet.Written() == before + Concat(TypeEntries(e, params[..i]))
    {
      TypeEntriesSnoc(e, params, i);
      TypesPrefix(e, params, i + 1);
      WriteTypeEntry(packet, e, params[i], i);
      assert before + Concat(TypeEntries(e, params[..i])) + TypeEntry(e, params[i], i) ==
             before + (Concat(TypeEntries(e, params[..i])) + TypeEntry(e, params[i], i));
    }
    assert params[..|params|] == params;
  }

  lemma TypesPrefix(e: Execute, params: seq<Parameter>, i: nat)
    requires i <= |params| == Total(e)
    ensures |Concat(TypeEntries(e, params[..i]))| <= |Concat(TypeEntries(e, params))|
  {
    hide TypeEntry;
    ConcatAppend(TypeEntries(e, params)[..i], TypeEntries(e, params)[i..]);
    assert TypeEntries(e, params)[..i] == TypeEntries(e, params[..i]);
    assert TypeEntries(e, params)[..i] + TypeEntries(e, params)[i..] == TypeEntries(e, params);
  }

  method WriteTypeEntry(packet: Packet, e: Execute, p: Parameter, i: nat)
    requires i < Total(e)
    requires packet.Valid() && packet.offset + |TypeEntry(e, p, i)| <= packet.buffer.Length
    modifies packet, packet.buffer
    ensures packet.Valid() && packet.Written() == old(packet.Written()) + TypeEntry(e, p, i)
  {
    hide Packet.Written, LcBytes;
    ghost var before := packet.Written();
    var unsigned: Byte := if p.unsigned then 0x80 else 0;
    packet.WriteInt8(p.columnType);
    packet.WriteInt8(unsigned);
    if e.queryAttributes {
      WriteName(packet, e, i);
      assert before + [p.columnType] + [unsigned] + (LcBytes(|NameAt(e, i)|) + NameAt(e, i)) ==
             before + ([p.columnType, unsigned] + (LcBytes(|NameAt(e, i)|) + NameAt(e, i)));
    } else {
      assert before + [p.columnType] + [unsigned] == before + ([p.columnType, unsigned] + []);
    }
  }

  method WriteName(packet: Packet, e: Execute, i: nat)
    requires i < Total(e)
    requires packet.Valid() && packet.offset + LcLength(|NameAt(e, i)|) + |NameAt(e, i)| <= packet.buffer.Length
    modifies packet, packet.buffer
    ensures packet.Valid() && packet.Written() == old(packet.Written()) + (LcBytes(|NameAt(e, i)|) + NameAt(e, i))
  {
    hide Packet.Written;
    if i < |e.parameters| {
      packet.WriteInt8(0);
      assert LcBytes(0) + [] == [0];
    } else {
      var name := NameAt(e, i);
      packet.WriteLengthCodedBuffer(name);
      assert old(packet.Written()) + LcBytes(|name|) + name == old(packet.Written()) + (LcBytes(|name|) + name);
    }
  }

  /** Writes the values up to one that its writer refuses. */
  method WriteValues(packet: Packet, params: seq<Parameter>) returns (ok: bool)
    requires packet.Valid() && forall k :: 0 <= k < |params| ==> Sized(params[k])
    requires packet.offset + ValueSizes(params) <= packet.buffer.Length
    modifies packet, packet.buffer
    ensures ok <==> AllWritable(params)
    ensures ok ==> packet.Valid() && packet.Written() == old(packet.Written()) + Concat(ValueEntries(params))
  {
    hide Concat, CanWrite, ContentBytes, Packet.Written;
    ghost var before := packet.Written();
    assert ValueEntries(params[..0]) == [];
    NoParts();
    assert before + [] == before;
    for i := 0 to |params|
      invariant packet.Valid() && packet.offset == old(packet.offset) + ValueSizes(params[..i])
      invariant AllWritable(params[..i])
      invariant packet.Written() == before + Concat(ValueEntries(params[..i]))
    {
      assert params[..i + 1][..i] == params[..i];
      ValueSizesGrow(params, i + 1, |params|);
      assert params[..|params|] == params;
      if !params[i].isNull {
        if !CanWrite(params[i].content) {
          return false;
        }
        WriteContent(packet, params[i].content);
      }
      WritableSnoc(params, i);
      ValueEntriesSnoc(params, i);
      assert before + Concat(ValueEntries(params[..i])) + ValueEntry(params[i]) ==
             before + (Concat(ValueEntries(params[..i])) + ValueEntry(params[i]));
      if params[i].isNull {
        assert before + Concat(ValueEntries(params[..i])) + [] == before + Concat(ValueEntries(params[..i]));
      }
    }
    assert params[..|params|] == params;
    ok := true;
  }

  lemma WritableSnoc(params: seq<Parameter>, i: nat)
    requires i < |params| && AllWritable(params[..i]) && (params[i].isNull || CanWrite(params[i].content))
    ensures AllWritable(params[..i + 1])
  {
    hide CanWrite;
    assert forall k :: 0 <= k < i ==> params[..i + 1][k] == params[..i][k];
  }

  lemma {:induction false} ValueSizesGrow(params: seq<Parameter>, i: nat, j: nat)
    requires i <= j <= |params|
    ensures ValueSizes(params[..i]) <= ValueSizes(params[..j])
    decreases j
  {
    if i < j {
      ValueSizesGrow(params, i, j - 1);
      assert params[..j][..j - 1] == params[..j - 1];
    }
  }

  /** `toPacket`. The last line of the original throws when the sizes disagree: they never do. */
  method ToPacket(e: Execute) returns (packet: Outcome<Packet>)
    requires Valid(e)
    ensures packet.Done? <==> Sendable(e)
    ensures packet.Done? ==> packet.value.Valid() && fresh(packet.value) && fresh(packet.value.buffer)
    ensures packet.Done? ==> packet.value.offset == packet.value.buffer.Length
    ensures packet.Done? ==>
              && Gathered(e, Total(e)).Done? && AllWritable(Gathered(e, Total(e)).value)
              && packet.value.Written() == PayloadBytes(e, Gathered(e, Total(e)).value)
    ensures packet.Done? ==>
              var r := Decode(packet.value.Written(), |e.parameters|, e.queryAttributes);
              r.Just? && r.value.id == e.id && AllSent(e, r.value.bound)
    ensures Gathered(e, Total(e)).Thrown? ==> packet.Thrown? && packet.failure == Gathered(e, Total(e)).failure
  {
    hide ParameterAt, LcLength, LcBytes, Le, Packet.Written, AllWritable, Sections, Sized, ValueSizes, Pow256, Sendable,
      Decode, AllSent;
    SendableExactly(e);
    var all := Gather(e);
    if all.Thrown? {
      return Thrown(all.failure);
    }
    var params := all.value;
    var length := Size(e, params);
    forall k | 0 <= k < |params| ensures Sized(params[k]) {
      AllSized(e, k);
    }
    var out := new Packet(length);
    ghost var nothing := out.Written();
    WriteHead(out, e);
    assert [] + Head(e) == Head(e);
    if e.queryAttributes {
      out.WriteLengthCodedNumber(Total(e));
    } else {
      assert Head(e) + [] == Head(e);
    }
    ghost var start := Head(e) + (if e.queryAttributes then LcBytes(Total(e)) else []);
    if Total(e) > 0 {
      TypeSizes(e, params, |params|);
      assert params[..|params|] == params;
      var ok := WriteSections(out, e, params);
      if !ok {
        return Thrown(RangeError);
      }
    } else {
      assert start + [] == start;
      assert AllWritable(params) by { NothingToWrite(params); }
    }
    assert out.Written() == PayloadBytes(e, params);
    SizedExactly(e, params);
    ExecuteRoundTrip(e, params);
    assert out.offset == length;
    packet := Done(out);
  }

  lemma NothingToWrite(params: seq<Parameter>)
    requires params == []
    ensures AllWritable(params)
  {
  }

  method WriteHead(packet: Packet, e: Execute)
    requires Valid(e) && packet.Valid() && packet.offset + 10 <= packet.buffer.Length
    modifies packet, packet.buffer
    ensures packet.Valid() && packet.Written() == old(packet.Written()) + Head(e)
  {
    hide Le, Pow256, Packet.Written;
    Pow256Values();
    ghost var before := packet.Written();
    packet.WriteInt8(STMT_EXECUTE);
    packet.WriteUIntLE(e.id, 4);
    var cursorFlags: Byte := if e.queryAttributes then PARAMETER_COUNT_AVAILABLE else 0;
    packet.WriteInt8(cursorFlags);
    packet.WriteUIntLE(1, 4);
    assert before + [STMT_EXECUTE] + Le(e.id, 4) + [cursorFlags] + Le(1, 4) ==
           before + ([STMT_EXECUTE] + Le(e.id, 4) + [cursorFlags] + Le(1, 4));
  }

  method WriteSections(packet: Packet, e: Execute, params: seq<Parameter>) returns (ok: bool)
    requires |params| == Total(e) && forall k :: 0 <= k < |params| ==> Sized(params[k])
    requires packet.Valid()
    requires packet.offset + (|params| + 7) / 8 + 1 + |Concat(TypeEntries(e, params))| + ValueSizes(params) <=
             packet.buffer.Length
    modifies packet, packet.buffer
    ensures ok <==> AllWritable(params)
    ensures ok ==> packet.Valid() && packet.Written() == old(packet.Written()) + Sections(e, params)
  {
    hide Packet.Written, AllWritable, Sized, ValueSizes, Concat, Bitmap, TypeEntries, ValueEntries;
    ghost var before := packet.Written();
    WriteBitmap(packet, params);
    packet.WriteInt8(1);
    WriteTypes(packet, e, params);
    ok := WriteValues(packet, params);
    if ok {
      assert before + Bitmap(params) + [1] + Concat(TypeEntries(e, params)) + Concat(ValueEntries(params)) ==
             before + (Bitmap(params) + [1] + Concat(TypeEntries(e, params)) + Concat(ValueEntries(params)));
    }
  }

  // ---------------------------------------------------------------- what the server must be told
  // The numbers of the protocol page "Column Types" once more: nothing here goes through the choices above.

  /** A declared type and flag, and the value. */
  datatype Sent = Sent(columnType: Byte, unsigned: bool, value: Wire)

  predicate Within(n: int, unsigned: bool, half: nat) {
    if unsigned then 0 <= n < 2 * half else 0 <= n + half < 2 * half
  }

  /** The integers of TINY, SHORT and YEAR, LONG and INT24, and LONGLONG columns. */
  predicate InType(t: Byte, unsigned: bool, n: int) {
    || (t == 0x01 && Within(n, unsigned, 0x80))
    || ((t == 0x02 || t == 0x0d) && Within(n, unsigned, 0x8000))
    || ((t == 0x03 || t == 0x09) && Within(n, unsigned, 0x8000_0000))
    || (t == 0x08 && Within(n, unsigned, 0x8000_0000_0000_0000))
  }

  /** An untyped integer is sent as the placeholder's type if that is TINY, SHORT, LONG or LONGLONG and holds it. */
  predicate Adopts(hint: Maybe<Hint>, n: int) {
    && hint.Just? && hint.value.columnType in {0x01, 0x02, 0x03, 0x08}
    && InType(hint.value.columnType, hint.value.unsigned, n)
  }

  function SentInteger(n: int, hint: Maybe<Hint>, otherwise: Sent): Sent {
    if Adopts(hint, n) then Sent(hint.value.columnType, hint.value.unsigned, WireInteger(n)) else otherwise
  }

  function DateMeant(d: DateParts): Wire {
    WireDate(d.year, d.month, d.day, d.hour, d.minute, d.second, d.milliseconds * 1000)
  }

  /** Zero has no sign. */
  function TimeMeant(t: TimeParts): Wire {
    var zero := t.days == 0 && t.hours == 0 && t.minutes == 0 && t.seconds == 0 && t.microseconds == 0;
    WireTime(t.negative && !zero, t.days, t.hours, t.minutes, t.seconds, t.microseconds)
  }

  /** INT24, YEAR, ENUM, SET and VECTOR cannot be bound, nor JSON on MariaDB. */
  function BindType(t: Byte, jsonAsString: bool): Byte {
    if t == 0x09 then 0x03
    else if t == 0x0d then 0x02
    else if t == 0xf7 || t == 0xf8 then 0xfe
    else if t == 0xf2 then 0xfc
    else if t == 0xf5 && jsonAsString then 0xfd
    else t
  }

  function TextMeant(t: Byte, jsonAsString: bool, data: Data): Maybe<Wire> {
    if t in {0x0f, 0xf7, 0xf8, 0xfd, 0xfe} || (t == 0xf5 && jsonAsString) then Just(WireText(data))
    else if t in {0xf2, 0xf9, 0xfa, 0xfb, 0xfc} then Just(WireBinary(data))
    else if t in {0x00, 0xf6} then Just(WireDecimal(data))
    else if t == 0xf5 then Just(WireJson(data))
    else Nothing
  }

  function TypedMeant(p: TypedParameter, jsonAsString: bool): Maybe<Wire> {
    if p.columnType == 0x06 then Just(WireNull)
    else match p.value
      case NullPayload => Just(WireNull)
      case IntegerPayload(n) => if InType(p.columnType, p.unsigned, n) then Just(WireInteger(n)) else Nothing
      case DoublePayload(d) => Just(WireDouble(d))
      case FloatPayload(f) => Just(WireFloat(f))
      case DatePayload(d) => Just(DateMeant(d))
      case TimePayload(t) => Just(TimeMeant(t))
      case TextPayload(d) => TextMeant(p.columnType, jsonAsString, d)
  }

  /** What a bound value must be sent as; nothing for one that cannot be bound. */
  function Meant(v: Value, jsonAsString: bool, hint: Maybe<Hint>): Maybe<Sent> {
    match v
    case Undefined => Nothing
    case Null => Just(Sent(0x06, false, WireNull))
    case Number(double, integer) =>
      var otherwise := Sent(0x05, false, WireDouble(double));
      Just(if integer.Just? then SentInteger(integer.value, hint, otherwise) else otherwise)
    case Boolean(b) =>
      var n := if b then 1 else 0;
      Just(SentInteger(n, hint, Sent(0x01, false, WireInteger(n))))
    case BigInt(n, text) => Just(SentInteger(n, hint, Sent(0xfd, false, WireText(text))))
    case Date(d) => Just(Sent(0x0c, false, DateMeant(d)))
    case Json(text) => Just(if jsonAsString then Sent(0xfd, false, WireText(text))
                            else Sent(0xf5, false, WireJson(text)))
    case Blob(data) => Just(Sent(0xfc, false, WireBinary(data)))
    case Text(data) => Just(Sent(0xfd, false, WireText(data)))
    case Typed(p) =>
      var value := TypedMeant(p, jsonAsString);
      if value.Nothing? then Nothing
      else Just(Sent(BindType(p.columnType, jsonAsString), p.unsigned, value.value))
  }

  /** The integers of the binary protocol hold the fields. */
  predicate Representable(w: Wire) {
    match w
    case WireDate(year, _, _, _, _, _, microseconds) => 0 <= year <= 0xffff && 0 <= microseconds < 1_000_000
    case WireTime(_, days, hours, minutes, seconds, microseconds) =>
      && 0 <= days <= 0xffff_ffff && 0 <= hours <= 0xff && 0 <= minutes <= 0xff && 0 <= seconds <= 0xff
      && 0 <= microseconds <= 0xffff_ffff
    case _ => true
  }

  predicate CanSend(v: Value, jsonAsString: bool, hint: Maybe<Hint>) {
    Meant(v, jsonAsString, hint).Just? && Representable(Meant(v, jsonAsString, hint).value.value)
  }

  /** Every value can be sent: attributes are sent when the server knows them, JSON of theirs as JSON, and without
      hints. */
  predicate Sendable(e: Execute) {
    && (forall i :: 0 <= i < |e.parameters| ==>
          CanSend(e.parameters[i], e.jsonAsString, if i < |e.definitions| then e.definitions[i] else Nothing))
    && (e.queryAttributes ==> forall j :: 0 <= j < |e.attributes| ==> CanSend(e.attributes[j].1, false, Nothing))
  }

  predicate IsSent(bound: Bound, name: Buffer, v: Value, jsonAsString: bool, hint: Maybe<Hint>) {
    && Meant(v, jsonAsString, hint) == Just(Sent(bound.declared.columnType, bound.declared.unsigned, bound.value))
    && bound.declared.name == name
  }

  /** The server has the parameters, without names, and then the attributes with theirs. */
  predicate AllSent(e: Execute, bound: seq<Bound>) {
    var n := |e.parameters|;
    && |bound| == n + (if e.queryAttributes then |e.attributes| else 0)
    && (forall i :: 0 <= i < n ==>
          IsSent(bound[i], [], e.parameters[i], e.jsonAsString,
                 if i < |e.definitions| then e.definitions[i] else Nothing))
    && (e.queryAttributes ==>
          forall j :: 0 <= j < |e.attributes| ==>
            IsSent(bound[n + j], e.attributes[j].0, e.attributes[j].1, false, Nothing))
  }

  // ---------------------------------------------------------------- the choices send what is meant

  predicate TypeFits(t: Byte, c: Content) {
    match c
    case Nothing0 => false
    case UIntLE(_, k) => k > 0 && IntegerWidth(t) == k
    case DoubleLE(_) => t == 0x05
    case FloatLE(_) => t == 0x04
    case DateContent(_) => t == 0x07 || t == 0x0a || t == 0x0c
    case TimeContent(_) => t == 0x0b
    case LengthCodedBuffer(d) => Denoted(t, d).Just?
  }

  function WireOf(t: Byte, c: Content, unsigned: bool): Wire
    requires TypeFits(t, c)
  {
    match c
    case UIntLE(n, k) => WireInteger(FromUint(n, k, unsigned))
    case DoubleLE(d) => WireDouble(d)
    case FloatLE(f) => WireFloat(f)
    case DateContent(d) => DateMeant(d)
    case TimeContent(time) => TimeMeant(time)
    case LengthCodedBuffer(d) => Denoted(t, d).value
  }

  lemma RangeMeans(t: Byte, unsigned: bool, n: int)
    requires IntegerBytes(t) > 0
    ensures InIntegerRange(n, IntegerBytes(t), unsigned) <==> InType(t, unsigned, n)
  {
    Pow256Values();
    hide Pow256;
  }

  /** Two's complement: an integer in the range of its type survives. */
  lemma UintRoundTrip(n: int, bytes: nat, unsigned: bool)
    requires bytes in {1, 2, 4, 8} && InIntegerRange(n, bytes, unsigned)
    ensures FromUint(AsUint(n, bytes), bytes, unsigned) == n
  {
    Pow256Values();
    hide Pow256;
    var m := Pow256(bytes);
    if n < 0 {
      ModUnique(n, m, -1, n + m);
    } else {
      ModUnique(n, m, 0, n);
    }
  }

  lemma ModUnique(n: int, m: nat, q: int, r: nat)
    requires r < m && n == q * m + r
    ensures n % m == r
  {
    var d := n / m - q;
    assert n == n / m * m + n % m;
    assert d * m == r - n % m;
    assert d >= 1 ==> d * m >= m;
    assert d <= -1 ==> d * m <= -(m as int);
  }

  /** A parameter says what is meant. */
  predicate Says(p: Parameter, m: Sent) {
    && p.columnType == m.columnType && p.unsigned == m.unsigned && (p.isNull <==> m.value.WireNull?)
    && (!p.isNull ==> TypeFits(p.columnType, p.content) && WireOf(p.columnType, p.content, p.unsigned) == m.value)
    && (p.isNull || CanWrite(p.content) <==> Representable(m.value))
  }

  lemma IntegerMeans(p: TypedParameter, jsonAsString: bool)
    requires p.columnType != NULL && p.value.IntegerPayload? && IntegerBytes(p.columnType) > 0
    ensures EncodeTyped(p, jsonAsString).Done? <==> InType(p.columnType, p.unsigned, p.value.n)
    ensures EncodeTyped(p, jsonAsString).Thrown? ==> EncodeTyped(p, jsonAsString).failure == RangeError
    ensures EncodeTyped(p, jsonAsString).Done? ==>
              Says(EncodeTyped(p, jsonAsString).value,
                   Sent(BindType(p.columnType, jsonAsString), p.unsigned, WireInteger(p.value.n)))
  {
    hide Pow256, FromUint, AsUint, InIntegerRange, InType;
    var t, n := p.columnType, p.value.n;
    RangeMeans(t, p.unsigned, n);
    if InIntegerRange(n, IntegerBytes(t), p.unsigned) {
      UintRoundTrip(n, IntegerBytes(t), p.unsigned);
    }
  }

  lemma TypedMeans(p: TypedParameter, jsonAsString: bool)
    requires Converted(p)
    ensures var r, m := EncodeTyped(p, jsonAsString), Meant(Typed(p), jsonAsString, Nothing);
            && (r.Done? <==> m.Just?) && (r.Done? ==> Says(r.value, m.value))
            && (r.Thrown? ==> r.failure == if p.value.IntegerPayload? then RangeError else TypeError)
  {
    hide Pow256, FromUint, AsUint, InIntegerRange, LcLength, InType;
    if p.columnType != NULL && p.value.IntegerPayload? {
      IntegerMeans(p, jsonAsString);
    }
  }

  lemma HintMeans(v: Value, jsonAsString: bool, hint: Maybe<Hint>)
    requires hint.Just? && IntegerHint(v, hint.value).Just?
    ensures var p := IntegerHint(v, hint.value).value;
            Converted(p) && Meant(Typed(p), jsonAsString, Nothing) == Meant(v, jsonAsString, hint)
  {
    hide Pow256, InIntegerRange, InType;
    var p := IntegerHint(v, hint.value).value;
    RangeMeans(p.columnType, p.unsigned, p.value.n);
  }

  lemma NoHintMeans(v: Value, jsonAsString: bool, hint: Maybe<Hint>)
    requires !v.Typed? && (hint.Just? ==> IntegerHint(v, hint.value).Nothing?)
    ensures Meant(v, jsonAsString, hint) == Meant(v, jsonAsString, Nothing)
  {
    hide Pow256, InIntegerRange, InType;
    if hint.Just? && HintUpgradable(hint.value.columnType) {
      var t, unsigned := hint.value.columnType, hint.value.unsigned;
      match v
      case BigInt(n, _) => RangeMeans(t, unsigned, n);
      case Boolean(b) => RangeMeans(t, unsigned, if b then 1 else 0);
      case Number(_, integer) =>
        if integer.Just? {
          RangeMeans(t, unsigned, integer.value);
        }
      case _ =>
    }
  }

  /** The chosen type, flag and writer send what is meant, for exactly the values that can be bound; undefined and
      text of a type without text are refused as such, integers out of their type's range as that. */
  lemma ParameterMeans(v: Value, jsonAsString: bool, hint: Maybe<Hint>)
    requires v.Typed? ==> Converted(v.parameter)
    ensures var r, m := ToParameter(v, jsonAsString, hint), Meant(v, jsonAsString, hint);
            && (r.Done? <==> m.Just?) && (r.Done? ==> Says(r.value, m.value))
            && (r.Thrown? ==>
                  r.failure == if v.Typed? && v.parameter.value.IntegerPayload? then RangeError else TypeError)
  {
    hide Pow256, AsUint, InIntegerRange, InType, EncodeTyped, LcLength, Says, Meant, IntegerHint;
    if v.Typed? {
      TypedMeans(v.parameter, jsonAsString);
      HintsIgnored(v, jsonAsString, hint);
    } else if hint.Just? && IntegerHint(v, hint.value).Just? {
      HintMeans(v, jsonAsString, hint);
      TypedMeans(IntegerHint(v, hint.value).value, jsonAsString);
      HintTaken(v, jsonAsString, hint);
    } else {
      NoHintMeans(v, jsonAsString, hint);
      PlainMeans(v, jsonAsString);
    }
  }

  lemma HintsIgnored(v: Value, jsonAsString: bool, hint: Maybe<Hint>)
    requires v.Typed?
    ensures Meant(v, jsonAsString, hint) == Meant(v, jsonAsString, Nothing)
  {
  }

  lemma HintTaken(v: Value, jsonAsString: bool, hint: Maybe<Hint>)
    requires hint.Just? && IntegerHint(v, hint.value).Just?
    ensures Meant(v, jsonAsString, hint).Just?
  {
    hide Pow256, InIntegerRange, InType;
  }

  lemma PlainMeans(v: Value, jsonAsString: bool)
    requires !v.Typed?
    ensures var r, m := ToParameter(v, jsonAsString, Nothing), Meant(v, jsonAsString, Nothing);
            && (r.Done? <==> m.Just?) && (r.Done? ==> Says(r.value, m.value))
            && (r.Thrown? ==> r.failure == TypeError)
  {
    hide LcLength;
    Pow256Values();
    hide Pow256;
  }

  // ---------------------------------------------------------------- reading what was written

  lemma DateDecodes(b: Buffer, offset: nat, d: DateParts)
    requires CanWrite(DateContent(d)) && Holds(b, offset, DateBytes(d))
    ensures DecodeDate(b, offset) == Just((DateMeant(d), offset + 12))
  {
    hide Le, FromLe, Pow256, Holds;
    Pow256Values();
    var bytes := DateBytes(d);
    LeRoundTrip(d.year, 2);
    LeRoundTrip(d.milliseconds * 1000, 4);
    assert bytes[1..3] == Le(d.year, 2) && bytes[8..12] == Le(d.milliseconds * 1000, 4);
    HoldsAt(b, offset, bytes, 0, 12);
    HoldsAt(b, offset, bytes, 1, 3);
    HoldsAt(b, offset, bytes, 3, 12);
    HoldsAt(b, offset, bytes, 4, 12);
    HoldsAt(b, offset, bytes, 5, 12);
    HoldsAt(b, offset, bytes, 6, 12);
    HoldsAt(b, offset, bytes, 7, 12);
    HoldsAt(b, offset, bytes, 8, 12);
  }

  lemma ClockDecodes(b: Buffer, offset: nat, t: TimeParts)
    requires Writable(t) && Holds(b, offset, Clock(t))
    ensures offset + 8 <= |b| && (b[offset] == 1 <==> t.negative) && FromLe(b[offset + 1..offset + 5]) == t.days
    ensures b[offset + 5] == t.hours && b[offset + 6] == t.minutes && b[offset + 7] == t.seconds
  {
    hide Le, FromLe, Pow256, Holds;
    Pow256Values();
    LeRoundTrip(t.days, 4);
    assert Clock(t)[1..5] == Le(t.days, 4);
    HoldsAt(b, offset, Clock(t), 0, 8);
    HoldsAt(b, offset, Clock(t), 1, 5);
    HoldsAt(b, offset, Clock(t), 5, 8);
    HoldsAt(b, offset, Clock(t), 6, 8);
    HoldsAt(b, offset, Clock(t), 7, 8);
  }

  lemma TimeDecodes(b: Buffer, offset: nat, t: TimeParts)
    requires Writable(t) && Holds(b, offset, TimeBytes(t))
    ensures DecodeTime(b, offset) == Just((TimeMeant(t), offset + |TimeBytes(t)|))
  {
    hide Le, FromLe, Pow256, Clock, Holds;
    HoldsAt(b, offset, TimeBytes(t), 0, TimeLength(t));
    if !IsZero(t) {
      if t.microseconds > 0 {
        assert TimeBytes(t) == [12] + (Clock(t) + Le(t.microseconds, 4));
        HoldsSplit(b, offset, [12], Clock(t) + Le(t.microseconds, 4));
        HoldsSplit(b, offset + 1, Clock(t), Le(t.microseconds, 4));
        Pow256Values();
        LeRoundTrip(t.microseconds, 4);
        HoldsAt(b, offset + 9, Le(t.microseconds, 4), 0, 4);
        assert Le(t.microseconds, 4)[0..4] == Le(t.microseconds, 4);
      } else {
        HoldsSplit(b, offset, [8], Clock(t));
      }
      ClockDecodes(b, offset + 1, t);
    }
  }

  lemma DataDecodes(b: Buffer, offset: nat, d: Data)
    requires Holds(b, offset, LcBytes(|d|) + d)
    ensures DecodeData(b, offset) == Just((d, offset + LcSize(d)))
  {
    hide LcBytes, ReadLc, Holds;
    HoldsSplit(b, offset, LcBytes(|d|), d);
    LcRoundTrip(b, offset, |d|);
    HoldsAt(b, offset + LcLength(|d|), d, 0, |d|);
    assert d[0..|d|] == d;
  }

  lemma ContentDecodes(b: Buffer, offset: nat, t: Byte, unsigned: bool, c: Content)
    requires TypeFits(t, c) && CanWrite(c) && Holds(b, offset, ContentBytes(c))
    ensures DecodeValue(b, offset, t, unsigned) == Just((WireOf(t, c, unsigned), offset + |ContentBytes(c)|))
  {
    hide Le, FromLe, Pow256, FromUint, LcBytes, TimeBytes, DateBytes, DecodeDate, DecodeTime, DecodeData, TimeMeant,
      Writable;
    match c {
      case UIntLE(n, k) => LeRoundTrip(n, k);
      case DateContent(d) => DateDecodes(b, offset, d);
      case TimeContent(time) => TimeDecodes(b, offset, time);
      case LengthCodedBuffer(d) => DataDecodes(b, offset, d);
      case _ =>
    }
  }

  // ---------------------------------------------------------------- decoding what was written

  lemma {:induction false} Pow2Splits(m: nat, j: nat)
    requires j < m
    ensures Pow2(m) == 2 * Pow2(m - j - 1) * Pow2(j)
    decreases m
  {
    if m > j + 1 {
      Pow2Splits(m - 1, j);
      assert Pow2(m) == 2 * Pow2(m - 1) && Pow2(m - j - 1) == 2 * Pow2(m - j - 2);
      hide Pow2;
      Regroup(Pow2(m - j - 2), Pow2(j));
    }
  }

  lemma Regroup(a: int, c: int)
    ensures 2 * (2 * a * c) == 2 * (2 * a) * c
  {
  }

  lemma DivShift(r: nat, p: nat, q: nat)
    requires p > 0
    ensures (r + q * p) / p == r / p + q
  {
    var k := (r + q * p) / p - (r / p + q);
    assert r == r / p * p + r % p;
    assert r + q * p == (r + q * p) / p * p + (r + q * p) % p;
    assert k * p == r % p - (r + q * p) % p;
    assert k >= 1 ==> k * p >= p;
    assert k <= -1 ==> k * p <= -(p as int);
  }

  lemma HigherBit(r: nat, p: nat, q: nat, high: nat)
    requires p > 0 && high == 2 * q * p
    ensures (r + high) / p % 2 == r / p % 2
  {
    DivShift(r, p, 2 * q);
    var x := r / p;
    assert (x + 2 * q) % 2 == x % 2;
  }

  lemma OwnBit(r: nat, p: nat)
    requires r < p
    ensures (r + p) / p % 2 == 1 && r / p % 2 == 0
  {
    DivShift(r, p, 1);
    assert r / p == 0;
  }

  /** Each bit of a packed byte is its flag. */
  lemma {:induction false} BitIsFlag(flags: seq<bool>, j: nat)
    requires j < |flags|
    ensures PackedBits(flags) / Pow2(j) % 2 == 1 <==> flags[j]
  {
    hide Pow2;
    var m := |flags| - 1;
    var rest := PackedBits(flags[..m]);
    if j == m {
      PackedBitsBound(flags[..m]);
      OwnBit(rest, Pow2(m));
    } else {
      BitIsFlag(flags[..m], j);
      Pow2Splits(m, j);
      HigherBit(rest, Pow2(j), Pow2(m - j - 1), Pow2(m));
    }
  }

  lemma {:induction false} BitmapByteAt(flags: seq<bool>, n: nat, k: nat)
    requires k < n && 8 * n <= |flags| + 7
    ensures BitmapBytes(flags, n)[k] ==
            PackedBits(flags[8 * k..if 8 * (k + 1) <= |flags| then 8 * (k + 1) else |flags|])
    decreases n
  {
    hide PackedBits;
    if k < n - 1 {
      BitmapByteAt(flags, n - 1, k);
    }
  }

  lemma BitValues(k: nat)
    requires k < 8
    ensures BitValue(k) == Pow2(k)
  {
    assert Pow2(1) == 2 * Pow2(0) && Pow2(2) == 2 * Pow2(1) && Pow2(3) == 2 * Pow2(2) && Pow2(4) == 2 * Pow2(3);
    assert Pow2(5) == 2 * Pow2(4) && Pow2(6) == 2 * Pow2(5) && Pow2(7) == 2 * Pow2(6);
  }

  /** The decoder's null test finds the null parameters. */
  lemma NullsDecode(b: Buffer, offset: nat, params: seq<Parameter>, i: nat)
    requires i < |params| && Holds(b, offset, Bitmap(params))
    ensures NullAt(b, offset, i) <==> params[i].isNull
  {
    hide PackedBits, BitmapBytes, Holds, Pow2;
    var flags, k := NullFlags(params), i / 8;
    BitValues(i % 8);
    HoldsAt(b, offset, Bitmap(params), k, k + 1);
    BitmapByteAt(flags, (|params| + 7) / 8, k);
    var byte := flags[8 * k..if 8 * (k + 1) <= |flags| then 8 * (k + 1) else |flags|];
    BitIsFlag(byte, i % 8);
    assert byte[i % 8] == flags[i];
  }

  function DeclaredAt(e: Execute, p: Parameter, i: nat): Declared
    requires i < Total(e)
  {
    Declared(p.columnType, p.unsigned, if e.queryAttributes then NameAt(e, i) else [])
  }

  lemma EntryDecodes(b: Buffer, offset: nat, e: Execute, p: Parameter, i: nat)
    requires i < Total(e) && Holds(b, offset, TypeEntry(e, p, i))
    ensures offset + 2 <= |b| && b[offset] == p.columnType && (b[offset + 1] >= 0x80 <==> p.unsigned)
    ensures DecodeName(b, offset + 2, e.queryAttributes) ==
            Just((DeclaredAt(e, p, i).name, offset + |TypeEntry(e, p, i)|))
  {
    hide Holds, LcBytes, LcLength, DecodeData, NameAt;
    var entry, name := TypeEntry(e, p, i), NameAt(e, i);
    HoldsAt(b, offset, entry, 0, 2);
    HoldsAt(b, offset, entry, 1, 2);
    if e.queryAttributes {
      HoldsSplit(b, offset, [p.columnType, if p.unsigned then 0x80 else 0], LcBytes(|name|) + name);
      DataDecodes(b, offset + 2, name);
    }
  }

  function DeclaredFrom(e: Execute, params: seq<Parameter>, i: nat): (types: seq<Declared>)
    requires i <= |params| == Total(e)
    ensures |types| == |params| - i && forall k :: 0 <= k < |types| ==> types[k] == DeclaredAt(e, params[i + k], i + k)
    decreases |params| - i
  {
    if i == |params| then [] else [DeclaredAt(e, params[i], i)] + DeclaredFrom(e, params, i + 1)
  }

  lemma RestOfEntries(entries: seq<Buffer>, i: nat)
    requires i < |entries|
    ensures Concat(entries[i..]) == entries[i] + Concat(entries[i + 1..])
  {
    assert entries[i..][1..] == entries[i + 1..];
  }

  lemma {:induction false} TypesDecode(b: Buffer, offset: nat, e: Execute, params: seq<Parameter>, i: nat)
    requires i <= |params| == Total(e)
    requires Holds(b, offset, Concat(TypeEntries(e, params)[i..]))
    ensures DecodeTypes(b, offset, |params| - i, e.queryAttributes) ==
            Just((DeclaredFrom(e, params, i), offset + |Concat(TypeEntries(e, params)[i..])|))
    decreases |params| - i
  {
    hide Holds, TypeEntry, DeclaredAt, DecodeName, Concat;
    var entries := TypeEntries(e, params);
    if i < |params| {
      RestOfEntries(entries, i);
      HoldsSplit(b, offset, entries[i], Concat(entries[i + 1..]));
      EntryDecodes(b, offset, e, params[i], i);
      TypesDecode(b, offset + |entries[i]|, e, params, i + 1);
      DeclaredParts(e, params[i], i);
    } else {
      assert entries[i..] == [];
      NoParts();
    }
  }

  lemma DeclaredParts(e: Execute, p: Parameter, i: nat)
    requires i < Total(e)
    ensures DeclaredAt(e, p, i) == Declared(p.columnType, p.unsigned, DeclaredAt(e, p, i).name)
  {
  }

  function MeantAt(e: Execute, i: nat): Maybe<Sent>
    requires i < Total(e)
  {
    Meant(ValueAt(e, i), JsonAsString(e, i), HintAt(e, i))
  }

  function WireAt(e: Execute, i: nat): Wire
    requires i < Total(e)
  {
    if MeantAt(e, i).Just? then MeantAt(e, i).value.value else WireNull
  }

  lemma ChosenAt(e: Execute, i: nat)
    requires Valid(e) && i < Total(e)
    ensures var r, m := ParameterAt(e, i), MeantAt(e, i);
            (r.Done? <==> m.Just?) && (r.Done? ==> Says(r.value, m.value))
  {
    hide ToParameter, Meant, Says, HintAt, JsonAsString;
    if i < |e.parameters| {
      assert e.parameters[i] in e.parameters;
    } else {
      assert e.attributes[i - |e.parameters|] in e.attributes;
    }
    ParameterMeans(ValueAt(e, i), JsonAsString(e, i), HintAt(e, i));
  }

  /** What the decoder finds for the parameters from the i-th on: the chosen type and flag, the name, and the
      value that was meant. */
  function BoundFrom(e: Execute, params: seq<Parameter>, i: nat): (all: seq<Bound>)
    requires i <= |params| == Total(e)
    ensures |all| == |params| - i
    ensures forall k :: 0 <= k < |all| ==>
              all[k] == Bound(DeclaredAt(e, params[i + k], i + k), WireAt(e, i + k))
    decreases |params| - i
  {
    if i == |params| then []
    else [Bound(DeclaredAt(e, params[i], i), WireAt(e, i))] + BoundFrom(e, params, i + 1)
  }

  lemma {:induction false} ValuesDecode(b: Buffer, offset: nat, bitmap: nat, e: Execute, params: seq<Parameter>, i: nat)
    requires Valid(e) && Gathered(e, Total(e)) == Done(params) && AllWritable(params) && i <= |params|
    requires Holds(b, bitmap, Bitmap(params)) && Holds(b, offset, Concat(ValueEntries(params)[i..]))
    ensures DecodeValues(b, offset, bitmap, DeclaredFrom(e, params, 0), i) ==
            Just((BoundFrom(e, params, i), offset + |Concat(ValueEntries(params)[i..])|))
    decreases |params| - i
  {
    hide Holds, CanWrite, ContentBytes, Bitmap, Gathered, ParameterAt, Valid, DecodeValue, NullAt, WireAt, ValueAt,
      NameAt, TypeEntry, DeclaredAt, DeclaredFrom, Concat;
    var entries := ValueEntries(params);
    var types := DeclaredFrom(e, params, 0);
    if i < |params| {
      RestOfEntries(entries, i);
      HoldsSplit(b, offset, entries[i], Concat(entries[i + 1..]));
      NullsDecode(b, bitmap, params, i);
      ValueDecodes(b, offset, e, i);
      DeclaredParts(e, params[i], i);
      assert types[i] == DeclaredAt(e, params[0 + i], 0 + i);
      ValuesDecode(b, offset + |entries[i]|, bitmap, e, params, i + 1);
    } else {
      assert entries[i..] == [];
      NoParts();
    }
  }

  lemma ValueDecodes(b: Buffer, offset: nat, e: Execute, i: nat)
    requires Valid(e) && i < Total(e) && ParameterAt(e, i).Done?
    ensures var p := ParameterAt(e, i).value;
            && (p.isNull ==> WireAt(e, i) == WireNull)
            && (!p.isNull && CanWrite(p.content) && Holds(b, offset, ContentBytes(p.content)) ==>
                DecodeValue(b, offset, p.columnType, p.unsigned) ==
                  Just((WireAt(e, i), offset + |ContentBytes(p.content)|)))
  {
    hide Holds, CanWrite, ContentBytes, DecodeValue, WireOf, TypeFits, ParameterAt, MeantAt;
    ChosenAt(e, i);
    var p := ParameterAt(e, i).value;
    if !p.isNull && CanWrite(p.content) && Holds(b, offset, ContentBytes(p.content)) {
      ContentDecodes(b, offset, p.columnType, p.unsigned, p.content);
    }
  }

  lemma OneIteration()
    ensures Le(1, 4) == [1, 0, 0, 0]
  {
    assert Le(1, 4) == [1] + Le(0, 3) && Le(0, 3) == [0] + Le(0, 2) && Le(0, 2) == [0] + Le(0, 1);
  }

  lemma HeadDecodes(b: Buffer, e: Execute)
    requires Valid(e) && Holds(b, 0, Head(e))
    ensures |b| >= 10 && b[0] == 0x17 && FromLe(b[1..5]) == e.id && b[6..10] == [1, 0, 0, 0]
    ensures b[5] == if e.queryAttributes then 8 else 0
  {
    hide Le, FromLe, Pow256, Holds;
    Pow256Values();
    LeRoundTrip(e.id, 4);
    OneIteration();
    var head := Head(e);
    assert head[1..5] == Le(e.id, 4) && head[6..10] == Le(1, 4);
    HoldsAt(b, 0, head, 0, 10);
    HoldsAt(b, 0, head, 1, 5);
    HoldsAt(b, 0, head, 5, 10);
    HoldsAt(b, 0, head, 6, 10);
  }

  /** Decoding what follows the parameter count. */
  lemma SectionsDecode(b: Buffer, offset: nat, e: Execute, params: seq<Parameter>)
    requires Valid(e) && Gathered(e, Total(e)) == Done(params) && AllWritable(params) && Total(e) > 0
    requires Holds(b, offset, Sections(e, params)) && offset + |Sections(e, params)| == |b|
    ensures DecodeSections(b, offset, Total(e), e.queryAttributes) == Just(BoundFrom(e, params, 0))
  {
    hide Holds, Bitmap, Concat, Gathered, AllWritable, TypeEntries, ValueEntries, DeclaredFrom, BoundFrom, DecodeTypes,
      DecodeValues, Valid;
    var bitmap, types, values := Bitmap(params), Concat(TypeEntries(e, params)), Concat(ValueEntries(params));
    HoldsSplit(b, offset, bitmap + [1] + types, values);
    HoldsSplit(b, offset, bitmap + [1], types);
    HoldsSplit(b, offset, bitmap, [1]);
    HoldsAt(b, offset + |bitmap|, [1], 0, 1);
    assert TypeEntries(e, params)[0..] == TypeEntries(e, params) && ValueEntries(params)[0..] == ValueEntries(params);
    TypesDecode(b, offset + |bitmap| + 1, e, params, 0);
    ValuesDecode(b, offset + |bitmap| + 1 + |types|, offset, e, params, 0);
  }

  lemma PayloadDecodes(e: Execute, params: seq<Parameter>)
    requires Valid(e) && Gathered(e, Total(e)) == Done(params) && AllWritable(params)
    ensures Decode(PayloadBytes(e, params), |e.parameters|, e.queryAttributes) ==
            Just(Decoded(e.id, BoundFrom(e, params, 0)))
  {
    hide Holds, Head, LcBytes, Sections, Gathered, AllWritable, DecodeSections, ReadLc, Le, FromLe, BoundFrom, Valid,
      Total;
    var b := PayloadBytes(e, params);
    var count := if e.queryAttributes then LcBytes(Total(e)) else [];
    var rest := if Total(e) > 0 then Sections(e, params) else [];
    assert b == Head(e) + (count + rest);
    WholeHolds(b);
    HoldsSplit(b, 0, Head(e), count + rest);
    HoldsSplit(b, 10, count, rest);
    HeadDecodes(b, e);
    TotalBound(e);
    if e.queryAttributes {
      LcRoundTrip(b, 10, Total(e));
    } else {
      AttributesOmitted(e);
    }
    if Total(e) > 0 {
      SectionsDecode(b, 10 + |count|, e, params);
    } else {
      NoneBound(e, params, b, 10 + |count|);
    }
  }

  lemma AttributesOmitted(e: Execute)
    requires !e.queryAttributes
    ensures Total(e) == |e.parameters|
  {
  }

  lemma WholeHolds(b: Buffer)
    ensures Holds(b, 0, b)
  {
  }

  lemma TotalBound(e: Execute)
    requires Valid(e)
    ensures Total(e) < TWO32
  {
  }

  lemma NoneBound(e: Execute, params: seq<Parameter>, b: Buffer, offset: nat)
    requires |params| == Total(e) == 0 && offset == |b|
    ensures DecodeSections(b, offset, 0, e.queryAttributes) == Just(BoundFrom(e, params, 0))
  {
  }

  lemma {:induction false} GatheredDone(e: Execute, n: nat)
    requires Valid(e) && n <= Total(e)
    ensures Gathered(e, n).Done? <==> forall i :: 0 <= i < n ==> ParameterAt(e, i).Done?
  {
    hide ParameterAt;
    if n > 0 {
      GatheredDone(e, n - 1);
    }
  }

  predicate SendableAt(e: Execute, i: nat)
    requires i < Total(e)
  {
    MeantAt(e, i).Just? && Representable(MeantAt(e, i).value.value)
  }

  lemma SendableEverywhere(e: Execute)
    ensures Sendable(e) <==> forall i :: 0 <= i < Total(e) ==> SendableAt(e, i)
  {
    hide Meant, Representable;
    var n := |e.parameters|;
    if Sendable(e) {
      forall i | 0 <= i < Total(e) ensures SendableAt(e, i) {
        assert i < n ==> CanSend(e.parameters[i], e.jsonAsString,
                                 if i < |e.definitions| then e.definitions[i] else Nothing);
        assert i >= n ==> CanSend(e.attributes[i - n].1, false, Nothing);
      }
    }
    if forall i :: 0 <= i < Total(e) ==> SendableAt(e, i) {
      forall i | 0 <= i < n
        ensures CanSend(e.parameters[i], e.jsonAsString, if i < |e.definitions| then e.definitions[i] else Nothing)
      {
        assert SendableAt(e, i);
      }
      forall j | 0 <= j < |e.attributes| && e.queryAttributes ensures CanSend(e.attributes[j].1, false, Nothing) {
        assert SendableAt(e, n + j);
      }
    }
  }

  lemma ChosenSendable(e: Execute, i: nat)
    requires Valid(e) && i < Total(e)
    ensures SendableAt(e, i) <==>
            var r := ParameterAt(e, i); r.Done? && (r.value.isNull || CanWrite(r.value.content))
  {
    hide ParameterAt, MeantAt, CanWrite, Representable, TypeFits, WireOf;
    ChosenAt(e, i);
    if MeantAt(e, i).Just? && MeantAt(e, i).value.value.WireNull? {
      NullFits();
    }
  }

  lemma NullFits()
    ensures Representable(WireNull)
  {
  }

  /** The choice and the writers succeed for exactly the values that can be sent. */
  lemma SendableExactly(e: Execute)
    requires Valid(e)
    ensures Gathered(e, Total(e)).Done? && AllWritable(Gathered(e, Total(e)).value) <==> Sendable(e)
  {
    hide ParameterAt, CanWrite, SendableAt, Gathered, Sendable;
    GatheredDone(e, Total(e));
    SendableEverywhere(e);
    forall i | 0 <= i < Total(e)
      ensures SendableAt(e, i) <==>
              var r := ParameterAt(e, i); r.Done? && (r.value.isNull || CanWrite(r.value.content))
    {
      ChosenSendable(e, i);
    }
    if Gathered(e, Total(e)).Done? {
      var params := Gathered(e, Total(e)).value;
      assert forall i :: 0 <= i < Total(e) ==> ParameterAt(e, i) == Done(params[i]);
      if Sendable(e) {
        forall i | 0 <= i < |params| ensures params[i].isNull || CanWrite(params[i].content) {
          assert SendableAt(e, i);
        }
      }
    }
  }

  /** Round trip: the server reads back the statement and, of every parameter and attribute, the type, flag, name
      and value that it must be told. */
  lemma ExecuteRoundTrip(e: Execute, params: seq<Parameter>)
    requires Valid(e) && Gathered(e, Total(e)) == Done(params) && AllWritable(params)
    ensures var r := Decode(PayloadBytes(e, params), |e.parameters|, e.queryAttributes);
            r.Just? && r.value.id == e.id && AllSent(e, r.value.bound)
  {
    hide Decode, PayloadBytes, ParameterAt, Meant, AllWritable, Gathered, BoundFrom, ValueAt, NameAt, Says;
    PayloadDecodes(e, params);
    var bound, n := BoundFrom(e, params, 0), |e.parameters|;
    forall i | 0 <= i < Total(e)
      ensures MeantAt(e, i) == Just(Sent(bound[i].declared.columnType, bound[i].declared.unsigned, bound[i].value))
      ensures bound[i].declared.name == if e.queryAttributes then NameAt(e, i) else []
    {
      FoundAt(e, params, i);
    }
    forall i | 0 <= i < n
      ensures IsSent(bound[i], [], e.parameters[i], e.jsonAsString,
                     if i < |e.definitions| then e.definitions[i] else Nothing)
    {
      ParameterOf(e, i);
    }
    forall j | 0 <= j < |e.attributes| && e.queryAttributes
      ensures IsSent(bound[n + j], e.attributes[j].0, e.attributes[j].1, false, Nothing)
    {
      AttributeOf(e, j);
    }
  }

  lemma FoundAt(e: Execute, params: seq<Parameter>, i: nat)
    requires Valid(e) && Gathered(e, Total(e)) == Done(params) && i < Total(e)
    ensures var bound := BoundFrom(e, params, 0)[i];
            && MeantAt(e, i) == Just(Sent(bound.declared.columnType, bound.declared.unsigned, bound.value))
            && bound.declared.name == if e.queryAttributes then NameAt(e, i) else []
  {
    hide ParameterAt, MeantAt, TypeFits, WireOf, CanWrite, Representable;
    ChosenAt(e, i);
    assert ParameterAt(e, i) == Done(params[i]);
    assert BoundFrom(e, params, 0)[i] == Bound(DeclaredAt(e, params[0 + i], 0 + i), WireAt(e, 0 + i));
  }

  lemma ParameterOf(e: Execute, i: nat)
    requires i < |e.parameters|
    ensures NameAt(e, i) == []
    ensures MeantAt(e, i) ==
            Meant(e.parameters[i], e.jsonAsString, if i < |e.definitions| then e.definitions[i] else Nothing)
  {
    hide Meant;
  }

  lemma AttributeOf(e: Execute, j: nat)
    requires j < |e.attributes| && e.queryAttributes
    ensures |e.parameters| + j < Total(e) && NameAt(e, |e.parameters| + j) == e.attributes[j].0
    ensures MeantAt(e, |e.parameters| + j) == Meant(e.attributes[j].1, false, Nothing)
  {
    hide Meant;
  }
}
