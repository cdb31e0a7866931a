/** The server's side of COM_STMT_EXECUTE: a decoder of the payload written from the pages "COM_STMT_EXECUTE" and
    "Binary Protocol Value" of the MySQL client/server protocol, with the numbers of those pages. */
module ExecuteServer {
  import opened Bytes
  import opened LengthCoded
  import opened Maybes

  /** A value as the server takes it: the same bytes are converted from the connection's character set as text,
      kept as they are as binary data, and parsed as a decimal number or a document. */
  datatype Wire =
    | WireNull
    | WireInteger(n: int)
    | WireDouble(double: Buffer)
    | WireFloat(float: Buffer)
    | WireDate(year: int, month: int, day: int, hour: int, minute: int, second: int, microseconds: int)
    | WireTime(negative: bool, days: int, hours: int, minutes: int, seconds: int, microseconds: int)
    | WireText(text: Buffer)
    | WireBinary(data: Buffer)
    | WireDecimal(text: Buffer)
    | WireJson(text: Buffer)

  datatype Declared = Declared(columnType: Byte, unsigned: bool, name: Buffer)

  datatype Bound = Bound(declared: Declared, value: Wire)

  datatype Decoded = Decoded(id: nat, bound: seq<Bound>)

  /** The bytes of an integer type that can be bound: TINY, SHORT, LONG, LONGLONG. */
  function IntegerWidth(t: Byte): nat {
    if t == 0x01 then 1 else if t == 0x02 then 2 else if t == 0x03 then 4 else if t == 0x08 then 8 else 0
  }

  /** Two's complement. */
  function Signed(u: nat, width: nat): int {
    if width == 1 && u >= 0x80 then u - 0x100
    else if width == 2 && u >= 0x8000 then u - 0x1_0000
    else if width == 4 && u >= 0x8000_0000 then u - 0x1_0000_0000
    else if width == 8 && u >= 0x8000_0000_0000_0000 then u - 0x1_0000_0000_0000_0000
    else u
  }

  function FromUint(u: nat, width: nat, unsigned: bool): int {
    if unsigned then u else Signed(u, width)
  }

  /** What the bytes of a length-encoded value are, for the types that can be bound. */
  function Denoted(t: Byte, bytes: Buffer): Maybe<Wire> {
    if t == 0x0f || t == 0xfd || t == 0xfe then Just(WireText(bytes))
    else if 0xf9 <= t <= 0xfc then Just(WireBinary(bytes))
    else if t == 0x00 || t == 0xf6 then Just(WireDecimal(bytes))
    else if t == 0xf5 then Just(WireJson(bytes))
    else Nothing
  }

  function DecodeDate(b: Buffer, offset: nat): Maybe<(Wire, nat)> {
    if offset >= |b| || offset + 1 + b[offset] > |b| then Nothing
    else if b[offset] == 0 then Just((WireDate(0, 0, 0, 0, 0, 0, 0), offset + 1))
    else if b[offset] == 4 then
      Just((WireDate(FromLe(b[offset + 1..offset + 3]), b[offset + 3], b[offset + 4], 0, 0, 0, 0), offset + 5))
    else if b[offset] == 7 || b[offset] == 11 then
      Just((WireDate(FromLe(b[offset + 1..offset + 3]), b[offset + 3], b[offset + 4], b[offset + 5], b[offset + 6],
                     b[offset + 7],
                     if b[offset] == 7 then 0 else FromLe(b[offset + 8..offset + 12])), offset + 1 + b[offset]))
    else Nothing
  }

  function DecodeTime(b: Buffer, offset: nat): Maybe<(Wire, nat)> {
    if offset >= |b| || offset + 1 + b[offset] > |b| then Nothing
    else if b[offset] == 0 then Just((WireTime(false, 0, 0, 0, 0, 0), offset + 1))
    else if b[offset] == 8 || b[offset] == 12 then
      Just((WireTime(b[offset + 1] == 1, FromLe(b[offset + 2..offset + 6]), b[offset + 6], b[offset + 7], b[offset + 8],
                     if b[offset] == 8 then 0 else FromLe(b[offset + 9..offset + 13])), offset + 1 + b[offset]))
    else Nothing
  }

  function DecodeData(b: Buffer, offset: nat): Maybe<(Buffer, nat)> {
    var length := ReadLc(b, offset);
    if !length.LcNumber? || length.end + length.n > |b| then Nothing
    else Just((b[length.end..length.end + length.n], length.end + length.n))
  }

  function DecodeValue(b: Buffer, offset: nat, t: Byte, unsigned: bool): Maybe<(Wire, nat)> {
    var k := IntegerWidth(t);
    if k > 0 then
      if offset + k > |b| then Nothing
      else Just((WireInteger(FromUint(FromLe(b[offset..offset + k]), k, unsigned)), offset + k))
    else if t == 0x05 then if offset + 8 > |b| then Nothing else Just((WireDouble(b[offset..offset + 8]), offset + 8))
    else if t == 0x04 then if offset + 4 > |b| then Nothing else Just((WireFloat(b[offset..offset + 4]), offset + 4))
    else if t == 0x07 || t == 0x0a || t == 0x0c then DecodeDate(b, offset)
    else if t == 0x0b then DecodeTime(b, offset)
    else
      var data := DecodeData(b, offset);
      if data.Nothing? || Denoted(t, data.value.0).Nothing? then Nothing
      else Just((Denoted(t, data.value.0).value, data.value.1))
  }

  function DecodeName(b: Buffer, offset: nat, names: bool): Maybe<(Buffer, nat)> {
    if names then DecodeData(b, offset) else Just(([], offset))
  }

  /** The types of `n` parameters. */
  function DecodeTypes(b: Buffer, offset: nat, n: nat, names: bool): Maybe<(seq<Declared>, nat)>
    decreases n
  {
    if n == 0 then Just(([], offset))
    else if offset + 2 > |b| then Nothing
    else
      var name := DecodeName(b, offset + 2, names);
      if name.Nothing? then Nothing
      else
        var rest := DecodeTypes(b, name.value.1, n - 1, names);
        if rest.Nothing? then Nothing
        else Just(([Declared(b[offset], b[offset + 1] >= 0x80, name.value.0)] + rest.value.0, rest.value.1))
  }

  function BitValue(k: nat): nat
    requires k < 8
  {
    [1, 2, 4, 8, 16, 32, 64, 128][k]
  }

  predicate NullAt(b: Buffer, bitmap: nat, i: nat) {
    bitmap + i / 8 < |b| && b[bitmap + i / 8] / BitValue(i % 8) % 2 == 1
  }

  /** The values from the i-th on. */
  function DecodeValues(b: Buffer, offset: nat, bitmap: nat, types: seq<Declared>, i: nat): Maybe<(seq<Bound>, nat)>
    requires i <= |types|
    decreases |types| - i
  {
    if i == |types| then Just(([], offset))
    else
      var v := if NullAt(b, bitmap, i) then Just((WireNull, offset))
        else DecodeValue(b, offset, types[i].columnType, types[i].unsigned);
      if v.Nothing? then Nothing
      else
        var rest := DecodeValues(b, v.value.1, bitmap, types, i + 1);
        if rest.Nothing? then Nothing else Just(([Bound(types[i], v.value.0)] + rest.value.0, rest.value.1))
  }

  /** What follows the parameter count: bitmap, flag, types and values, to the end. */
  function DecodeSections(b: Buffer, offset: nat, n: nat, names: bool): Maybe<seq<Bound>> {
    var flag := offset + (n + 7) / 8;
    if n == 0 then if offset == |b| then Just([]) else Nothing
    else if flag >= |b| || b[flag] != 1 then Nothing
    else
      var types := DecodeTypes(b, flag + 1, n, names);
      if types.Nothing? then Nothing
      else
        var values := DecodeValues(b, types.value.1, offset, types.value.0, 0);
        if values.Nothing? || values.value.1 != |b| then Nothing else Just(values.value.0)
  }

  /** The payload, for a statement with `declared` placeholders; it must end with the last value. With query
      attributes the flags say that a count and names are sent. */
  function Decode(b: Buffer, declared: nat, names: bool): Maybe<Decoded> {
    if |b| < 10 || b[0] != 0x17 || b[5] != (if names then 8 else 0) || b[6..10] != [1, 0, 0, 0] then Nothing
    else
      var count := if names then ReadLc(b, 10) else LcNumber(declared, 10);
      if !count.LcNumber? then Nothing
      else
        var bound := DecodeSections(b, count.end, count.n, names);
        if bound.Nothing? then Nothing else Just(Decoded(FromLe(b[1..5]), bound.value))
  }
}
