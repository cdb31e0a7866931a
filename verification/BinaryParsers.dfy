/** The binary protocol's row parsers: the generator of lib/parsers/binary_parser.js and the interpreter
    of lib/parsers/static_binary_parser.js, which must agree. */
module BinaryParsers {
  import opened BitMasks
  import opened Bytes
  import opened JsLiterals
  import opened Maybes
  import opened Rows

  // ---------------------------------------------------------------- one column

  /** The reader of a column: the interpreter's case split. */
  function ReadOf(f: Field, o: Options, c: Options): Read {
    var big := SupportBigNumbers(o, c);
    var unsigned := IsUnsigned(f);
    if IsJsonFormat(f) then
      if c.jsonStrings then LengthCodedString(Given(f.encoding)) else JsonValue(Given(f.encoding), big)
    else if f.columnType == TINY then if unsigned then UInt8 else SInt8
    else if f.columnType == SHORT then if unsigned then UInt16 else SInt16
    else if f.columnType == LONG || f.columnType == INT24 then if unsigned then UInt32 else SInt32
    else if f.columnType == YEAR then UInt16
    else if f.columnType == FLOAT then Float32
    else if f.columnType == DOUBLE then Float64
    else if f.columnType == NULL then NoRead
    else if IsDateType(f.columnType) then
      if TypeMatch(f.columnType, DateStringsFor(o, c)) then DateTimeString(f.decimals, f.columnType)
      else DateTime(Timezone(o, c))
    else if f.columnType == TIME then TimeString
    else if f.columnType == DECIMAL || f.columnType == NEWDECIMAL then
      if c.decimalNumbers then LengthCodedFloat else LengthCodedString(Ascii)
    else if f.columnType == GEOMETRY then GeometryValue
    else if f.columnType == VECTOR then VectorValue
    else if f.columnType == JSON then
      if c.jsonStrings then LengthCodedString(Utf8) else JsonValue(Utf8, big)
    else if f.columnType == LONGLONG then
      if !big then Int64Number(!unsigned)
      else if BigNumberStrings(o, c) then Int64String(!unsigned)
      else Int64(!unsigned)
    else if f.characterSet == CHARSET_BINARY then LengthCodedBuffer
    else LengthCodedString(Given(f.encoding))
  }

  /** The generator's case split, `readCodeFor`. */
  function ReadCodeFor(f: Field, c: Options, o: Options, fieldNum: nat): CodeRead {
    var big := SupportBigNumbers(o, c);
    var unsigned := IsUnsigned(f);
    if IsJsonFormat(f) then
      if c.jsonStrings then StringInEncodingOf(fieldNum) else JsonInEncodingOf(fieldNum, big)
    else if f.columnType == TINY then Direct(if unsigned then UInt8 else SInt8)
    else if f.columnType == SHORT then Direct(if unsigned then UInt16 else SInt16)
    else if f.columnType == LONG || f.columnType == INT24 then Direct(if unsigned then UInt32 else SInt32)
    else if f.columnType == YEAR then Direct(UInt16)
    else if f.columnType == FLOAT then Direct(Float32)
    else if f.columnType == DOUBLE then Direct(Float64)
    else if f.columnType == NULL then Direct(NoRead)
    else if IsDateType(f.columnType) then
      if TypeMatch(f.columnType, DateStringsFor(o, c)) then Direct(DateTimeString(f.decimals, f.columnType))
      else DateTimeIn(TimezoneLiteral(Timezone(o, c)))
    else if f.columnType == TIME then Direct(TimeString)
    else if f.columnType == DECIMAL || f.columnType == NEWDECIMAL then
      Direct(if c.decimalNumbers then LengthCodedFloat else LengthCodedString(Ascii))
    else if f.columnType == GEOMETRY then Direct(GeometryValue)
    else if f.columnType == VECTOR then Direct(VectorValue)
    else if f.columnType == JSON then
      Direct(if c.jsonStrings then LengthCodedString(Utf8) else JsonValue(Utf8, big))
    else if f.columnType == LONGLONG then
      if !big then Direct(if unsigned then Int64Number(false) else Int64Number(true))
      else if BigNumberStrings(o, c) then Direct(if unsigned then Int64String(false) else Int64String(true))
      else Direct(if unsigned then Int64(false) else Int64(true))
    else if f.characterSet == CHARSET_BINARY then Direct(LengthCodedBuffer)
    else StringInEncodingOf(fieldNum)
  }

  function CellRead(f: Field, o: Options, c: Options): Read {
    if o.typeCast.CastFalse? then LengthCodedBuffer else ReadOf(f, o, c)
  }

  function CellCode(f: Field, o: Options, c: Options, i: nat): CodeRead {
    if o.typeCast.CastFalse? then Direct(LengthCodedBuffer) else ReadCodeFor(f, c, o, i)
  }

  /** A column read as a Date needs to know the time zone. */
  predicate NeedsTimezone(f: Field, o: Options, c: Options) {
    !o.typeCast.CastFalse? && !IsJsonFormat(f) && IsDateType(f.columnType)
      && !TypeMatch(f.columnType, DateStringsFor(o, c))
  }

  /** The generated reader is the interpreter's, exactly when the time zone is known or not needed:
      a missing one reaches the generated code as the string "undefined". */
  lemma ReadersAgree(fields: seq<Field>, i: nat, o: Options, c: Options)
    requires i < |fields|
    ensures Resolve(CellCode(fields[i], o, c, i), fields) == Just(CellRead(fields[i], o, c)) <==>
            Timezone(o, c).Just? || !NeedsTimezone(fields[i], o, c)
    ensures Resolve(CellCode(fields[i], o, c, i), fields).Just?
  {
    TimezoneRoundTrip(Timezone(o, c));
    hide TimezoneLiteral, LiteralValue, Timezone, TypeMatch, IsJsonFormat;
  }

  // ---------------------------------------------------------------- the row

  function NullBitmapLength(n: nat): nat {
    (n + 7 + 2) / 8
  }

  function NullBytes(b: Buffer, offset: nat, n: nat): (bytes: seq<Maybe<Byte>>)
    ensures |bytes| == n
  {
    if n == 0 then [] else NullBytes(b, offset, n - 1) + [ByteOf(b, offset + n - 1)]
  }

  /** Column i is null when bit (i + 2) % 8 of byte (i + 2) / 8 of the bitmap is set. */
  predicate IsNull(nulls: seq<Maybe<Byte>>, i: nat)
    requires (i + 2) / 8 < |nulls|
  {
    HasBit(nulls[(i + 2) / 8], Pow2((i + 2) % 8))
  }

  function ColumnCell<V>(rd: Reader<V>, b: Buffer, offset: nat, f: Field, o: Options, c: Options,
                         isNull: bool): (Cell<V>, nat) {
    if isNull then (Null, offset) else ReadCell(rd, CellRead(f, o, c), b, offset)
  }

  /** The row after its first `n` columns, and the offset after them. */
  function Columns<V>(rd: Reader<V>, b: Buffer, start: nat, nulls: seq<Maybe<Byte>>, fields: seq<Field>,
                      o: Options, c: Options, n: nat): (Row<V>, nat)
    requires n <= |fields| && |nulls| == NullBitmapLength(|fields|)
  {
    if n == 0 then (EmptyRow(o, |fields|), start)
    else
      var (row, offset) := Columns(rd, b, start, nulls, fields, o, c, n - 1);
      var f := fields[n - 1];
      var (cell, end) := ColumnCell(rd, b, offset, f, o, c, IsNull(nulls, n - 1));
      (Store(row, TargetOf(o, f, n - 1), cell), end)
  }

  /** What a binary row packet means: a status byte, the null bitmap, and the columns that are not null. */
  function BinaryRow<V>(rd: Reader<V>, b: Buffer, offset: nat, fields: seq<Field>, o: Options,
                        c: Options): (Row<V>, nat) {
    var n := NullBitmapLength(|fields|);
    Columns(rd, b, offset + 1 + n, NullBytes(b, offset + 1, n), fields, o, c, |fields|)
  }

  // ---------------------------------------------------------------- the interpreter

  /** A name the interpreter refuses to use as a property. */
  predicate Rejects(o: Options, f: Field) {
    !o.rowsAsArray &&
    match o.nestTables
    case NoNest => IsPrivate(f.name)
    case NestTables => IsPrivate(f.table) || IsPrivate(f.name)
    case NestWith(separator) => IsPrivate(f.table + separator + f.name)
  }

  method StoreValue<V>(row: Row<V>, f: Field, i: nat, o: Options, cell: Cell<V>) returns (after: Maybe<Row<V>>)
    ensures after == if Rejects(o, f) then Nothing else Just(Store(row, TargetOf(o, f, i), cell))
  {
    if o.rowsAsArray {
      return Just(Put(row, Element(i), cell));
    }
    match o.nestTables {
      case NestWith(separator) =>
        var key := f.table + separator + f.name;
        if IsPrivate(key) {
          return Nothing;
        }
        return Just(Put(row, Named(key), cell));
      case NestTables =>
        if IsPrivate(f.table) || IsPrivate(f.name) {
          return Nothing;
        }
        return Just(Put(EnsureTable(row, f.table), InTable(f.table, f.name), cell));
      case NoNest =>
        if IsPrivate(f.name) {
          return Nothing;
        }
        return Just(Put(row, Named(f.name), cell));
    }
  }

  /** The running bit and byte of the null bitmap. */
  predicate NullPosition(bit: nat, byteIndex: nat, i: nat) {
    bit == Pow2((i + 2) % 8) && byteIndex == (i + 2) / 8
  }

  lemma NextNullPosition(bit: nat, byteIndex: nat, i: nat)
    requires NullPosition(bit, byteIndex, i)
    ensures bit > 0 && (bit * 2 == 0x100 <==> (i + 2) % 8 == 7)
    ensures if bit * 2 == 0x100 then NullPosition(1, byteIndex + 1, i + 1) else NullPosition(bit * 2, byteIndex, i + 1)
  {
    hide Pow2;
    NextBit((i + 2) % 8);
    NextIndex(i + 2);
  }

  lemma NextBit(k: nat)
    requires k < 8
    ensures Pow2(k) > 0 && (Pow2(k) * 2 == 0x100 <==> k == 7)
    ensures Pow2(0) == 1 && Pow2(k + 1) == Pow2(k) * 2
  {
    BitValues();
  }

  lemma NextIndex(n: nat)
    ensures if n % 8 == 7 then (n + 1) % 8 == 0 && (n + 1) / 8 == n / 8 + 1
            else (n + 1) % 8 == n % 8 + 1 && (n + 1) / 8 == n / 8
  {
  }

  lemma BitValues()
    ensures Pow2(0) == 1 && Pow2(1) == 2 && Pow2(2) == 4 && Pow2(3) == 8
    ensures Pow2(4) == 16 && Pow2(5) == 32 && Pow2(6) == 64 && Pow2(7) == 128
  {
    assert Pow2(2) == 2 * Pow2(1) && Pow2(3) == 2 * Pow2(2) && Pow2(4) == 2 * Pow2(3);
    assert Pow2(5) == 2 * Pow2(4) && Pow2(6) == 2 * Pow2(5) && Pow2(7) == 2 * Pow2(6);
  }

  lemma NullByteInRange(n: nat, i: nat)
    requires i < n
    ensures (i + 2) / 8 < NullBitmapLength(n)
  {
  }

  /** The static parser's `next`. */
  method Next<V>(rd: Reader<V>, b: Buffer, offset: nat, fields: seq<Field>, o: Options, c: Options)
    returns (row: Maybe<Row<V>>, end: nat)
    ensures row.Nothing? <==> exists i :: 0 <= i < |fields| && Rejects(o, fields[i])
    ensures row.Just? ==> (row.value, end) == BinaryRow(rd, b, offset, fields, o, c)
  {
    hide CellRead, Store, TargetOf, Rejects, HasBit, ByteOf, Pow2, EmptyRow;
    end := offset + 1;
    var nullBitmapLength := NullBitmapLength(|fields|);
    var nulls := [];
    for k := 0 to nullBitmapLength
      invariant end == offset + 1 + k && nulls == NullBytes(b, offset + 1, k)
    {
      nulls := nulls + [ByteOf(b, end)];
      end := end + 1;
    }
    ghost var start := end;
    var result := EmptyRow(o, |fields|);
    var currentFieldNullBit: nat, nullByteIndex: nat := 4, 0;
    BitValues();
    for i := 0 to |fields|
      invariant (result, end) == Columns(rd, b, start, nulls, fields, o, c, i)
      invariant NullPosition(currentFieldNullBit, nullByteIndex, i)
      invariant forall j :: 0 <= j < i ==> !Rejects(o, fields[j])
    {
      NullByteInRange(|fields|, i);
      NextNullPosition(currentFieldNullBit, nullByteIndex, i);
      var cell := Null;
      if !HasBit(nulls[nullByteIndex], currentFieldNullBit) {
        var (value, after) := ReadCell(rd, CellRead(fields[i], o, c), b, end);
        cell, end := value, after;
      }
      var stored := StoreValue(result, fields[i], i, o, cell);
      if stored.Nothing? {
        return Nothing, end;
      }
      result := stored.value;
      currentFieldNullBit := currentFieldNullBit * 2;
      if currentFieldNullBit == 0x100 {
        currentFieldNullBit := 1;
        nullByteIndex := nullByteIndex + 1;
      }
    }
    row := Just(result);
  }

  // ---------------------------------------------------------------- the generator

  function Prologue(o: Options, n: nat): seq<Instr> {
    [if o.rowsAsArray then NewArray(n) else NewObject, SkipByte] + seq(NullBitmapLength(n), _ => ReadNullByte)
  }

  function FieldCode(f: Field, i: nat, o: Options, c: Options): seq<Instr> {
    (if o.nestTables.NestTables? then [EnsureTableCode(Quote(f.table))] else []) +
    [AssignUnlessNull((i + 2) / 8, Pow2((i + 2) % 8), CodeTargetOf(o, f, i), CellCode(f, o, c, i))]
  }

  function Body(fields: seq<Field>, o: Options, c: Options, n: nat): seq<Instr>
    requires n <= |fields|
  {
    if n == 0 then Prologue(o, |fields|) else Body(fields, o, c, n - 1) + FieldCode(fields[n - 1], n - 1, o, c)
  }

  /** The generated parser, and nothing when `compile` throws. */
  function Compiled(fields: seq<Field>, o: Options, c: Options): Maybe<Code> {
    if exists i :: 0 <= i < |fields| && CompileRejects(o, fields[i]) then Nothing
    else Just(Code(SomeUseLocalDate(fields, o, c), Body(fields, o, c, |fields|)))
  }

  method Compile(fields: seq<Field>, o: Options, c: Options) returns (code: Maybe<Code>)
    ensures code == Compiled(fields, o, c)
  {
    hide CellCode, CompileRejects, Pow2, Quote, SomeUseLocalDate;
    var checkTimezone := SomeUseLocalDate(fields, o, c);
    var body := [if o.rowsAsArray then NewArray(|fields|) else NewObject];
    body := body + [SkipByte];
    ghost var opening := body;
    for k := 0 to NullBitmapLength(|fields|)
      invariant body == opening + seq(k, _ => ReadNullByte)
    {
      body := body + [ReadNullByte];
    }
    var currentFieldNullBit: nat, nullByteIndex: nat := 4, 0;
    BitValues();
    for i := 0 to |fields|
      invariant body == Body(fields, o, c, i)
      invariant NullPosition(currentFieldNullBit, nullByteIndex, i)
      invariant forall j :: 0 <= j < i ==> !CompileRejects(o, fields[j])
    {
      NextNullPosition(currentFieldNullBit, nullByteIndex, i);
      if CompileRejects(o, fields[i]) {
        return Nothing;
      }
      ghost var before := body;
      if o.nestTables.NestTables? {
        body := body + [EnsureTableCode(Quote(fields[i].table))];
      }
      body := body + [AssignUnlessNull(nullByteIndex, currentFieldNullBit, CodeTargetOf(o, fields[i], i),
                                       CellCode(fields[i], o, c, i))];
      assert body == before + FieldCode(fields[i], i, o, c);
      currentFieldNullBit := currentFieldNullBit * 2;
      if currentFieldNullBit == 0x100 {
        currentFieldNullBit := 1;
        nullByteIndex := nullByteIndex + 1;
      }
    }
    code := Just(Code(checkTimezone, body));
  }

  // ---------------------------------------------------------------- the generated code means the same

  lemma {:induction false} NullBytesRead<V>(m: Machine<V>, rd: Reader<V>, b: Buffer, fields: seq<Field>,
                                            code: seq<Instr>, k: nat)
    requires Eval(m, rd, b, fields, code).Just? && Eval(m, rd, b, fields, code).value.nullBytes == []
    ensures var n := Eval(m, rd, b, fields, code).value;
            Eval(m, rd, b, fields, code + seq(k, _ => ReadNullByte)) ==
            Just(n.(nullBytes := NullBytes(b, n.offset, k), offset := n.offset + k))
  {
    hide Eval, ByteOf;
    var nullReads := seq(k, _ => ReadNullByte);
    if k == 0 {
      assert code + nullReads == code;
    } else {
      var fewer := seq(k - 1, _ => ReadNullByte);
      NullBytesRead(m, rd, b, fields, code, k - 1);
      assert code + nullReads == (code + fewer) + [ReadNullByte];
      EvalSnoc(m, rd, b, fields, code + fewer, ReadNullByte);
    }
  }

  lemma PrologueRun<V>(m: Machine<V>, rd: Reader<V>, b: Buffer, fields: seq<Field>, o: Options)
    requires m.nullBytes == []
    ensures var n := NullBitmapLength(|fields|);
            Eval(m, rd, b, fields, Prologue(o, |fields|)) ==
            Just(Machine(EmptyRow(o, |fields|), NullBytes(b, m.offset + 1, n), m.offset + 1 + n))
  {
    var first := if o.rowsAsArray then NewArray(|fields|) else NewObject;
    assert Eval(m, rd, b, fields, []) == Just(m);
    hide Eval;
    EvalSnoc(m, rd, b, fields, [], first);
    EvalSnoc(m, rd, b, fields, [first], SkipByte);
    assert [] + [first] == [first] && [first] + [SkipByte] == [first, SkipByte];
    NullBytesRead(m, rd, b, fields, [first, SkipByte], NullBitmapLength(|fields|));
  }

  /** The statements of one column. */
  lemma FieldRun<V>(m: Machine<V>, rd: Reader<V>, b: Buffer, fields: seq<Field>, o: Options, c: Options,
                    code: seq<Instr>, i: nat)
    requires i < |fields| && Eval(m, rd, b, fields, code).Just?
    requires |Eval(m, rd, b, fields, code).value.nullBytes| == NullBitmapLength(|fields|)
    requires Timezone(o, c).Just? || !NeedsTimezone(fields[i], o, c)
    ensures (i + 2) / 8 < NullBitmapLength(|fields|)
    ensures var n := Eval(m, rd, b, fields, code).value;
            var (cell, end) := ColumnCell(rd, b, n.offset, fields[i], o, c, IsNull(n.nullBytes, i));
            Eval(m, rd, b, fields, code + FieldCode(fields[i], i, o, c)) ==
            Just(n.(row := Store(n.row, GeneratedTarget(o, fields[i], i), cell), offset := end))
  {
    hide Eval, CellCode, CellRead, Pow2, HasBit, Resolve, ResolveTarget, CodeTargetOf, EnsureTable, Put, ReadCell,
      Quote, LiteralValue, Timezone, NeedsTimezone;
    var f := fields[i];
    NullByteInRange(|fields|, i);
    ReadersAgree(fields, i, o, c);
    CodeTargetDenotes(o, f, i);
    TargetRoundTrip(f.table, f.name);
    var assign := AssignUnlessNull((i + 2) / 8, Pow2((i + 2) % 8), CodeTargetOf(o, f, i), CellCode(f, o, c, i));
    if o.nestTables.NestTables? {
      var ensure := EnsureTableCode(Quote(f.table));
      assert code + FieldCode(f, i, o, c) == (code + [ensure]) + [assign];
      EvalSnoc(m, rd, b, fields, code, ensure);
      EvalSnoc(m, rd, b, fields, code + [ensure], assign);
    } else {
      assert code + FieldCode(f, i, o, c) == code + [assign];
      EvalSnoc(m, rd, b, fields, code, assign);
    }
  }

  /** The generated code's row after its first `n` columns, and the offset after them. */
  function Filled<V>(rd: Reader<V>, b: Buffer, start: nat, nulls: seq<Maybe<Byte>>, fields: seq<Field>,
                     o: Options, c: Options, n: nat): (Row<V>, nat)
    requires n <= |fields| && |nulls| == NullBitmapLength(|fields|)
  {
    if n == 0 then (EmptyRow(o, |fields|), start)
    else
      var (row, offset) := Filled(rd, b, start, nulls, fields, o, c, n - 1);
      var f := fields[n - 1];
      var (cell, end) := ColumnCell(rd, b, offset, f, o, c, IsNull(nulls, n - 1));
      (Store(row, GeneratedTarget(o, f, n - 1), cell), end)
  }

  lemma {:induction false} BodyRun<V>(rd: Reader<V>, b: Buffer, offset: nat, fields: seq<Field>, o: Options, c: Options,
                                      n: nat)
    requires n <= |fields|
    requires forall f :: f in fields ==> Timezone(o, c).Just? || !NeedsTimezone(f, o, c)
    ensures var k := NullBitmapLength(|fields|);
            var nulls := NullBytes(b, offset + 1, k);
            var (row, end) := Filled(rd, b, offset + 1 + k, nulls, fields, o, c, n);
            Eval(Machine(Row(Nothing, map[]), [], offset), rd, b, fields, Body(fields, o, c, n)) ==
              Just(Machine(row, nulls, end))
  {
    hide Eval, FieldCode, Store, GeneratedTarget, ColumnCell, IsNull, Timezone, NeedsTimezone, NullBytes,
      NullBitmapLength, EmptyRow, Prologue;
    var m := Machine(Row(Nothing, map[]), [], offset);
    if n == 0 {
      PrologueRun(m, rd, b, fields, o);
    } else {
      BodyRun(rd, b, offset, fields, o, c, n - 1);
      assert fields[n - 1] in fields;
      FieldRun(m, rd, b, fields, o, c, Body(fields, o, c, n - 1), n - 1);
    }
  }

  /** Unless both options are set, every value goes where the interpreter puts it. */
  lemma {:induction false} FilledIsColumns<V>(rd: Reader<V>, b: Buffer, start: nat, nulls: seq<Maybe<Byte>>,
                                              fields: seq<Field>, o: Options, c: Options, n: nat)
    requires n <= |fields| && |nulls| == NullBitmapLength(|fields|) && !BothSet(o)
    ensures Filled(rd, b, start, nulls, fields, o, c, n) == Columns(rd, b, start, nulls, fields, o, c, n)
  {
    hide ColumnCell, Store, IsNull, EmptyRow;
    if n > 0 {
      FilledIsColumns(rd, b, start, nulls, fields, o, c, n - 1);
    }
  }

  /** With both set the generated code's array keeps its holes; only its named properties are filled. */
  lemma {:induction false} FilledHoles<V>(rd: Reader<V>, b: Buffer, start: nat, nulls: seq<Maybe<Byte>>,
                                          fields: seq<Field>, o: Options, c: Options, n: nat)
    requires n <= |fields| && |nulls| == NullBitmapLength(|fields|) && BothSet(o)
    ensures var (row, end) := Filled(rd, b, start, nulls, fields, o, c, n);
            row.elements == Just(seq(|fields|, _ => Hole)) && end == Columns(rd, b, start, nulls, fields, o, c, n).1
  {
    hide ColumnCell, IsNull, IsInherited, IsArrayMethod;
    if n > 0 {
      FilledHoles(rd, b, start, nulls, fields, o, c, n - 1);
    }
  }

  /** The interpreter's array has a value for every column read. */
  lemma {:induction false} ColumnsFilled<V>(rd: Reader<V>, b: Buffer, start: nat, nulls: seq<Maybe<Byte>>,
                                            fields: seq<Field>, o: Options, c: Options, n: nat)
    requires n <= |fields| && |nulls| == NullBitmapLength(|fields|) && o.rowsAsArray
    ensures var row := Columns(rd, b, start, nulls, fields, o, c, n).0;
            row.elements.Just? && |row.elements.value| == |fields| && row.props == map[] &&
            forall i :: 0 <= i < n ==> !row.elements.value[i].Hole?
  {
    hide CellRead, IsNull;
    if n > 0 {
      ColumnsFilled(rd, b, start, nulls, fields, o, c, n - 1);
    }
  }

  lemma RowsExactly<V>(rd: Reader<V>, b: Buffer, start: nat, nulls: seq<Maybe<Byte>>, fields: seq<Field>, o: Options,
                       c: Options)
    requires |nulls| == NullBitmapLength(|fields|)
    ensures var (made, end) := Filled(rd, b, start, nulls, fields, o, c, |fields|);
            var (row, after) := Columns(rd, b, start, nulls, fields, o, c, |fields|);
            end == after && (made == row <==> !(BothSet(o) && fields != []))
  {
    hide Filled, Columns, IsNull;
    if !BothSet(o) {
      FilledIsColumns(rd, b, start, nulls, fields, o, c, |fields|);
    } else if fields == [] {
      NoColumns(rd, b, start, nulls, fields, o, c);
    } else {
      FilledHoles(rd, b, start, nulls, fields, o, c, |fields|);
      ColumnsFilled(rd, b, start, nulls, fields, o, c, |fields|);
      assert seq<Cell<V>>(|fields|, _ => Hole)[0].Hole?;
    }
  }

  lemma NoColumns<V>(rd: Reader<V>, b: Buffer, start: nat, nulls: seq<Maybe<Byte>>, fields: seq<Field>, o: Options,
                     c: Options)
    requires |nulls| == NullBitmapLength(|fields|) && fields == []
    ensures Filled(rd, b, start, nulls, fields, o, c, 0) == Columns(rd, b, start, nulls, fields, o, c, 0)
  {
  }

  /** Compiler correctness: on every packet the generated code reads up to the interpreter's offset, and it
      gives the interpreter's row, exactly unless `rowsAsArray` and `nestTables` are both set; the
      constructor checks the time zone when a column needs it. */
  lemma CompiledIsBinaryRow<V>(rd: Reader<V>, b: Buffer, offset: nat, fields: seq<Field>, o: Options, c: Options)
    requires Timezone(o, c).Just? || forall f :: f in fields ==> !NeedsTimezone(f, o, c)
    requires Compiled(fields, o, c).Just? && !SomeArrayKey(fields, o)
    ensures var code := Compiled(fields, o, c).value;
            var (row, end) := BinaryRow(rd, b, offset, fields, o, c);
            var m := Eval(Machine(Row(Nothing, map[]), [], offset), rd, b, fields, code.body);
            && m.Just? && m.value.offset == end && (m.value.row == row <==> !(BothSet(o) && fields != []))
            && code.checkTimezone == SomeUseLocalDate(fields, o, c)
  {
    hide Eval, Body, Columns, Filled, NullBytes, NullBitmapLength, Timezone, NeedsTimezone, SomeArrayKey;
    BodyRun(rd, b, offset, fields, o, c, |fields|);
    var n := NullBitmapLength(|fields|);
    RowsExactly(rd, b, offset + 1 + n, NullBytes(b, offset + 1, n), fields, o, c);
  }

  /** Rows on which they differ: one column, with both options. */
  lemma ArrayWithTables<V>(rd: Reader<V>, b: Buffer, offset: nat) returns (fields: seq<Field>, o: Options)
    ensures Compiled(fields, o, o).Just?
    ensures var m := Eval(Machine(Row(Nothing, map[]), [], offset), rd, b, fields, Compiled(fields, o, o).value.body);
            m.Just? && m.value.row != BinaryRow(rd, b, offset, fields, o, o).0
  {
    hide Eval, Body, BinaryRow;
    fields, o := OneColumn();
    CompiledIsBinaryRow(rd, b, offset, fields, o, o);
  }

  /** The generator and the interpreter refuse the same columns, except that in array mode only the
      generator refuses a private name, and that with a separator it also looks at the column's own name. */
  lemma RefusalsAgree(o: Options, f: Field)
    ensures CompileRejects(o, f) != Rejects(o, f) <==>
            if o.rowsAsArray then
              || IsPrivate(f.name)
              || (o.nestTables.NestTables? && IsPrivate(f.table))
              || (o.nestTables.NestWith? && IsPrivate(f.table + o.nestTables.separator + f.name))
            else IsPrivate(f.name) && o.nestTables.NestWith? && !IsPrivate(f.table + o.nestTables.separator + f.name)
  {
    hide IsPrivate;
  }

  /** Such a column: one called "__proto__" in array mode. */
  lemma PrivateInArray(f: Field, o: Options)
    requires f.name == Text("__proto__") && o.rowsAsArray
    ensures CompileRejects(o, f) && !Rejects(o, f)
  {
  }
}
