/** What the binary and the text row parsers share: column metadata, options, the readers a column
    can need, and row objects. */
module Rows {
  import opened Bytes
  import opened JsLiterals
  import opened Maybes

  const DECIMAL: nat := 0x00
  const TINY: nat := 0x01
  const SHORT: nat := 0x02
  const LONG: nat := 0x03
  const FLOAT: nat := 0x04
  const DOUBLE: nat := 0x05
  const NULL: nat := 0x06
  const TIMESTAMP: nat := 0x07
  const LONGLONG: nat := 0x08
  const INT24: nat := 0x09
  const DATE: nat := 0x0a
  const TIME: nat := 0x0b
  const DATETIME: nat := 0x0c
  const YEAR: nat := 0x0d
  const NEWDATE: nat := 0x0e
  const VECTOR: nat := 0xf2
  const JSON: nat := 0xf5
  const NEWDECIMAL: nat := 0xf6
  const GEOMETRY: nat := 0xff
  const CHARSET_BINARY: nat := 63
  const FLAG_UNSIGNED: nat := 32

  /** A constant string of the source. */
  function Text(s: string): (t: Str)
    ensures |t| == |s|
  {
    seq(|s|, i requires 0 <= i < |s| => s[i] as int % 0x10000)
  }

  datatype Field = Field(
    columnType: nat,
    characterSet: nat, flags: nat,
    decimals: nat, name: Str,
    table: Str, encoding: Str,
    extendedTypeName: Maybe<Str>, extendedFormat: Maybe<Str>)

  datatype Nest = NoNest | NestTables | NestWith(separator: Str)

  /** `typeCast`, where it is not a function. */
  datatype TypeCast = CastDefault | CastFalse

  datatype DateStrings = NoDateStrings | AllDateStrings | DateStringsOf(names: seq<Str>)

  /** The options of a query or of a connection. */
  datatype Options = Options(
    rowsAsArray: bool,
    nestTables: Nest, typeCast: TypeCast,
    supportBigNumbers: bool, bigNumberStrings: bool,
    decimalNumbers: bool, jsonStrings: bool,
    timezone: Maybe<Str>, dateStrings: DateStrings)

  function SupportBigNumbers(o: Options, c: Options): bool {
    o.supportBigNumbers || c.supportBigNumbers
  }

  function BigNumberStrings(o: Options, c: Options): bool {
    o.bigNumberStrings || c.bigNumberStrings
  }

  /** `options.timezone || config.timezone`: an empty string counts as missing in the options. */
  function Timezone(o: Options, c: Options): Maybe<Str> {
    if o.timezone.Just? && o.timezone.value != [] then o.timezone else c.timezone
  }

  predicate IsDigitUnit(u: Unit) {
    0x30 <= u <= 0x39
  }

  /** The time zones a connection accepts: local, Z, and signed hours and minutes. */
  predicate IsZone(t: Str) {
    || t == Text("local") || t == Text("Z")
    || (|t| == 6 && t[0] in {0x20, 0x2b, 0x2d} && t[3] == 0x3a &&
        IsDigitUnit(t[1]) && IsDigitUnit(t[2]) && IsDigitUnit(t[4]) && IsDigitUnit(t[5]))
  }

  /** The time zone of a connection's configuration, from the option it was made with. A leading space is
      a plus sign that came through a URL. */
  function ConnectionTimezone(option: Maybe<Str>): Str {
    if option.Just? && option.value != [] && !IsZone(option.value) then Text("Z")
    else if option.Just? && option.value != [] then
      if option.value[0] == 0x20 then [0x2b] + option.value[1..] else option.value
    else Text("local")
  }

  /** A connection always has a time zone, of the accepted form without a leading space. A query on it has
      one too: its own, which nobody checks, or the connection's. */
  lemma ConnectionsHaveTimezones(option: Maybe<Str>, o: Options, c: Options)
    requires c.timezone == Just(ConnectionTimezone(option))
    ensures IsZone(c.timezone.value) && c.timezone.value[0] != 0x20 && c.timezone.value != Text("undefined")
    ensures Timezone(o, c) == if o.timezone.Just? && o.timezone.value != [] then o.timezone else c.timezone
    ensures Timezone(o, c).Just?
  {
    assert Text("local")[0] == 0x6c && Text("Z")[0] == 0x5a;
  }

  function DateStringsFor(o: Options, c: Options): DateStrings {
    if o.dateStrings != NoDateStrings then o.dateStrings else c.dateStrings
  }

  function TypeCode(name: Str): Maybe<nat> {
    if name == Text("DATE") then Just(DATE)
    else if name == Text("DATETIME") then Just(DATETIME)
    else if name == Text("TIMESTAMP") then Just(TIMESTAMP)
    else if name == Text("NEWDATE") then Just(NEWDATE)
    else Nothing
  }

  predicate TypeMatch(columnType: nat, d: DateStrings) {
    match d
    case NoDateStrings => false
    case AllDateStrings => true
    case DateStringsOf(names) => exists n :: n in names && TypeCode(n) == Just(columnType)
  }

  predicate IsDateType(columnType: nat) {
    columnType == DATE || columnType == DATETIME || columnType == TIMESTAMP || columnType == NEWDATE
  }

  /** Whether a column's values go through the cache of local dates. */
  predicate UsesLocalDate(f: Field, o: Options, c: Options) {
    var timezone := Timezone(o, c);
    && (timezone.Just? && timezone.value != [] ==> timezone.value == Text("local"))
    && IsDateType(f.columnType)
    && !TypeMatch(f.columnType, DateStringsFor(o, c))
  }

  predicate SomeUseLocalDate(fields: seq<Field>, o: Options, c: Options) {
    exists f :: f in fields && UsesLocalDate(f, o, c)
  }

  predicate IsUnsigned(f: Field) {
    f.flags / FLAG_UNSIGNED % 2 == 1
  }

  predicate IsJsonFormat(f: Field) {
    f.extendedFormat == Just(Text("json"))
  }

  /** Names that no column may have, because objects treat them specially. */
  predicate IsPrivate(name: Str) {
    name in {Text("__defineGetter__"), Text("__defineSetter__"), Text("__lookupGetter__"), Text("__lookupSetter__"),
             Text("__proto__")}
  }

  /** Other names that are already defined on a fresh object. */
  predicate IsInherited(name: Str) {
    name in {Text("constructor"), Text("hasOwnProperty"), Text("isPrototypeOf"), Text("propertyIsEnumerable"),
             Text("toLocaleString"), Text("toString"), Text("valueOf")}
  }

  /** The properties of Object.prototype, by section 20.1.3 and annex B.2.2 of ECMA-262. */
  predicate IsObjectProperty(name: Str) {
    name in {Text("__defineGetter__"), Text("__defineSetter__"), Text("__lookupGetter__"), Text("__lookupSetter__"),
             Text("__proto__"), Text("constructor"), Text("hasOwnProperty"), Text("isPrototypeOf"),
             Text("propertyIsEnumerable"), Text("toLocaleString"), Text("toString"), Text("valueOf")}
  }

  /** Of these the private ones begin with two underscores, and columns can have the other names. */
  lemma PrivateExactly(name: Str)
    ensures IsPrivate(name) <==> IsObjectProperty(name) && name[..2] == Text("__")
    ensures IsInherited(name) <==> IsObjectProperty(name) && name[..2] != Text("__")
  {
    assert Text("constructor")[0] == 0x63 && Text("hasOwnProperty")[0] == 0x68 && Text("isPrototypeOf")[0] == 0x69;
    assert Text("propertyIsEnumerable")[0] == 0x70 && Text("toLocaleString")[0] == 0x74;
    assert Text("toString")[0] == 0x74 && Text("valueOf")[0] == 0x76 && Text("__")[0] == 0x5f;
    assert IsInherited(name) ==> name[..2][0] == name[0] != Text("__")[0];
  }

  /** The names of the methods that arrays inherit besides. */
  predicate IsArrayMethod(name: Str) {
    || name in {Text("at"), Text("concat"), Text("copyWithin"), Text("entries"), Text("every"), Text("fill"),
                Text("filter"), Text("find"), Text("findIndex"), Text("findLast"), Text("findLastIndex"),
                Text("flat"), Text("flatMap"), Text("forEach"), Text("includes"), Text("indexOf"), Text("join")}
    || name in {Text("keys"), Text("lastIndexOf"), Text("map"), Text("pop"), Text("push"), Text("reduce"),
                Text("reduceRight"), Text("reverse"), Text("shift"), Text("slice"), Text("some"), Text("sort"),
                Text("splice"), Text("toReversed"), Text("toSorted"), Text("toSpliced"), Text("unshift"),
                Text("values"), Text("with")}
  }

  function DecimalValue(digits: Str): nat {
    if digits == [] then 0 else 10 * DecimalValue(digits[..|digits| - 1]) + digits[|digits| - 1] % 0x10
  }

  /** The names by which arrays know their elements (section 15.4 of ECMA-262 5.1), and their length. */
  predicate IsArrayKey(name: Str) {
    || name == Text("length")
    || (name != [] && (forall u :: u in name ==> IsDigitUnit(u)) && (name[0] == 0x30 ==> |name| == 1) &&
        DecimalValue(name) < 0xffff_ffff)
  }

  // ---------------------------------------------------------------- readers

  datatype Encoding = Ascii | Utf8 | Given(name: Str)

  /** A call of one of the packet's readers; what each returns is left to the packet. */
  datatype Read =
    | NoRead // the constant null
    | UInt8 | SInt8 | UInt16 | SInt16 | UInt32 | SInt32
    | Float32 | Float64
    | DateTimeString(decimals: nat, columnType: nat)
    | DateTime(timezone: Maybe<Str>)
    | TimeString
    | LengthCodedFloat
    | LengthCodedString(encoding: Encoding)
    | LengthCodedBuffer
    | LengthCodedNumber
    | GeometryValue
    | VectorValue
    | JsonValue(encoding: Encoding, big: bool)
    | Int64Number(signed: bool) | Int64String(signed: bool) | Int64(signed: bool)
    | IntNoBigCheck | IntString | Int(big: bool)
    | ParseDate(timezone: Maybe<Str>)
    | ParseDateTime(timezone: Maybe<Str>)

  /** The packet: what a reader makes of the bytes from an offset, and the offset after them. */
  type Reader<V> = (Read, Buffer, nat) -> (V, nat)

  datatype Cell<V> = Hole | Null | Of(value: V)

  function ReadCell<V>(rd: Reader<V>, read: Read, b: Buffer, offset: nat): (Cell<V>, nat) {
    if read.NoRead? then (Null, offset)
    else
      var (value, end) := rd(read, b, offset);
      (Of(value), end)
  }

  // A reader call as the generated code spells it: encodings are looked up in the columns of the
  // result set at hand, time zones are string literals.

  datatype CodeRead =
    | Direct(read: Read)
    | StringInEncodingOf(column: nat)
    | JsonInEncodingOf(column: nat, big: bool)
    | DateTimeIn(literal: Str)
    | ParseDateIn(literal: Str)
    | ParseDateTimeIn(literal: Str)

  function Resolve(read: CodeRead, fields: seq<Field>): Maybe<Read> {
    match read
    case Direct(r) => Just(r)
    case StringInEncodingOf(i) => if i < |fields| then Just(LengthCodedString(Given(fields[i].encoding))) else Nothing
    case JsonInEncodingOf(i, big) => if i < |fields| then Just(JsonValue(Given(fields[i].encoding), big)) else Nothing
    case DateTimeIn(t) => if LiteralValue(t).Just? then Just(DateTime(LiteralValue(t))) else Nothing
    case ParseDateIn(t) => if LiteralValue(t).Just? then Just(ParseDate(LiteralValue(t))) else Nothing
    case ParseDateTimeIn(t) => if LiteralValue(t).Just? then Just(ParseDateTime(LiteralValue(t))) else Nothing
  }

  /** `srcEscape(timezone)`: a missing time zone becomes the literal "undefined". */
  function TimezoneLiteral(timezone: Maybe<Str>): Str {
    Quote(if timezone.Just? then timezone.value else Text("undefined"))
  }

  // ---------------------------------------------------------------- row objects

  datatype Prop<V> = CellOf(cell: Cell<V>) | TableOf(cells: map<Str, Cell<V>>)

  /** An array with its elements, or an object; either can have named properties. */
  datatype Row<V> = Row(elements: Maybe<seq<Cell<V>>>, props: map<Str, Prop<V>>)

  function EmptyRow<V>(o: Options, n: nat): Row<V> {
    Row(if o.rowsAsArray then Just(seq(n, _ => Hole)) else Nothing, map[])
  }

  datatype Target = Element(i: nat) | Named(key: Str) | InTable(table: Str, key: Str)

  /** `if (!result[t]) result[t] = {}`. */
  function EnsureTable<V>(row: Row<V>, t: Str): Row<V> {
    if t in row.props || IsInherited(t) || (row.elements.Just? && IsArrayMethod(t)) then row
    else row.(props := row.props[t := TableOf(map[])])
  }

  /** An assignment to the row; one that lands on an inherited object leaves the row as it is. */
  function Put<V>(row: Row<V>, target: Target, cell: Cell<V>): Row<V> {
    match target
    case Element(i) =>
      if row.elements.Just? && i < |row.elements.value| then row.(elements := Just(row.elements.value[i := cell]))
      else row
    case Named(key) => row.(props := row.props[key := CellOf(cell)])
    case InTable(t, key) =>
      if t in row.props && row.props[t].TableOf? then
        row.(props := row.props[t := TableOf(row.props[t].cells[key := cell])])
      else row
  }

  /** Where a column's value goes. */
  function TargetOf(o: Options, f: Field, i: nat): Target {
    if o.rowsAsArray then Element(i)
    else match o.nestTables
      case NoNest => Named(f.name)
      case NestTables => InTable(f.table, f.name)
      case NestWith(separator) => Named(f.table + separator + f.name)
  }

  function Store<V>(row: Row<V>, target: Target, cell: Cell<V>): Row<V> {
    Put(if target.InTable? then EnsureTable(row, target.table) else row, target, cell)
  }

  // ---------------------------------------------------------------- generated code

  datatype CodeTarget = ElementCode(i: nat) | NamedCode(literal: Str) | InTableCode(table: Str, key: Str)

  datatype Instr =
    | NewArray(n: nat)
    | NewObject
    | SkipByte
    | ReadNullByte
    | NewTable(literal: Str)
    | EnsureTableCode(literal: Str)
    | Assign(target: CodeTarget, read: CodeRead)
    | AssignUnlessNull(byteIndex: nat, bit: nat, target: CodeTarget, read: CodeRead)

  /** A generated parser: whether its constructor checks the time zone, and its `next`. */
  datatype Code = Code(checkTimezone: bool, body: seq<Instr>)

  datatype Machine<V> = Machine(row: Row<V>, nullBytes: seq<Maybe<Byte>>, offset: nat)

  function ResolveTarget(t: CodeTarget): Maybe<Target> {
    match t
    case ElementCode(i) => Just(Element(i))
    case NamedCode(k) => if LiteralValue(k).Just? then Just(Named(LiteralValue(k).value)) else Nothing
    case InTableCode(t, k) =>
      if LiteralValue(t).Just? && LiteralValue(k).Just? then Just(InTable(LiteralValue(t).value, LiteralValue(k).value))
      else Nothing
  }

  /** `readInt8`: past the end of the buffer it gives `undefined`. */
  function ByteOf(b: Buffer, offset: nat): Maybe<Byte> {
    if offset < |b| then Just(b[offset]) else Nothing
  }

  /** `byte & bit` for a single bit; `undefined` has no bits. */
  predicate HasBit(byte: Maybe<Byte>, bit: nat)
    requires bit > 0
  {
    byte.Just? && byte.value / bit % 2 == 1
  }

  function AssignCell<V>(m: Machine<V>, rd: Reader<V>, b: Buffer, fields: seq<Field>, target: CodeTarget,
                         read: CodeRead): Maybe<Machine<V>> {
    var t, r := ResolveTarget(target), Resolve(read, fields);
    if t.Nothing? || r.Nothing? then Nothing
    else
      var (cell, end) := ReadCell(rd, r.value, b, m.offset);
      Just(m.(row := Put(m.row, t.value, cell), offset := end))
  }

  /** One statement; nothing when it is not valid code. */
  function Eval1<V>(m: Machine<V>, rd: Reader<V>, b: Buffer, fields: seq<Field>, i: Instr): Maybe<Machine<V>> {
    match i
    case NewArray(n) => Just(m.(row := Row(Just(seq(n, _ => Hole)), map[])))
    case NewObject => Just(m.(row := Row(Nothing, map[])))
    case SkipByte => Just(m.(offset := m.offset + 1))
    case ReadNullByte => Just(m.(nullBytes := m.nullBytes + [ByteOf(b, m.offset)], offset := m.offset + 1))
    case NewTable(t) =>
      if LiteralValue(t).Nothing? then Nothing
      else Just(m.(row := m.row.(props := m.row.props[LiteralValue(t).value := TableOf(map[])])))
    case EnsureTableCode(t) =>
      if LiteralValue(t).Just? then Just(m.(row := EnsureTable(m.row, LiteralValue(t).value))) else Nothing
    case Assign(target, read) => AssignCell(m, rd, b, fields, target, read)
    case AssignUnlessNull(k, bit, target, read) =>
      if k >= |m.nullBytes| || bit == 0 || ResolveTarget(target).Nothing? then Nothing
      else if HasBit(m.nullBytes[k], bit) then Just(m.(row := Put(m.row, ResolveTarget(target).value, Null)))
      else AssignCell(m, rd, b, fields, target, read)
  }

  function Eval<V>(m: Machine<V>, rd: Reader<V>, b: Buffer, fields: seq<Field>, code: seq<Instr>): Maybe<Machine<V>> {
    if code == [] then Just(m)
    else
      var before := Eval(m, rd, b, fields, code[..|code| - 1]);
      if before.Nothing? then Nothing else Eval1(before.value, rd, b, fields, code[|code| - 1])
  }

  lemma EvalSnoc<V>(m: Machine<V>, rd: Reader<V>, b: Buffer, fields: seq<Field>, code: seq<Instr>, i: Instr)
    ensures var before := Eval(m, rd, b, fields, code);
            Eval(m, rd, b, fields, code + [i]) ==
            if before.Nothing? then Nothing else Eval1(before.value, rd, b, fields, i)
  {
    hide Eval1;
    assert (code + [i])[..|code|] == code;
  }

  /** The literals of a generated target denote the column's own names. */
  lemma TargetRoundTrip(table: Str, key: Str)
    ensures ResolveTarget(NamedCode(Quote(key))) == Just(Named(key))
    ensures ResolveTarget(InTableCode(Quote(table), Quote(key))) == Just(InTable(table, key))
    ensures LiteralValue(Quote(table)) == Just(table)
  {
    hide LiteralValue, Quote;
    QuoteRoundTrip(table);
    QuoteRoundTrip(key);
  }

  // ---------------------------------------------------------------- what both generators do alike

  /** A name the generator refuses: it checks the column name in every mode. */
  predicate CompileRejects(o: Options, f: Field) {
    || IsPrivate(f.name)
    || (o.nestTables.NestWith? && IsPrivate(f.table + o.nestTables.separator + f.name))
    || (o.nestTables.NestTables? && IsPrivate(f.table))
  }

  function CodeTargetOf(o: Options, f: Field, i: nat): CodeTarget {
    match o.nestTables
    case NestWith(separator) => NamedCode(Quote(f.table + separator + f.name))
    case NestTables => InTableCode(Quote(f.table), Quote(f.name))
    case NoNest => if o.rowsAsArray then ElementCode(i) else NamedCode(Quote(f.name))
  }

  /** Rows are to be arrays and to have their columns under names, both. */
  predicate BothSet(o: Options) {
    o.rowsAsArray && !o.nestTables.NoNest?
  }

  /** Where the generated code puts a column's value: with both options it prefers the names. */
  function GeneratedTarget(o: Options, f: Field, i: nat): Target {
    match o.nestTables
    case NestWith(separator) => Named(f.table + separator + f.name)
    case NestTables => InTable(f.table, f.name)
    case NoNest => if o.rowsAsArray then Element(i) else Named(f.name)
  }

  /** With both options set, a property of the row that an array takes for an element or for its length. */
  predicate UsesArrayKey(o: Options, f: Field) {
    && BothSet(o)
    && (o.nestTables.NestWith? ==> IsArrayKey(f.table + o.nestTables.separator + f.name))
    && (o.nestTables.NestTables? ==> IsArrayKey(f.table))
  }

  predicate SomeArrayKey(fields: seq<Field>, o: Options) {
    exists f :: f in fields && UsesArrayKey(o, f)
  }

  lemma CodeTargetDenotes(o: Options, f: Field, i: nat)
    ensures ResolveTarget(CodeTargetOf(o, f, i)) == Just(GeneratedTarget(o, f, i))
  {
    hide Quote, LiteralValue;
    TargetRoundTrip(f.table, f.name);
    if o.nestTables.NestWith? {
      TargetRoundTrip([], f.table + o.nestTables.separator + f.name);
    }
  }

  /** The generated assignment goes where the interpreter puts the value, exactly when `rowsAsArray` and
      `nestTables` are not both set: the generator then prefers the names, the interpreter the array. */
  lemma TargetsAgree(o: Options, f: Field, i: nat)
    ensures ResolveTarget(CodeTargetOf(o, f, i)) == Just(TargetOf(o, f, i)) <==> !BothSet(o)
  {
    hide CodeTargetOf, ResolveTarget;
    CodeTargetDenotes(o, f, i);
  }

  /** A result of one column whose rows are to be arrays with the columns under their tables. */
  lemma OneColumn() returns (fields: seq<Field>, o: Options)
    ensures |fields| == 1 && BothSet(o) && !SomeArrayKey(fields, o) && !CompileRejects(o, fields[0]) && o.timezone.Just?
    ensures fields[0].columnType == LONG
  {
    hide DecimalValue;
    o := Options(true, NestTables, CastDefault, false, false, false, false, Just(Text("local")), NoDateStrings);
    fields := [Field(LONG, 63, 0, 0, Text("id"), Text("user"), Text("binary"), Nothing, Nothing)];
    assert Text("user")[0] == 0x75 && Text("user")[0] in Text("user");
  }

  lemma TimezoneRoundTrip(timezone: Maybe<Str>)
    ensures LiteralValue(TimezoneLiteral(timezone)) == timezone <==> timezone.Just?
    ensures LiteralValue(TimezoneLiteral(timezone)).Just?
  {
    hide LiteralValue, Quote;
    QuoteRoundTrip(if timezone.Just? then timezone.value else Text("undefined"));
  }
}
