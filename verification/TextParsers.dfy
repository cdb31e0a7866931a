/** The text protocol's row parsers: the generator of lib/parsers/text_parser.js and the interpreter
    of lib/parsers/static_text_parser.js, which must agree. */
module TextParsers {
  import opened Bytes
  import opened JsLiterals
  import LengthCoded
  import opened Maybes
  import opened Rows

  // ---------------------------------------------------------------- one column

  /** The interpreter's case split, `readField`: a column of type NULL is read like a decimal. */
  function ReadOf(f: Field, o: Options, c: Options): Read {
    var big := SupportBigNumbers(o, c);
    var dates := DateStringsFor(o, c);
    var t := f.columnType;
    if IsJsonFormat(f) then
      if c.jsonStrings then LengthCodedString(Given(f.encoding)) else JsonValue(Given(f.encoding), big)
    else if t == TINY || t == SHORT || t == LONG || t == INT24 || t == YEAR then IntNoBigCheck
    else if t == LONGLONG then
      if big && BigNumberStrings(o, c) then IntString else Int(big)
    else if t == FLOAT || t == DOUBLE then LengthCodedFloat
    else if t == NULL || t == DECIMAL || t == NEWDECIMAL then
      if c.decimalNumbers then LengthCodedFloat else LengthCodedString(Ascii)
    else if t == DATE then
      if TypeMatch(t, dates) then LengthCodedString(Ascii) else ParseDate(Timezone(o, c))
    else if t == DATETIME || t == TIMESTAMP then
      if TypeMatch(t, dates) then LengthCodedString(Ascii) else ParseDateTime(Timezone(o, c))
    else if t == TIME then LengthCodedString(Ascii)
    else if t == GEOMETRY then GeometryValue
    else if t == VECTOR then VectorValue
    else if t == JSON then
      if c.jsonStrings then LengthCodedString(Utf8) else JsonValue(Utf8, big)
    else if f.characterSet == CHARSET_BINARY then LengthCodedBuffer
    else LengthCodedString(Given(f.encoding))
  }

  /** The generator's case split, `readCodeFor`; the encoding expression names column `fieldNum`. */
  function ReadCodeFor(f: Field, fieldNum: nat, c: Options, o: Options): CodeRead {
    var big := SupportBigNumbers(o, c);
    var zone := TimezoneLiteral(Timezone(o, c));
    if IsJsonFormat(f) then
      if c.jsonStrings then StringInEncodingOf(fieldNum) else JsonInEncodingOf(fieldNum, big)
    else if f.columnType in {TINY, SHORT, LONG, INT24, YEAR} then Direct(IntNoBigCheck)
    else if f.columnType == LONGLONG then Direct(if big && BigNumberStrings(o, c) then IntString else Int(big))
    else if f.columnType in {FLOAT, DOUBLE} then Direct(LengthCodedFloat)
    else if f.columnType == NULL then Direct(LengthCodedNumber)
    else if f.columnType in {DECIMAL, NEWDECIMAL} then
      Direct(if c.decimalNumbers then LengthCodedFloat else LengthCodedString(Ascii))
    else if f.columnType == DATE then
      if TypeMatch(f.columnType, DateStringsFor(o, c)) then Direct(LengthCodedString(Ascii)) else ParseDateIn(zone)
    else if f.columnType in {DATETIME, TIMESTAMP} then
      if TypeMatch(f.columnType, DateStringsFor(o, c)) then Direct(LengthCodedString(Ascii)) else ParseDateTimeIn(zone)
    else if f.columnType == TIME then Direct(LengthCodedString(Ascii))
    else if f.columnType == GEOMETRY then Direct(GeometryValue)
    else if f.columnType == VECTOR then Direct(VectorValue)
    else if f.columnType == JSON then
      Direct(if c.jsonStrings then LengthCodedString(Utf8) else JsonValue(Utf8, big))
    else if f.characterSet == CHARSET_BINARY then Direct(LengthCodedBuffer)
    else StringInEncodingOf(fieldNum)
  }

  function CellRead(f: Field, o: Options, c: Options): Read {
    if o.typeCast.CastFalse? then LengthCodedBuffer else ReadOf(f, o, c)
  }

  function CellCode(f: Field, o: Options, c: Options, i: nat): CodeRead {
    if o.typeCast.CastFalse? then Direct(LengthCodedBuffer) else ReadCodeFor(f, i, c, o)
  }

  /** A column read as a Date needs to know the time zone; NEWDATE columns are read as strings here. */
  predicate NeedsTimezone(f: Field, o: Options, c: Options) {
    && !o.typeCast.CastFalse? && !IsJsonFormat(f)
    && f.columnType in {DATE, DATETIME, TIMESTAMP} && !TypeMatch(f.columnType, DateStringsFor(o, c))
  }

  /** A date whose time zone nobody gave; a connection always has one. */
  predicate MissesZone(f: Field, o: Options, c: Options) {
    Timezone(o, c).Nothing? && NeedsTimezone(f, o, c)
  }

  /** A column of type NULL that goes through the case split, as for SELECT NULL. */
  predicate IsNullColumn(f: Field, o: Options) {
    f.columnType == NULL && !o.typeCast.CastFalse? && !IsJsonFormat(f)
  }

  /** The generated reader is the interpreter's, except for a date whose time zone is missing, which the
      generated code takes to be "undefined", and for a column of type NULL, which it reads as a number. */
  lemma ReadersAgree(fields: seq<Field>, i: nat, o: Options, c: Options)
    requires i < |fields|
    ensures Resolve(CellCode(fields[i], o, c, i), fields) == Just(CellRead(fields[i], o, c)) <==>
            !MissesZone(fields[i], o, c) && !IsNullColumn(fields[i], o)
    ensures Resolve(CellCode(fields[i], o, c, i), fields).Just?
  {
    TimezoneRoundTrip(Timezone(o, c));
    hide TimezoneLiteral, LiteralValue, Timezone, TypeMatch, IsJsonFormat;
  }

  lemma NullColumnReads(fields: seq<Field>, i: nat, o: Options, c: Options)
    requires i < |fields| && IsNullColumn(fields[i], o)
    ensures Resolve(CellCode(fields[i], o, c, i), fields) == Just(LengthCodedNumber)
    ensures CellRead(fields[i], o, c) == if c.decimalNumbers then LengthCodedFloat else LengthCodedString(Ascii)
  {
    hide IsJsonFormat, TypeMatch, Timezone;
  }

  /** The values of the length-coded readers: null, numbers and text. */
  datatype Values<!V> = Values(nul: V, number: nat -> V, text: (Encoding, Buffer) -> V)

  /** What the packet's length-coded readers do with a value: the marker 0xfb is null in one byte for all;
      otherwise the number is the length itself, and text and decimals go past as many bytes. */
  ghost predicate ReadsLengthCoded<V(!new)>(rd: Reader<V>, v: Values<V>) {
    && (forall b, at :: LengthCodedAt(rd, v, b, at))
    && (forall n, e, d :: v.number(n) != v.text(e, d))
  }

  ghost predicate LengthCodedAt<V(!new)>(rd: Reader<V>, v: Values<V>, b: Buffer, at: nat) {
    match LengthCoded.ReadLc(b, at)
    case LcNull(end) =>
      && rd(LengthCodedNumber, b, at) == rd(LengthCodedFloat, b, at) == (v.nul, end)
      && forall e :: rd(LengthCodedString(e), b, at) == (v.nul, end)
    case LcNumber(n, end) =>
      && rd(LengthCodedNumber, b, at) == (v.number(n), end)
      && (forall e ::
            && rd(LengthCodedString(e), b, at).1 == end + n
            && exists d :: rd(LengthCodedString(e), b, at).0 == v.text(e, d))
      && (if n == 0 then rd(LengthCodedFloat, b, at) == (v.number(0), end)
          else rd(LengthCodedFloat, b, at).1 >= end + n)
    case LcBad => true
  }

  /** The two readings of a column of type NULL that agree: the marker, which is all a server sends, and an
      empty decimal. */
  predicate NullAgrees(b: Buffer, at: nat, c: Options) {
    var length := LengthCoded.ReadLc(b, at);
    length.LcNull? || (c.decimalNumbers && length.LcNumber? && length.n == 0)
  }

  /** On a value that is not cut short a column of type NULL is read alike exactly then. */
  lemma NullColumnExactly<V(!new)>(rd: Reader<V>, v: Values<V>, b: Buffer, at: nat, c: Options)
    requires ReadsLengthCoded(rd, v) && LengthCoded.ReadLc(b, at) != LengthCoded.LcBad
    ensures var read := if c.decimalNumbers then LengthCodedFloat else LengthCodedString(Ascii);
            rd(LengthCodedNumber, b, at) == rd(read, b, at) <==> NullAgrees(b, at, c)
  {
    hide LengthCoded.ReadLc;
    assert LengthCodedAt(rd, v, b, at);
    var length := LengthCoded.ReadLc(b, at);
    if length.LcNumber? && !c.decimalNumbers {
      assert rd(LengthCodedString(Ascii), b, at).1 == length.end + length.n;
    }
  }

  // ---------------------------------------------------------------- the row

  /** The row after its first `n` columns, and the offset after them. An array grows with its columns. */
  function Columns<V>(rd: Reader<V>, b: Buffer, start: nat, fields: seq<Field>, o: Options, c: Options,
                      n: nat): (r: (Row<V>, nat))
    requires n <= |fields|
    ensures r.0.elements.Just? <==> o.rowsAsArray
    ensures o.rowsAsArray ==> |r.0.elements.value| == n
  {
    if n == 0 then (Row(if o.rowsAsArray then Just([]) else Nothing, map[]), start)
    else
      var (row, offset) := Columns(rd, b, start, fields, o, c, n - 1);
      var f := fields[n - 1];
      var (cell, end) := ReadCell(rd, CellRead(f, o, c), b, offset);
      (if o.rowsAsArray then row.(elements := Just(row.elements.value + [cell]))
       else Store(row, TargetOf(o, f, n - 1), cell), end)
  }

  /** What a text row packet means: its columns one after the other. */
  function TextRow<V>(rd: Reader<V>, b: Buffer, offset: nat, fields: seq<Field>, o: Options,
                      c: Options): (Row<V>, nat) {
    Columns(rd, b, offset, fields, o, c, |fields|)
  }

  // ---------------------------------------------------------------- the interpreter

  /** A name the interpreter refuses: with a separator it looks at the two parts, not at the joined name. */
  predicate Rejects(o: Options, f: Field) {
    !o.rowsAsArray && (IsPrivate(f.name) || (!o.nestTables.NoNest? && IsPrivate(f.table)))
  }

  /** The static parser's `next`. */
  method Next<V>(rd: Reader<V>, b: Buffer, offset: nat, fields: seq<Field>, o: Options, c: Options)
    returns (row: Maybe<Row<V>>, end: nat)
    ensures row.Nothing? <==> exists i :: 0 <= i < |fields| && Rejects(o, fields[i])
    ensures row.Just? ==> (row.value, end) == TextRow(rd, b, offset, fields, o, c)
  {
    hide CellRead, IsPrivate, Put, EnsureTable;
    end := offset;
    var result := Row(if o.rowsAsArray then Just([]) else Nothing, map[]);
    for i := 0 to |fields|
      invariant (result, end) == Columns(rd, b, offset, fields, o, c, i)
      invariant forall j :: 0 <= j < i ==> !Rejects(o, fields[j])
    {
      var f := fields[i];
      var (cell, after) := ReadCell(rd, CellRead(f, o, c), b, end);
      end := after;
      if o.rowsAsArray {
        result := result.(elements := Just(result.elements.value + [cell]));
      } else {
        match o.nestTables {
          case NestWith(separator) =>
            if IsPrivate(f.table) || IsPrivate(f.name) {
              return Nothing, end;
            }
            result := Put(result, Named(f.table + separator + f.name), cell);
          case NestTables =>
            if IsPrivate(f.table) || IsPrivate(f.name) {
              return Nothing, end;
            }
            result := EnsureTable(result, f.table);
            result := Put(result, InTable(f.table, f.name), cell);
          case NoNest =>
            if IsPrivate(f.name) {
              return Nothing, end;
            }
            result := Put(result, Named(f.name), cell);
        }
      }
    }
    row := Just(result);
  }

  // ---------------------------------------------------------------- the generator

  /** The tables of the first `n` columns, each once. */
  function TableList(fields: seq<Field>, n: nat): (tables: seq<Str>)
    requires n <= |fields|
    ensures forall t :: t in tables <==> exists i :: 0 <= i < n && fields[i].table == t
  {
    if n == 0 then []
    else
      var before := TableList(fields, n - 1);
      if fields[n - 1].table in before then before else before + [fields[n - 1].table]
  }

  function TablesOf(fields: seq<Field>, o: Options): seq<Str> {
    if o.nestTables.NestTables? then TableList(fields, |fields|) else []
  }

  function TableCode(tables: seq<Str>): (code: seq<Instr>)
    ensures |code| == |tables|
  {
    seq(|tables|, i requires 0 <= i < |tables| => NewTable(Quote(tables[i])))
  }

  function Prologue(fields: seq<Field>, o: Options): seq<Instr> {
    [if o.rowsAsArray then NewArray(|fields|) else NewObject] + TableCode(TablesOf(fields, o))
  }

  function FieldCode(f: Field, i: nat, o: Options, c: Options): seq<Instr> {
    (if o.nestTables.NestTables? then [EnsureTableCode(Quote(f.table))] else []) +
    [Assign(CodeTargetOf(o, f, i), CellCode(f, o, c, i))]
  }

  function Body(fields: seq<Field>, o: Options, c: Options, n: nat): seq<Instr>
    requires n <= |fields|
  {
    if n == 0 then Prologue(fields, o) else Body(fields, o, c, n - 1) + FieldCode(fields[n - 1], n - 1, o, c)
  }

  /** The generated parser, and nothing when `compile` throws. */
  function Compiled(fields: seq<Field>, o: Options, c: Options): Maybe<Code> {
    if exists i :: 0 <= i < |fields| && CompileRejects(o, fields[i]) then Nothing
    else Just(Code(SomeUseLocalDate(fields, o, c), Body(fields, o, c, |fields|)))
  }

  method Compile(fields: seq<Field>, o: Options, c: Options) returns (code: Maybe<Code>)
    ensures code == Compiled(fields, o, c)
  {
    hide CellCode, CompileRejects, Quote, SomeUseLocalDate, CodeTargetOf;
    var checkTimezone := SomeUseLocalDate(fields, o, c);
    var body := [if o.rowsAsArray then NewArray(|fields|) else NewObject];
    if o.nestTables.NestTables? {
      var resultTables: seq<Str> := [];
      for i := 0 to |fields|
        invariant resultTables == TableList(fields, i)
      {
        if fields[i].table !in resultTables {
          resultTables := resultTables + [fields[i].table];
        }
      }
      ghost var opening := body;
      for i := 0 to |resultTables|
        invariant body == opening + TableCode(resultTables[..i])
      {
        assert TableCode(resultTables[..i + 1]) == TableCode(resultTables[..i]) + [NewTable(Quote(resultTables[i]))];
        body := body + [NewTable(Quote(resultTables[i]))];
      }
      assert resultTables[..|resultTables|] == TablesOf(fields, o);
    }
    assert body == Prologue(fields, o);
    for i := 0 to |fields|
      invariant body == Body(fields, o, c, i)
      invariant forall j :: 0 <= j < i ==> !CompileRejects(o, fields[j])
    {
      if CompileRejects(o, fields[i]) {
        return Nothing;
      }
      ghost var before := body;
      if o.nestTables.NestTables? {
        body := body + [EnsureTableCode(Quote(fields[i].table))];
      }
      body := body + [Assign(CodeTargetOf(o, fields[i], i), CellCode(fields[i], o, c, i))];
      assert body == before + FieldCode(fields[i], i, o, c);
    }
    code := Just(Code(checkTimezone, body));
  }

  // ---------------------------------------------------------------- running the generated code

  /** The row the generated code starts from: every element is there, and every table. */
  function Opening<V>(fields: seq<Field>, o: Options): Row<V> {
    Row(if o.rowsAsArray then Just(seq(|fields|, _ => Hole)) else Nothing, EmptyTables(TablesOf(fields, o)))
  }

  function EmptyTables<V>(tables: seq<Str>): map<Str, Prop<V>> {
    map t | t in tables :: TableOf(map[])
  }

  /** The generated code's row after `n` columns. */
  function Filled<V>(rd: Reader<V>, b: Buffer, start: nat, fields: seq<Field>, o: Options, c: Options,
                     n: nat): (r: (Row<V>, nat))
    requires n <= |fields|
    ensures forall t :: t in TablesOf(fields, o) ==> t in r.0.props
  {
    if n == 0 then (Opening(fields, o), start)
    else
      var (row, offset) := Filled(rd, b, start, fields, o, c, n - 1);
      var f := fields[n - 1];
      var (cell, end) := ReadCell(rd, CellRead(f, o, c), b, offset);
      (Put(row, GeneratedTarget(o, f, n - 1), cell), end)
  }

  lemma {:induction false} TablesRun<V>(m: Machine<V>, rd: Reader<V>, b: Buffer, fields: seq<Field>, code: seq<Instr>,
                                        tables: seq<Str>)
    requires Eval(m, rd, b, fields, code).Just? && Eval(m, rd, b, fields, code).value.row.props == map[]
    ensures var n := Eval(m, rd, b, fields, code).value;
            Eval(m, rd, b, fields, code + TableCode(tables)) == Just(n.(row := n.row.(props := EmptyTables(tables))))
  {
    hide Eval, Quote, LiteralValue;
    if tables == [] {
      assert code + TableCode(tables) == code;
      assert EmptyTables<V>(tables) == map[];
    } else {
      var fewer, last := tables[..|tables| - 1], tables[|tables| - 1];
      TablesRun(m, rd, b, fields, code, fewer);
      assert code + TableCode(tables) == (code + TableCode(fewer)) + [NewTable(Quote(last))];
      EvalSnoc(m, rd, b, fields, code + TableCode(fewer), NewTable(Quote(last)));
      TargetRoundTrip(last, []);
      assert EmptyTables<V>(tables) == EmptyTables(fewer)[last := TableOf(map[])];
    }
  }

  lemma PrologueRun<V>(m: Machine<V>, rd: Reader<V>, b: Buffer, fields: seq<Field>, o: Options)
    ensures Eval(m, rd, b, fields, Prologue(fields, o)) == Just(m.(row := Opening(fields, o)))
  {
    var first := if o.rowsAsArray then NewArray(|fields|) else NewObject;
    assert Eval(m, rd, b, fields, []) == Just(m);
    hide Eval;
    EvalSnoc(m, rd, b, fields, [], first);
    assert [] + [first] == [first];
    TablesRun(m, rd, b, fields, [first], TablesOf(fields, o));
  }

  lemma {:induction false} SameOffset<V>(rd: Reader<V>, b: Buffer, offset: nat, fields: seq<Field>, o: Options,
                                         c: Options, n: nat)
    requires n <= |fields|
    ensures Filled(rd, b, offset, fields, o, c, n).1 == Columns(rd, b, offset, fields, o, c, n).1
  {
    hide Put, Store, ReadCell, CellRead, Opening;
    if n > 0 {
      SameOffset(rd, b, offset, fields, o, c, n - 1);
    }
  }

  /** The generated reader does here what the interpreter's does. */
  ghost predicate Alike<V>(rd: Reader<V>, b: Buffer, at: nat, fields: seq<Field>, i: nat, o: Options, c: Options)
    requires i < |fields|
  {
    var read := Resolve(CellCode(fields[i], o, c, i), fields);
    read.Just? && ReadCell(rd, read.value, b, at) == ReadCell(rd, CellRead(fields[i], o, c), b, at)
  }

  /** The statements of one column: its table is already there. */
  lemma FieldRun<V>(m: Machine<V>, rd: Reader<V>, b: Buffer, fields: seq<Field>, o: Options, c: Options,
                    code: seq<Instr>, i: nat)
    requires i < |fields| && Eval(m, rd, b, fields, code).Just?
    requires o.nestTables.NestTables? ==> fields[i].table in Eval(m, rd, b, fields, code).value.row.props
    requires Alike(rd, b, Eval(m, rd, b, fields, code).value.offset, fields, i, o, c)
    ensures var n := Eval(m, rd, b, fields, code).value;
            var (cell, end) := ReadCell(rd, CellRead(fields[i], o, c), b, n.offset);
            Eval(m, rd, b, fields, code + FieldCode(fields[i], i, o, c)) ==
            Just(n.(row := Put(n.row, GeneratedTarget(o, fields[i], i), cell), offset := end))
  {
    hide Eval, CellCode, CellRead, Resolve, ResolveTarget, CodeTargetOf, GeneratedTarget, Put, ReadCell, Quote,
      LiteralValue, IsInherited, IsArrayMethod;
    var f := fields[i];
    CodeTargetDenotes(o, f, i);
    TargetRoundTrip(f.table, f.name);
    var assign := Assign(CodeTargetOf(o, f, i), CellCode(f, o, c, i));
    if o.nestTables.NestTables? {
      var ensure := EnsureTableCode(Quote(f.table));
      assert code + FieldCode(f, i, o, c) == (code + [ensure]) + [assign];
      EvalSnoc(m, rd, b, fields, code, ensure);
      EvalSnoc(m, rd, b, fields, code + [ensure], assign);
    } else {
      assert code + FieldCode(f, i, o, c) == code + [assign];
      EvalSnoc(m, rd, b, fields, code, assign);
    }
  }

  lemma {:induction false} BodyRun<V>(rd: Reader<V>, b: Buffer, offset: nat, fields: seq<Field>, o: Options, c: Options,
                                      n: nat)
    requires n <= |fields|
    requires forall i :: 0 <= i < |fields| ==> Alike(rd, b, Columns(rd, b, offset, fields, o, c, i).1, fields, i, o, c)
    ensures var (row, end) := Filled(rd, b, offset, fields, o, c, n);
            Eval(Machine(Row(Nothing, map[]), [], offset), rd, b, fields, Body(fields, o, c, n)) ==
              Just(Machine(row, [], end))
  {
    hide Eval, FieldCode, Put, GeneratedTarget, ReadCell, Alike, Opening, Prologue, TableList, Columns;
    var m := Machine(Row(Nothing, map[]), [], offset);
    if n == 0 {
      PrologueRun(m, rd, b, fields, o);
    } else {
      BodyRun(rd, b, offset, fields, o, c, n - 1);
      SameOffset(rd, b, offset, fields, o, c, n - 1);
      TableListed(fields, n - 1);
      FieldRun(m, rd, b, fields, o, c, Body(fields, o, c, n - 1), n - 1);
    }
  }

  lemma TableListed(fields: seq<Field>, i: nat)
    requires i < |fields|
    ensures fields[i].table in TableList(fields, |fields|)
  {
  }

  // ---------------------------------------------------------------- the two rows

  /** The generated code's row seen from the interpreter's: the missing elements are holes, the missing tables empty. */
  ghost predicate Widens<V>(wide: Row<V>, row: Row<V>, fields: seq<Field>, o: Options, n: nat)
    requires n <= |fields|
  {
    && wide.elements.Just? == row.elements.Just? == o.rowsAsArray
    && (o.rowsAsArray ==>
        |row.elements.value| == n && wide.elements.value == row.elements.value + seq(|fields| - n, _ => Hole))
    && wide.props.Keys == row.props.Keys + (set t | t in TablesOf(fields, o))
    && (forall t :: t in wide.props ==> wide.props[t] == if t in row.props then row.props[t] else TableOf(map[]))
    && (o.nestTables.NestTables? ==> forall i :: 0 <= i < n ==> fields[i].table in row.props)
    && (o.nestTables.NestTables? ==> forall t :: t in row.props ==> row.props[t].TableOf?)
  }

  predicate SomeInherited(fields: seq<Field>, o: Options) {
    o.nestTables.NestTables? && exists f :: f in fields && IsInherited(f.table)
  }

  lemma ElementWidens<V>(wide: Row<V>, row: Row<V>, fields: seq<Field>, o: Options, i: nat, cell: Cell<V>)
    requires i < |fields| && Widens(wide, row, fields, o, i) && o.rowsAsArray && o.nestTables.NoNest?
    ensures Widens(Put(wide, Element(i), cell), row.(elements := Just(row.elements.value + [cell])), fields, o, i + 1)
  {
    hide TableList;
    var before := row.elements.value;
    assert (before + seq(|fields| - i, _ => Hole))[i := cell] == (before + [cell]) + seq(|fields| - i - 1, _ => Hole);
  }

  lemma NamedWidens<V>(wide: Row<V>, row: Row<V>, fields: seq<Field>, o: Options, i: nat, key: Str, cell: Cell<V>)
    requires i < |fields| && Widens(wide, row, fields, o, i) && !o.rowsAsArray && !o.nestTables.NestTables?
    ensures Widens(Put(wide, Named(key), cell), Put(row, Named(key), cell), fields, o, i + 1)
  {
    hide TableList;
    assert wide.props.Keys == row.props.Keys;
    assert wide.props == row.props;
  }

  /** The table is there in both rows once the interpreter has seen to it. */
  lemma TableWidens<V>(wide: Row<V>, row: Row<V>, fields: seq<Field>, o: Options, i: nat)
    requires i < |fields| && Widens(wide, row, fields, o, i) && !o.rowsAsArray && o.nestTables.NestTables?
    requires !IsInherited(fields[i].table)
    ensures var row' := EnsureTable(row, fields[i].table);
            Widens(wide, row', fields, o, i) && fields[i].table in row'.props && fields[i].table in wide.props
  {
    hide TableList, IsInherited;
    TableListed(fields, i);
    var t := fields[i].table;
    assert t in TablesOf(fields, o);
    var row' := EnsureTable(row, t);
    assert row'.props.Keys == row.props.Keys + {t};
    assert wide.props.Keys == row'.props.Keys + (set x | x in TablesOf(fields, o));
  }

  lemma NestedWidens<V>(wide: Row<V>, row: Row<V>, fields: seq<Field>, o: Options, i: nat, key: Str, cell: Cell<V>)
    requires i < |fields| && Widens(wide, row, fields, o, i) && !o.rowsAsArray && o.nestTables.NestTables?
    requires fields[i].table in row.props && fields[i].table in wide.props
    ensures var target := InTable(fields[i].table, key);
            Widens(Put(wide, target, cell), Put(row, target, cell), fields, o, i + 1)
  {
    hide TableList, TablesOf;
    var t, target := fields[i].table, InTable(fields[i].table, key);
    var wide', row' := Put(wide, target, cell), Put(row, target, cell);
    assert row.props[t].TableOf? && wide.props[t] == row.props[t];
    assert wide'.props == wide.props[t := TableOf(row.props[t].cells[key := cell])];
    assert row'.props == row.props[t := TableOf(row.props[t].cells[key := cell])];
    assert wide'.props.Keys == wide.props.Keys && row'.props.Keys == row.props.Keys;
  }

  lemma StoreWidens<V>(wide: Row<V>, row: Row<V>, fields: seq<Field>, o: Options, i: nat, cell: Cell<V>)
    requires i < |fields| && Widens(wide, row, fields, o, i) && !o.rowsAsArray && !SomeInherited(fields, o)
    ensures Widens(Put(wide, GeneratedTarget(o, fields[i], i), cell), Store(row, TargetOf(o, fields[i], i), cell),
                   fields, o, i + 1)
  {
    hide Widens, IsInherited, Put, EnsureTable;
    var f := fields[i];
    assert f in fields;
    match o.nestTables
    case NoNest => NamedWidens(wide, row, fields, o, i, f.name, cell);
    case NestWith(separator) => NamedWidens(wide, row, fields, o, i, f.table + separator + f.name, cell);
    case NestTables =>
      TableWidens(wide, row, fields, o, i);
      NestedWidens(wide, EnsureTable(row, f.table), fields, o, i, f.name, cell);
  }

  lemma {:induction false} FilledWidens<V>(rd: Reader<V>, b: Buffer, offset: nat, fields: seq<Field>, o: Options,
                                           c: Options, n: nat)
    requires n <= |fields| && !BothSet(o) && !SomeInherited(fields, o)
    ensures Widens(Filled(rd, b, offset, fields, o, c, n).0, Columns(rd, b, offset, fields, o, c, n).0, fields, o, n)
  {
    hide SomeInherited, Put, Store, ReadCell, CellRead, TableList;
    if n == 0 {
      assert Widens<V>(Opening(fields, o), Columns(rd, b, offset, fields, o, c, 0).0, fields, o, 0);
    } else {
      hide Widens;
      FilledWidens(rd, b, offset, fields, o, c, n - 1);
      SameOffset(rd, b, offset, fields, o, c, n - 1);
      var wide := Filled(rd, b, offset, fields, o, c, n - 1).0;
      var (row, at) := Columns(rd, b, offset, fields, o, c, n - 1);
      var cell := ReadCell(rd, CellRead(fields[n - 1], o, c), b, at).0;
      if o.rowsAsArray {
        ElementWidens(wide, row, fields, o, n - 1, cell);
      } else {
        StoreWidens(wide, row, fields, o, n - 1, cell);
      }
    }
  }

  /** With both options set the generated code's array keeps its holes. */
  lemma {:induction false} FilledHoles<V>(rd: Reader<V>, b: Buffer, offset: nat, fields: seq<Field>, o: Options,
                                          c: Options, n: nat)
    requires n <= |fields| && BothSet(o)
    ensures Filled(rd, b, offset, fields, o, c, n).0.elements == Just(seq(|fields|, _ => Hole))
  {
    hide ReadCell, CellRead, TablesOf;
    if n > 0 {
      FilledHoles(rd, b, offset, fields, o, c, n - 1);
    }
  }

  /** The interpreter's array has a value for every column read. */
  lemma {:induction false} ColumnsFilled<V>(rd: Reader<V>, b: Buffer, offset: nat, fields: seq<Field>, o: Options,
                                            c: Options, n: nat)
    requires n <= |fields| && o.rowsAsArray
    ensures var row := Columns(rd, b, offset, fields, o, c, n).0;
            row.props == map[] && forall i :: 0 <= i < n ==> !row.elements.value[i].Hole?
  {
    hide CellRead;
    if n > 0 {
      ColumnsFilled(rd, b, offset, fields, o, c, n - 1);
    }
  }

  /** The interpreter never makes a table of its own for a name that objects inherit. */
  lemma {:induction false} NoInheritedTable<V>(rd: Reader<V>, b: Buffer, offset: nat, fields: seq<Field>, o: Options,
                                               c: Options, n: nat, t: Str)
    requires n <= |fields| && !o.rowsAsArray && o.nestTables.NestTables? && IsInherited(t)
    ensures t !in Columns(rd, b, offset, fields, o, c, n).0.props
  {
    hide ReadCell, CellRead, IsInherited;
    if n > 0 {
      NoInheritedTable(rd, b, offset, fields, o, c, n - 1, t);
    }
  }

  /** Every column of type NULL holds a value that both parsers read alike. */
  ghost predicate NullsAgree<V>(rd: Reader<V>, b: Buffer, offset: nat, fields: seq<Field>, o: Options, c: Options) {
    forall i :: 0 <= i < |fields| && IsNullColumn(fields[i], o) ==>
      NullAgrees(b, Columns(rd, b, offset, fields, o, c, i).1, c)
  }

  lemma ColumnsAlike<V(!new)>(rd: Reader<V>, v: Values<V>, b: Buffer, offset: nat, fields: seq<Field>,
                              o: Options, c: Options)
    requires ReadsLengthCoded(rd, v) && NullsAgree(rd, b, offset, fields, o, c)
    requires forall f :: f in fields ==> !MissesZone(f, o, c)
    ensures forall i :: 0 <= i < |fields| ==> Alike(rd, b, Columns(rd, b, offset, fields, o, c, i).1, fields, i, o, c)
  {
    hide Resolve, CellCode, CellRead, MissesZone, IsNullColumn, NullAgrees, Columns, ReadsLengthCoded;
    forall i | 0 <= i < |fields| ensures Alike(rd, b, Columns(rd, b, offset, fields, o, c, i).1, fields, i, o, c) {
      assert fields[i] in fields;
      var at := Columns(rd, b, offset, fields, o, c, i).1;
      ReadersAgree(fields, i, o, c);
      if IsNullColumn(fields[i], o) {
        NullColumnReads(fields, i, o, c);
        NullIsRead(b, at, c);
        NullColumnExactly(rd, v, b, at, c);
      }
    }
  }

  lemma NullIsRead(b: Buffer, at: nat, c: Options)
    requires NullAgrees(b, at, c)
    ensures LengthCoded.ReadLc(b, at) != LengthCoded.LcBad
  {
  }

  /** The two rows are the same exactly when no nested table is called like a property that objects
      inherit, and `rowsAsArray` and `nestTables` are not both set. */
  lemma RowsExactly<V>(rd: Reader<V>, b: Buffer, offset: nat, fields: seq<Field>, o: Options, c: Options)
    ensures var (made, end) := Filled(rd, b, offset, fields, o, c, |fields|);
            var (row, after) := Columns(rd, b, offset, fields, o, c, |fields|);
            end == after && (made == row <==> !SomeInherited(fields, o) && !(BothSet(o) && fields != []))
  {
    hide Filled, Columns, IsInherited, TableList;
    SameOffset(rd, b, offset, fields, o, c, |fields|);
    if BothSet(o) {
      if fields == [] {
        NoColumns(rd, b, offset, fields, o, c);
      } else {
        FilledHoles(rd, b, offset, fields, o, c, |fields|);
        ColumnsFilled(rd, b, offset, fields, o, c, |fields|);
        assert seq<Cell<V>>(|fields|, _ => Hole)[0].Hole?;
      }
    } else if SomeInherited(fields, o) {
      var f :| f in fields && IsInherited(f.table);
      var i :| 0 <= i < |fields| && fields[i] == f;
      TableListed(fields, i);
      NoInheritedTable(rd, b, offset, fields, o, c, |fields|, f.table);
      assert f.table in TablesOf(fields, o);
    } else {
      FilledWidens(rd, b, offset, fields, o, c, |fields|);
      SameRow(Filled(rd, b, offset, fields, o, c, |fields|).0, Columns(rd, b, offset, fields, o, c, |fields|).0, fields,
              o);
    }
  }

  lemma NoColumns<V>(rd: Reader<V>, b: Buffer, offset: nat, fields: seq<Field>, o: Options, c: Options)
    requires fields == [] && o.rowsAsArray
    ensures Filled(rd, b, offset, fields, o, c, 0) == Columns(rd, b, offset, fields, o, c, 0)
  {
    assert TablesOf(fields, o) == [];
    assert EmptyTables<V>(TablesOf(fields, o)) == map[];
    assert seq<Cell<V>>(|fields|, _ => Hole) == [];
    assert Opening<V>(fields, o).elements == Just([]);
  }

  /** Compiler correctness: on every packet the generated code reads up to the interpreter's offset, and it
      gives the interpreter's row, exactly when no nested table is called like a property that fresh
      objects inherit, and `rowsAsArray` and `nestTables` are not both set; the constructor checks the
      time zone when a column needs it. Columns of type NULL hold the null marker, as servers send it, or
      an empty decimal. */
  lemma CompiledIsTextRow<V(!new)>(rd: Reader<V>, v: Values<V>, b: Buffer, offset: nat, fields: seq<Field>,
                                   o: Options, c: Options)
    requires forall f :: f in fields ==> !MissesZone(f, o, c)
    requires ReadsLengthCoded(rd, v) && NullsAgree(rd, b, offset, fields, o, c)
    requires Compiled(fields, o, c).Just? && !SomeArrayKey(fields, o)
    ensures var code := Compiled(fields, o, c).value;
            var (row, end) := TextRow(rd, b, offset, fields, o, c);
            var m := Eval(Machine(Row(Nothing, map[]), [], offset), rd, b, fields, code.body);
            && m.Just? && m.value.offset == end
            && (m.value.row == row <==> !SomeInherited(fields, o) && !(BothSet(o) && fields != []))
            && code.checkTimezone == SomeUseLocalDate(fields, o, c)
  {
    hide Eval, Body, Columns, Filled, MissesZone, SomeInherited, SomeUseLocalDate, CompileRejects, ReadsLengthCoded,
      NullsAgree, Alike, SomeArrayKey;
    ColumnsAlike(rd, v, b, offset, fields, o, c);
    BodyRun(rd, b, offset, fields, o, c, |fields|);
    RowsExactly(rd, b, offset, fields, o, c);
  }

  /** A packet on which they differ: a column of type NULL with the text "1", which no server sends. */
  lemma TextInNullColumn<V(!new)>(rd: Reader<V>, v: Values<V>, f: Field, o: Options, c: Options)
    requires ReadsLengthCoded(rd, v) && IsNullColumn(f, o) && !o.rowsAsArray && o.nestTables.NoNest?
    requires Compiled([f], o, c).Just?
    ensures var m := Eval(Machine(Row(Nothing, map[]), [], 0), rd, [1, 0x31], [f], Compiled([f], o, c).value.body);
            m.Just? && m.value.offset == 1 && TextRow(rd, [1, 0x31], 0, [f], o, c).1 >= 2
  {
    hide Eval, ReadsLengthCoded, CellCode, CellRead, Resolve, CompileRejects, IsNullColumn, CodeTargetOf, TargetOf,
      ResolveTarget;
    var b, start := [1, 0x31], Machine(Row(Nothing, map[]), [], 0);
    NullColumnReads([f], 0, o, c);
    assert LengthCodedAt(rd, v, b, 0) by { ReadersAt(rd, v, b, 0); }
    assert LengthCoded.ReadLc(b, 0) == LengthCoded.LcNumber(1, 1);
    assert rd(LengthCodedString(Ascii), b, 0).1 == 2;
    PrologueRun(start, rd, b, [f], o);
    var assign := Assign(CodeTargetOf(o, f, 0), CellCode(f, o, c, 0));
    CodeTargetDenotes(o, f, 0);
    EvalSnoc(start, rd, b, [f], Prologue([f], o), assign);
    assert Body([f], o, c, 1) == Prologue([f], o) + [assign];
    assert Columns(rd, b, 0, [f], o, c, 0).1 == 0;
  }

  lemma ReadersAt<V(!new)>(rd: Reader<V>, v: Values<V>, b: Buffer, at: nat)
    requires ReadsLengthCoded(rd, v)
    ensures LengthCodedAt(rd, v, b, at)
  {
  }

  /** A nested table on which they differ: one called "constructor". */
  lemma ConstructorTable<V(!new)>(rd: Reader<V>, v: Values<V>, b: Buffer, offset: nat)
      returns (fields: seq<Field>, o: Options)
    requires ReadsLengthCoded(rd, v)
    ensures Compiled(fields, o, o).Just?
    ensures var m := Eval(Machine(Row(Nothing, map[]), [], offset), rd, b, fields, Compiled(fields, o, o).value.body);
            m.Just? && m.value.row != TextRow(rd, b, offset, fields, o, o).0
  {
    hide Eval, Body, TextRow, ReadsLengthCoded;
    o := Options(false, NestTables, CastDefault, false, false, false, false, Just(Text("local")), NoDateStrings);
    var f := Field(LONG, 63, 0, 0, Text("id"), Text("constructor"), Text("binary"), Nothing, Nothing);
    fields := [f];
    PlainNames();
    assert f in fields && IsInherited(f.table);
    assert Compiled(fields, o, o).Just?;
    CompiledIsTextRow(rd, v, b, offset, fields, o, o);
  }

  lemma PlainNames()
    ensures !IsPrivate(Text("id")) && !IsPrivate(Text("constructor"))
  {
    assert |Text("id")| == 2 && |Text("constructor")| == 11;
    assert |Text("__defineGetter__")| == 16 && |Text("__lookupGetter__")| == 16 && |Text("__proto__")| == 9;
  }

  lemma SameRow<V>(wide: Row<V>, row: Row<V>, fields: seq<Field>, o: Options)
    requires Widens(wide, row, fields, o, |fields|)
    ensures wide == row
  {
    assert forall t :: t in TablesOf(fields, o) ==> t in row.props;
    assert wide.props.Keys == row.props.Keys;
    assert wide.props == row.props;
    if o.rowsAsArray {
      assert wide.elements.value == row.elements.value;
    }
  }

  /** Rows on which they differ: one column, with `rowsAsArray` and `nestTables`. */
  lemma ArrayWithTables<V(!new)>(rd: Reader<V>, v: Values<V>, b: Buffer, offset: nat)
      returns (fields: seq<Field>, o: Options)
    requires ReadsLengthCoded(rd, v)
    ensures Compiled(fields, o, o).Just?
    ensures var m := Eval(Machine(Row(Nothing, map[]), [], offset), rd, b, fields, Compiled(fields, o, o).value.body);
            m.Just? && m.value.row != TextRow(rd, b, offset, fields, o, o).0
  {
    hide Eval, Body, TextRow, ReadsLengthCoded, SomeArrayKey, CompileRejects;
    fields, o := OneColumn();
    CompiledIsTextRow(rd, v, b, offset, fields, o, o);
  }

  /** When the generator and the interpreter disagree about refusing a column: in array mode only the
      generator looks at names, and with a separator they look at different joins of them. */
  lemma RefusalsAgree(o: Options, f: Field)
    ensures CompileRejects(o, f) != Rejects(o, f) <==>
            if o.rowsAsArray then
              || IsPrivate(f.name)
              || (o.nestTables.NestTables? && IsPrivate(f.table))
              || (o.nestTables.NestWith? && IsPrivate(f.table + o.nestTables.separator + f.name))
            else o.nestTables.NestWith? && !IsPrivate(f.name) &&
                 IsPrivate(f.table + o.nestTables.separator + f.name) != IsPrivate(f.table)
  {
    hide IsPrivate;
  }

  /** Such a column: one called "__proto__" in array mode. */
  lemma PrivateInArray(f: Field, o: Options)
    requires f.name == Text("__proto__") && o.rowsAsArray
    ensures CompileRejects(o, f) && !Rejects(o, f)
  {
  }
}
