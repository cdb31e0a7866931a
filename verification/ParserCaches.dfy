/** lib/parsers/parser_cache.js: generated row parsers stand in buckets by a hash of what the generators
    look at; an entry is reused only for a request with its whole key. */
module ParserCaches {
  import opened Bytes
  import opened JsLiterals
  import opened Maybes
  import opened Rows
  import BinaryParsers
  import BitMasks
  import TextParsers

  datatype Kind = Binary | Textual

  /** The arguments of `getParser`. */
  datatype Request = Request(kind: Kind, fields: seq<Field>, options: Options, config: Options)

  /** What the generator makes for a request. */
  function CompiledFor(r: Request): Maybe<Code> {
    match r.kind
    case Binary => BinaryParsers.Compiled(r.fields, r.options, r.config)
    case Textual => TextParsers.Compiled(r.fields, r.options, r.config)
  }

  // ---------------------------------------------------------------- keys

  function TypeCastKind(t: TypeCast): nat {
    if t.CastFalse? then 1 else 3
  }

  /** `String(options.timezone || config.timezone)`. */
  function TimezoneKey(r: Request): Str {
    var timezone := Timezone(r.options, r.config);
    if timezone.Just? then timezone.value else Text("undefined")
  }

  function DatesKey(r: Request): DateStrings {
    DateStringsFor(r.options, r.config)
  }

  function Bit(b: bool, value: nat): nat {
    if b then value else 0
  }

  /** The bits are disjoint, so their union is their sum. The decimal flag is that of the options. */
  function OptionBits(r: Request): nat {
    Bit(r.kind.Binary?, 1) + Bit(r.options.rowsAsArray, 2) + Bit(SupportBigNumbers(r.options, r.config), 4)
    + Bit(BigNumberStrings(r.options, r.config), 8) + TypeCastKind(r.options.typeCast) * 16
    + Bit(r.options.decimalNumbers, 64) + Bit(r.config.jsonStrings, 128)
    + Bit(r.options.nestTables.NestTables?, 256) + Bit(r.options.nestTables.NestWith?, 512)
    + Bit(DatesKey(r).AllDateStrings?, 1024) + Bit(DatesKey(r).DateStringsOf?, 2048)
  }

  datatype Entry = Entry(
    parser: Code,
    nestTables: Nest, dateStrings: DateStrings,
    optionBits: nat, timezone: Str,
    columnTypes: seq<nat>, characterSets: seq<nat>,
    flags: seq<nat>, decimals: seq<nat>,
    names: seq<Str>, extendedTypeNames: seq<Maybe<Str>>,
    extendedFormats: seq<Maybe<Str>>, tables: Maybe<seq<Str>>)

  /** An entry's lists all have the length of the result set; the tables are there when rows are nested. */
  predicate Whole(e: Entry) {
    && |e.columnTypes| == |e.characterSets| == |e.flags| == |e.decimals| == |e.names|
    && |e.extendedTypeNames| == |e.extendedFormats| == |e.names|
    && (e.tables.Just? <==> !e.nestTables.NoNest?) && (e.tables.Just? ==> |e.tables.value| == |e.names|)
  }

  type KeyedEntry = e: Entry | Whole(e)
    witness Entry(Code(false, []), NoNest, NoDateStrings, 0, [], [], [], [], [], [], [], [], Nothing)

  function NewEntry(parser: Code, r: Request): KeyedEntry {
    var n, fs := |r.fields|, r.fields;
    Entry(parser, r.options.nestTables, DatesKey(r), OptionBits(r), TimezoneKey(r),
          seq(n, i requires 0 <= i < n => fs[i].columnType), seq(n, i requires 0 <= i < n => fs[i].characterSet),
          seq(n, i requires 0 <= i < n => fs[i].flags), seq(n, i requires 0 <= i < n => fs[i].decimals),
          seq(n, i requires 0 <= i < n => fs[i].name),
          seq(n, i requires 0 <= i < n => fs[i].extendedTypeName),
            seq(n, i requires 0 <= i < n => fs[i].extendedFormat),
          if r.options.nestTables.NoNest? then Nothing else Just(seq(n, i requires 0 <= i < n => fs[i].table)))
  }

  predicate ColumnMatches(e: KeyedEntry, i: nat, f: Field)
    requires i < |e.names|
  {
    && e.columnTypes[i] == f.columnType && e.characterSets[i] == f.characterSet && e.flags[i] == f.flags
    && e.decimals[i] == f.decimals && e.names[i] == f.name && e.extendedTypeNames[i] == f.extendedTypeName
    && e.extendedFormats[i] == f.extendedFormat && (e.tables.Just? ==> e.tables.value[i] == f.table)
  }

  /** `matches`. */
  predicate Matches(e: KeyedEntry, r: Request) {
    && e.optionBits == OptionBits(r) && e.nestTables == r.options.nestTables && e.timezone == TimezoneKey(r)
    && |e.names| == |r.fields|
    && (DatesKey(r).DateStringsOf? ==> e.dateStrings == DatesKey(r))
    && forall i :: 0 <= i < |r.fields| ==> ColumnMatches(e, i, r.fields[i])
  }

  /** Two columns are alike when they differ at most in the encoding and, unless rows are nested, the table. */
  predicate AlikeColumns(f: Field, g: Field, nested: bool) {
    f == g.(encoding := f.encoding, table := f.table) && (nested ==> f.table == g.table)
  }

  /** Two requests with the same key: everything it records is the same. */
  ghost predicate SameKey(a: Request, b: Request) {
    && a.kind == b.kind && a.options.rowsAsArray == b.options.rowsAsArray
    && SupportBigNumbers(a.options, a.config) == SupportBigNumbers(b.options, b.config)
    && BigNumberStrings(a.options, a.config) == BigNumberStrings(b.options, b.config)
    && a.options.typeCast == b.options.typeCast && a.options.decimalNumbers == b.options.decimalNumbers
    && a.config.jsonStrings == b.config.jsonStrings && a.options.nestTables == b.options.nestTables
    && DatesKey(a) == DatesKey(b) && TimezoneKey(a) == TimezoneKey(b) && |a.fields| == |b.fields|
    && forall i :: 0 <= i < |a.fields| ==> AlikeColumns(a.fields[i], b.fields[i], !a.options.nestTables.NoNest?)
  }

  /** Four of the option bits. */
  function Nibble(a: bool, b: bool, c: bool, d: bool): (n: nat)
    ensures n < 16
  {
    Bit(a, 1) + Bit(b, 2) + Bit(c, 4) + Bit(d, 8)
  }

  lemma NibbleInjective(a: bool, b: bool, c: bool, d: bool, a': bool, b': bool, c': bool, d': bool)
    requires Nibble(a, b, c, d) == Nibble(a', b', c', d')
    ensures a == a' && b == b' && c == c' && d == d'
  {
  }

  function LowBits(r: Request): nat {
    Nibble(r.kind.Binary?, r.options.rowsAsArray, SupportBigNumbers(r.options, r.config),
           BigNumberStrings(r.options, r.config))
  }

  function MiddleBits(r: Request): nat {
    Nibble(true, !r.options.typeCast.CastFalse?, r.options.decimalNumbers, r.config.jsonStrings)
  }

  function HighBits(r: Request): nat {
    Nibble(r.options.nestTables.NestTables?, r.options.nestTables.NestWith?, DatesKey(r).AllDateStrings?,
           DatesKey(r).DateStringsOf?)
  }

  lemma BitScale(b: bool, value: nat, scale: nat)
    ensures Bit(b, value * scale) == Bit(b, value) * scale
  {
  }

  lemma OptionNibbles(r: Request)
    ensures OptionBits(r) == LowBits(r) + 16 * MiddleBits(r) + 256 * HighBits(r)
    ensures LowBits(r) < 16 && MiddleBits(r) < 16
  {
    assert TypeCastKind(r.options.typeCast) == Bit(true, 1) + Bit(!r.options.typeCast.CastFalse?, 2);
    BitScale(r.options.decimalNumbers, 4, 16);
    BitScale(r.config.jsonStrings, 8, 16);
    BitScale(r.options.nestTables.NestTables?, 1, 256);
    BitScale(r.options.nestTables.NestWith?, 2, 256);
    BitScale(DatesKey(r).AllDateStrings?, 4, 256);
    BitScale(DatesKey(r).DateStringsOf?, 8, 256);
    hide Bit, TypeCastKind, DatesKey, SupportBigNumbers, BigNumberStrings;
  }

  /** The option bits tell apart everything they are made from. */
  lemma OptionBitsInjective(a: Request, b: Request)
    ensures OptionBits(a) == OptionBits(b) <==>
            && a.kind == b.kind && a.options.rowsAsArray == b.options.rowsAsArray
            && SupportBigNumbers(a.options, a.config) == SupportBigNumbers(b.options, b.config)
            && BigNumberStrings(a.options, a.config) == BigNumberStrings(b.options, b.config)
            && a.options.typeCast == b.options.typeCast && a.options.decimalNumbers == b.options.decimalNumbers
            && a.config.jsonStrings == b.config.jsonStrings
            && a.options.nestTables.NestTables? == b.options.nestTables.NestTables?
            && a.options.nestTables.NestWith? == b.options.nestTables.NestWith?
            && DatesKey(a).AllDateStrings? == DatesKey(b).AllDateStrings?
            && DatesKey(a).DateStringsOf? == DatesKey(b).DateStringsOf?
  {
    hide DatesKey, SupportBigNumbers, BigNumberStrings, OptionBits, Nibble;
    OptionNibbles(a);
    OptionNibbles(b);
    if OptionBits(a) == OptionBits(b) {
      var o, c, o', c' := a.options, a.config, b.options, b.config;
      assert HighBits(a) == HighBits(b) && MiddleBits(a) == MiddleBits(b) && LowBits(a) == LowBits(b);
      NibbleInjective(a.kind.Binary?, o.rowsAsArray, SupportBigNumbers(o, c), BigNumberStrings(o, c),
                      b.kind.Binary?, o'.rowsAsArray, SupportBigNumbers(o', c'), BigNumberStrings(o', c'));
      NibbleInjective(true, !o.typeCast.CastFalse?, o.decimalNumbers, c.jsonStrings,
                      true, !o'.typeCast.CastFalse?, o'.decimalNumbers, c'.jsonStrings);
      NibbleInjective(o.nestTables.NestTables?, o.nestTables.NestWith?, DatesKey(a).AllDateStrings?,
                      DatesKey(a).DateStringsOf?,
                      o'.nestTables.NestTables?, o'.nestTables.NestWith?, DatesKey(b).AllDateStrings?,
                        DatesKey(b).DateStringsOf?);
    }
  }

  /** An entry is confirmed exactly for the requests with the key of the request it was made for. */
  lemma MatchesExactly(parser: Code, a: Request, b: Request)
    ensures Matches(NewEntry(parser, a), b) <==> SameKey(a, b)
  {
    OptionBitsInjective(a, b);
    hide OptionBits, TimezoneKey, SupportBigNumbers, BigNumberStrings, DatesKey;
    var e := NewEntry(parser, a);
    if |a.fields| == |b.fields| && a.options.nestTables == b.options.nestTables {
      forall i | 0 <= i < |b.fields|
        ensures AlikeColumns(a.fields[i], b.fields[i], !a.options.nestTables.NoNest?) <==>
                ColumnMatches(e, i, b.fields[i])
      {
      }
    }
  }

  // ---------------------------------------------------------------- the hash

  /** `value | 0`. */
  function Int32(n: nat): bv32 {
    (n % 0x1_0000_0000) as bv32
  }

  function MixNumber(hash: bv32, value: bv32): bv32 {
    (hash ^ value) * 0x9e3779b1
  }

  function MixUnit(hash: bv32, unit: Unit): bv32 {
    hash * 31 + Int32(unit)
  }

  function Pack(columnType: nat, characterSet: nat, decimals: nat): bv32 {
    Int32(columnType) | (Int32(characterSet) << 8) | (Int32(decimals) << 24)
  }

  /** Small non-negative numbers. */
  function Clip(hash: bv32): nat {
    (hash & 0x3fffffff) as nat
  }

  function MixUnits(hash: bv32, s: Str): bv32 {
    if s == [] then hash else MixUnit(MixUnits(hash, s[..|s| - 1]), s[|s| - 1])
  }

  function MixString(hash: bv32, s: Str): bv32 {
    MixUnits(MixNumber(hash, Int32(|s|)), s)
  }

  function MixStrings(hash: bv32, names: seq<Str>): bv32 {
    if names == [] then hash else MixString(MixStrings(hash, names[..|names| - 1]), names[|names| - 1])
  }

  function MixMaybe(hash: bv32, s: Maybe<Str>): bv32 {
    if s.Just? then MixString(hash, s.value) else hash
  }

  function MixColumn(hash: bv32, f: Field, includeTable: bool): bv32 {
    var h := MixString(MixNumber(MixNumber(hash, Pack(f.columnType, f.characterSet, f.decimals)), Int32(f.flags)),
                       f.name);
    var table := if includeTable then Just(f.table) else Nothing;
    MixMaybe(MixMaybe(MixMaybe(h, f.extendedTypeName), f.extendedFormat), table)
  }

  function MixColumns(hash: bv32, fields: seq<Field>, includeTable: bool): bv32 {
    if fields == [] then hash
    else MixColumn(MixColumns(hash, fields[..|fields| - 1], includeTable), fields[|fields| - 1], includeTable)
  }

  function MixOptions(r: Request): bv32 {
    var h := MixString(MixNumber(0x811c9dc5, Int32(OptionBits(r))), TimezoneKey(r));
    var h := if r.options.nestTables.NestWith? then MixString(h, r.options.nestTables.separator) else h;
    if DatesKey(r).DateStringsOf? then MixStrings(h, DatesKey(r).names) else h
  }

  /** `hashKey`. */
  function HashKey(r: Request): nat {
    Clip(MixColumns(MixNumber(MixOptions(r), Int32(|r.fields|)), r.fields, !r.options.nestTables.NoNest?))
  }

  method ComputeMixString(start: bv32, s: Str) returns (hash: bv32)
    ensures hash == MixString(start, s)
  {
    hide MixNumber, Int32, MixUnit;
    hash := MixNumber(start, Int32(|s|));
    for i := 0 to |s|
      invariant hash == MixUnits(MixNumber(start, Int32(|s|)), s[..i])
    {
      assert s[..i + 1][..i] == s[..i];
      hash := MixUnit(hash, s[i]);
    }
    assert s[..|s|] == s;
  }

  method ComputeHashKey(r: Request) returns (key: nat)
    ensures key == HashKey(r)
  {
    hide MixNumber, MixString, MixStrings, MixColumn, Int32, OptionBits, TimezoneKey, DatesKey, Clip;
    var nestTables, dateStrings := r.options.nestTables, DatesKey(r);
    var includeTable := !nestTables.NoNest?;
    var hash := MixNumber(0x811c9dc5, Int32(OptionBits(r)));
    hash := ComputeMixString(hash, TimezoneKey(r));
    if nestTables.NestWith? {
      hash := ComputeMixString(hash, nestTables.separator);
    }
    if dateStrings.DateStringsOf? {
      hash := ComputeMixStrings(hash, dateStrings.names);
    }
    hash := MixNumber(hash, Int32(|r.fields|));
    ghost var start := hash;
    for i := 0 to |r.fields|
      invariant hash == MixColumns(start, r.fields[..i], includeTable)
    {
      assert r.fields[..i + 1][..i] == r.fields[..i];
      hash := ComputeMixColumn(hash, r.fields[i], includeTable);
    }
    assert r.fields[..|r.fields|] == r.fields;
    key := Clip(hash);
  }

  method ComputeMixStrings(start: bv32, names: seq<Str>) returns (hash: bv32)
    ensures hash == MixStrings(start, names)
  {
    hide MixString;
    hash := start;
    for i := 0 to |names|
      invariant hash == MixStrings(start, names[..i])
    {
      assert names[..i + 1][..i] == names[..i];
      hash := ComputeMixString(hash, names[i]);
    }
    assert names[..|names|] == names;
  }

  method ComputeMixColumn(start: bv32, f: Field, includeTable: bool) returns (hash: bv32)
    ensures hash == MixColumn(start, f, includeTable)
  {
    hide MixNumber, MixString, Int32, Pack;
    hash := MixNumber(start, Pack(f.columnType, f.characterSet, f.decimals));
    hash := MixNumber(hash, Int32(f.flags));
    hash := ComputeMixString(hash, f.name);
    if f.extendedTypeName.Just? {
      hash := ComputeMixString(hash, f.extendedTypeName.value);
    }
    if f.extendedFormat.Just? {
      hash := ComputeMixString(hash, f.extendedFormat.value);
    }
    if includeTable {
      hash := ComputeMixString(hash, f.table);
    }
  }

  lemma {:induction false} ColumnsHashAlike(hash: bv32, a: seq<Field>, b: seq<Field>, nested: bool)
    requires |a| == |b| && forall i :: 0 <= i < |a| ==> AlikeColumns(a[i], b[i], nested)
    ensures MixColumns(hash, a, nested) == MixColumns(hash, b, nested)
  {
    hide MixNumber, MixString, Int32, Pack;
    if a != [] {
      var k := |a| - 1;
      ColumnsHashAlike(hash, a[..k], b[..k], nested);
      assert AlikeColumns(a[k], b[k], nested);
    }
  }

  /** A match is never lost to the hash: requests with the same key have the same hash. */
  lemma SameKeySameHash(a: Request, b: Request)
    requires SameKey(a, b)
    ensures HashKey(a) == HashKey(b)
  {
    OptionBitsInjective(a, b);
    hide OptionBits, TimezoneKey, DatesKey, MixString, MixStrings, MixNumber, Int32, AlikeColumns, MixColumns, Clip;
    ColumnsHashAlike(MixNumber(MixOptions(a), Int32(|a.fields|)), a.fields, b.fields, !a.options.nestTables.NoNest?);
  }

  // ---------------------------------------------------------------- what the key determines

  predicate ReadAsDecimal(f: Field, o: Options) {
    !o.typeCast.CastFalse? && !IsJsonFormat(f) && f.columnType in {DECIMAL, NEWDECIMAL}
  }

  predicate ReadAsDate(f: Field, r: Request) {
    IsDateType(f.columnType) && !TypeMatch(f.columnType, DatesKey(r))
  }

  /** What the key does not tell apart: the connection's decimal flag, because the key holds that of the
      options, and a missing time zone from one called "undefined". */
  predicate Confused(a: Request, b: Request) {
    || (a.config.decimalNumbers != b.config.decimalNumbers && exists f :: f in a.fields && ReadAsDecimal(f, a.options))
    || (Timezone(a.options, a.config).Just? != Timezone(b.options, b.config).Just? &&
        exists f :: f in a.fields && ReadAsDate(f, a))
  }

  lemma BinaryReads(a: Request, b: Request, i: nat)
    requires SameKey(a, b) && i < |a.fields|
    ensures BinaryParsers.CellCode(a.fields[i], a.options, a.config, i) ==
            BinaryParsers.CellCode(b.fields[i], b.options, b.config, i) <==>
            a.config.decimalNumbers == b.config.decimalNumbers || !ReadAsDecimal(a.fields[i], a.options)
  {
    hide IsJsonFormat, SupportBigNumbers, BigNumberStrings, TypeMatch, Timezone, Quote, DateStringsFor;
    assert AlikeColumns(a.fields[i], b.fields[i], !a.options.nestTables.NoNest?);
    assert IsJsonFormat(a.fields[i]) == IsJsonFormat(b.fields[i]) by { AlikeFormats(a.fields[i], b.fields[i]); }
  }

  lemma TextReads(a: Request, b: Request, i: nat)
    requires SameKey(a, b) && i < |a.fields|
    ensures TextParsers.CellCode(a.fields[i], a.options, a.config, i) ==
            TextParsers.CellCode(b.fields[i], b.options, b.config, i) <==>
            a.config.decimalNumbers == b.config.decimalNumbers || !ReadAsDecimal(a.fields[i], a.options)
  {
    hide IsJsonFormat, SupportBigNumbers, BigNumberStrings, TypeMatch, Timezone, Quote, DateStringsFor;
    assert AlikeColumns(a.fields[i], b.fields[i], !a.options.nestTables.NoNest?);
    assert IsJsonFormat(a.fields[i]) == IsJsonFormat(b.fields[i]) by { AlikeFormats(a.fields[i], b.fields[i]); }
  }

  lemma AlikeFormats(f: Field, g: Field)
    requires AlikeColumns(f, g, false)
    ensures IsJsonFormat(f) == IsJsonFormat(g)
  {
  }

  /** The code of one column. */
  lemma BinaryCodes(a: Request, b: Request, i: nat)
    requires SameKey(a, b) && i < |a.fields|
    ensures var x := BinaryParsers.FieldCode(a.fields[i], i, a.options, a.config);
            var y := BinaryParsers.FieldCode(b.fields[i], i, b.options, b.config);
            |x| == |y| && (x == y <==> a.config.decimalNumbers == b.config.decimalNumbers ||
                                       !ReadAsDecimal(a.fields[i], a.options))
  {
    hide BinaryParsers.CellCode, CodeTargetOf, Quote, ReadAsDecimal, Timezone, DatesKey, TimezoneKey, SupportBigNumbers,
      BigNumberStrings, BitMasks.Pow2;
    BinaryReads(a, b, i);
    var f, g := a.fields[i], b.fields[i];
    assert AlikeColumns(f, g, !a.options.nestTables.NoNest?);
    SameTarget(a.options, b.options, f, g, i);
    var x := BinaryParsers.FieldCode(f, i, a.options, a.config);
    var y := BinaryParsers.FieldCode(g, i, b.options, b.config);
    assert x == y <==> x[|x| - 1] == y[|y| - 1];
  }

  lemma {:induction false} BinaryBodies(a: Request, b: Request, n: nat)
    requires SameKey(a, b) && n <= |a.fields| == |b.fields|
    ensures var s := BinaryParsers.Body(a.fields, a.options, a.config, n);
            var t := BinaryParsers.Body(b.fields, b.options, b.config, n);
            |s| == |t| && (s == t <==> a.config.decimalNumbers == b.config.decimalNumbers ||
                                       forall i :: 0 <= i < n ==> !ReadAsDecimal(a.fields[i], a.options))
  {
    hide BinaryParsers.FieldCode, BinaryParsers.Prologue, ReadAsDecimal, SameKey;
    if n == 0 {
      BinaryPrologues(a, b);
    } else {
      BinaryBodies(a, b, n - 1);
      BinaryCodes(a, b, n - 1);
      SplitEqual(BinaryParsers.Body(a.fields, a.options, a.config, n - 1),
                 BinaryParsers.FieldCode(a.fields[n - 1], n - 1, a.options, a.config),
                 BinaryParsers.Body(b.fields, b.options, b.config, n - 1),
                 BinaryParsers.FieldCode(b.fields[n - 1], n - 1, b.options, b.config));
    }
  }

  lemma BinaryPrologues(a: Request, b: Request)
    requires SameKey(a, b)
    ensures BinaryParsers.Prologue(a.options, |a.fields|) == BinaryParsers.Prologue(b.options, |b.fields|)
  {
    hide DatesKey, TimezoneKey, SupportBigNumbers, BigNumberStrings, AlikeColumns;
  }

  /** The code of one column. */
  lemma TextCodes(a: Request, b: Request, i: nat)
    requires SameKey(a, b) && i < |a.fields|
    ensures var x := TextParsers.FieldCode(a.fields[i], i, a.options, a.config);
            var y := TextParsers.FieldCode(b.fields[i], i, b.options, b.config);
            |x| == |y| && (x == y <==> a.config.decimalNumbers == b.config.decimalNumbers ||
                                       !ReadAsDecimal(a.fields[i], a.options))
  {
    hide TextParsers.CellCode, CodeTargetOf, Quote, ReadAsDecimal, Timezone, DatesKey, TimezoneKey, SupportBigNumbers,
      BigNumberStrings;
    TextReads(a, b, i);
    var f, g := a.fields[i], b.fields[i];
    assert AlikeColumns(f, g, !a.options.nestTables.NoNest?);
    SameTarget(a.options, b.options, f, g, i);
    var x := TextParsers.FieldCode(f, i, a.options, a.config);
    var y := TextParsers.FieldCode(g, i, b.options, b.config);
    assert x == y <==> x[|x| - 1] == y[|y| - 1];
  }

  lemma {:induction false} TextBodies(a: Request, b: Request, n: nat)
    requires SameKey(a, b) && n <= |a.fields| == |b.fields|
    ensures var s := TextParsers.Body(a.fields, a.options, a.config, n);
            var t := TextParsers.Body(b.fields, b.options, b.config, n);
            |s| == |t| && (s == t <==> a.config.decimalNumbers == b.config.decimalNumbers ||
                                       forall i :: 0 <= i < n ==> !ReadAsDecimal(a.fields[i], a.options))
  {
    hide TextParsers.FieldCode, TextParsers.Prologue, ReadAsDecimal, SameKey;
    if n == 0 {
      TextPrologues(a, b);
    } else {
      TextBodies(a, b, n - 1);
      TextCodes(a, b, n - 1);
      SplitEqual(TextParsers.Body(a.fields, a.options, a.config, n - 1),
                 TextParsers.FieldCode(a.fields[n - 1], n - 1, a.options, a.config),
                 TextParsers.Body(b.fields, b.options, b.config, n - 1),
                 TextParsers.FieldCode(b.fields[n - 1], n - 1, b.options, b.config));
    }
  }

  lemma TextPrologues(a: Request, b: Request)
    requires SameKey(a, b)
    ensures TextParsers.Prologue(a.fields, a.options) == TextParsers.Prologue(b.fields, b.options)
  {
    hide DatesKey, TimezoneKey, SupportBigNumbers, BigNumberStrings, AlikeColumns, TextParsers.TableList;
    if a.options.nestTables.NestTables? {
      SameTables(a, b, |a.fields|);
    }
  }

  lemma {:induction false} SameTables(a: Request, b: Request, n: nat)
    requires SameKey(a, b) && n <= |a.fields| && a.options.nestTables.NestTables?
    ensures TextParsers.TableList(a.fields, n) == TextParsers.TableList(b.fields, n)
  {
    if n > 0 {
      SameTables(a, b, n - 1);
      assert AlikeColumns(a.fields[n - 1], b.fields[n - 1], true);
    }
  }

  lemma SameTarget(o: Options, p: Options, f: Field, g: Field, i: nat)
    requires AlikeColumns(f, g, !o.nestTables.NoNest?) && o.nestTables == p.nestTables && o.rowsAsArray == p.rowsAsArray
    ensures CodeTargetOf(o, f, i) == CodeTargetOf(p, g, i) && CompileRejects(o, f) == CompileRejects(p, g)
  {
    hide Quote, IsPrivate;
  }

  lemma SplitEqual<T>(s: seq<T>, x: seq<T>, t: seq<T>, y: seq<T>)
    requires |s| == |t| && |x| == |y|
    ensures s + x == t + y <==> s == t && x == y
  {
    assert s == (s + x)[..|s|] && t == (t + y)[..|t|] && x == (s + x)[|s|..] && y == (t + y)[|t|..];
  }

  lemma SameLocalDates(a: Request, b: Request)
    requires SameKey(a, b)
    ensures SomeUseLocalDate(a.fields, a.options, a.config) == SomeUseLocalDate(b.fields, b.options, b.config) <==>
            Timezone(a.options, a.config).Just? == Timezone(b.options, b.config).Just?
              || !exists f :: f in a.fields && ReadAsDate(f, a)
  {
    hide Timezone, DateStringsFor, TypeMatch, SupportBigNumbers, BigNumberStrings;
    UsersOfLocalDates(a);
    UsersOfLocalDates(b);
    SameDates(a, b);
    SameDates(b, a);
  }

  lemma UsersOfLocalDates(a: Request)
    ensures SomeUseLocalDate(a.fields, a.options, a.config) <==>
            (Timezone(a.options, a.config).Just? ==> TimezoneKey(a) == [] || TimezoneKey(a) == Text("local")) &&
            exists f :: f in a.fields && ReadAsDate(f, a)
    ensures Timezone(a.options, a.config).Nothing? ==> TimezoneKey(a) != [] && TimezoneKey(a) != Text("local")
  {
    hide Timezone, DateStringsFor, TypeMatch;
    assert forall f :: UsesLocalDate(f, a.options, a.config) <==>
                       ReadAsDate(f, a) && (Timezone(a.options, a.config).Just? ==>
                                            TimezoneKey(a) == [] || TimezoneKey(a) == Text("local"));
  }

  lemma SameDates(a: Request, b: Request)
    requires SameKey(a, b)
    ensures (exists f :: f in a.fields && ReadAsDate(f, a)) ==> exists f :: f in b.fields && ReadAsDate(f, b)
  {
    hide DateStringsFor, TypeMatch, Timezone, TimezoneKey, SupportBigNumbers, BigNumberStrings;
    if f :| f in a.fields && ReadAsDate(f, a) {
      var i :| 0 <= i < |a.fields| && a.fields[i] == f;
      assert AlikeColumns(f, b.fields[i], !a.options.nestTables.NoNest?);
      assert b.fields[i] in b.fields && ReadAsDate(b.fields[i], b);
    }
  }

  /** Requests with the same key have the same generated parser exactly when they are not confused. */
  lemma KeyDeterminesCode(a: Request, b: Request)
    requires SameKey(a, b)
    ensures CompiledFor(a).Just? == CompiledFor(b).Just?
    ensures CompiledFor(a).Just? ==> (CompiledFor(a) == CompiledFor(b) <==> !Confused(a, b))
  {
    hide CompileRejects, SomeUseLocalDate, BinaryParsers.Body, TextParsers.Body, Timezone, DatesKey, TimezoneKey,
      SupportBigNumbers, BigNumberStrings, ReadAsDecimal, ReadAsDate;
    SameRefusals(a, b);
    SameLocalDates(a, b);
    DecimalColumns(a);
    if a.kind.Binary? {
      BinaryBodies(a, b, |a.fields|);
    } else {
      TextBodies(a, b, |a.fields|);
    }
  }

  lemma DecimalColumns(a: Request)
    ensures (exists f :: f in a.fields && ReadAsDecimal(f, a.options)) <==>
            exists i :: 0 <= i < |a.fields| && ReadAsDecimal(a.fields[i], a.options)
  {
    hide ReadAsDecimal;
  }

  lemma SameRefusals(a: Request, b: Request)
    requires SameKey(a, b)
    ensures (exists i :: 0 <= i < |a.fields| && CompileRejects(a.options, a.fields[i])) <==>
            (exists i :: 0 <= i < |b.fields| && CompileRejects(b.options, b.fields[i]))
  {
    hide CompileRejects, DatesKey, TimezoneKey, SupportBigNumbers, BigNumberStrings, AlikeColumns;
    forall i | 0 <= i < |a.fields|
      ensures CompileRejects(a.options, a.fields[i]) == CompileRejects(b.options, b.fields[i])
    {
      SameTarget(a.options, b.options, a.fields[i], b.fields[i], i);
    }
  }

  // ---------------------------------------------------------------- the cache

  type Buckets = map<nat, seq<KeyedEntry>>

  function Find(entries: seq<KeyedEntry>, r: Request): Maybe<Code> {
    if entries == [] then Nothing
    else if Matches(entries[0], r) then Just(entries[0].parser)
    else Find(entries[1..], r)
  }

  function Evict(m: Buckets, kept: set<nat>): Buckets {
    map h | h in m && h in kept :: m[h]
  }

  /** `getParser`; `kept` are the buckets that survive when a new one makes the cache too large. */
  function Get(m: Buckets, r: Request, kept: set<nat>): (Buckets, Maybe<Code>) {
    var h := HashKey(r);
    var hit := if h in m then Find(m[h], r) else Nothing;
    if hit.Just? then (m, hit)
    else
      var made := CompiledFor(r);
      if made.Nothing? then (m, Nothing)
      else if h in m then (m[h := m[h] + [NewEntry(made.value, r)]], made)
      else (Evict(m[h := [NewEntry(made.value, r)]], kept), made)
  }

  /** No two requests of a history with the same key are confused. */
  ghost predicate Unconfused(history: seq<Request>) {
    forall i, j :: 0 <= i < j < |history| && SameKey(history[i], history[j]) ==> !Confused(history[i], history[j])
  }

  /** A request with the settings a connection establishes: the flag of the options is that of the
      connection, and the time zone is set. */
  predicate Plain(r: Request) {
    r.options.decimalNumbers == r.config.decimalNumbers && Timezone(r.options, r.config).Just?
  }

  /** Requests that do not override the decimal flag of their connection never confuse the cache. */
  lemma PlainHistory(history: seq<Request>)
    requires forall r :: r in history ==> Plain(r)
    ensures Unconfused(history)
  {
    hide SameKey, Confused, Plain;
    forall i, j | 0 <= i < j < |history| && SameKey(history[i], history[j]) ensures !Confused(history[i], history[j]) {
      assert history[i] in history && history[j] in history;
      PlainNotConfused(history[i], history[j]);
    }
  }

  lemma PlainNotConfused(a: Request, b: Request)
    requires SameKey(a, b) && Plain(a) && Plain(b)
    ensures !Confused(a, b)
  {
  }

  /** On real connections only the decimal flag can be confused. */
  lemma ConnectionsConfused(a: Request, b: Request, optionA: Maybe<Str>, optionB: Maybe<Str>)
    requires SameKey(a, b)
    requires a.config.timezone == Just(ConnectionTimezone(optionA))
             && b.config.timezone == Just(ConnectionTimezone(optionB))
    ensures Confused(a, b) <==>
            && a.config.decimalNumbers != b.config.decimalNumbers
            && exists f :: f in a.fields && ReadAsDecimal(f, a.options)
  {
    ConnectionsHaveTimezones(optionA, a.options, a.config);
    ConnectionsHaveTimezones(optionB, b.options, b.config);
    hide ConnectionTimezone, ReadAsDecimal, ReadAsDate;
  }

  ghost predicate MadeFor(h: nat, e: Entry, a: Request) {
    HashKey(a) == h && CompiledFor(a) == Just(e.parser) && e == NewEntry(e.parser, a)
  }

  ghost predicate Honest(h: nat, e: Entry, past: seq<Request>) {
    exists a :: a in past && MadeFor(h, e, a)
  }

  /** Every entry was made for a request of the past. */
  ghost predicate Sound(m: Buckets, past: seq<Request>) {
    forall h, e: KeyedEntry :: h in m && e in m[h] ==> Honest(h, e, past)
  }

  /** The request is not confused with one of the past. */
  ghost predicate NotConfusedWith(past: seq<Request>, r: Request) {
    forall a :: a in past && SameKey(a, r) ==> !Confused(a, r)
  }

  /** The entry that serves a request: the first that matches. */
  function Server(entries: seq<KeyedEntry>, r: Request): (e: Maybe<KeyedEntry>)
    ensures e.Just? ==> e.value in entries && Matches(e.value, r)
    ensures Find(entries, r) == if e.Just? then Just(e.value.parser) else Nothing
  {
    if entries == [] then Nothing
    else if Matches(entries[0], r) then Just(entries[0])
    else Server(entries[1..], r)
  }

  function Serving(m: Buckets, r: Request): Maybe<KeyedEntry> {
    if HashKey(r) in m then Server(m[HashKey(r)], r) else Nothing
  }

  /** Either no entry serves the request, or the one that does was not made for a request it is confused with. */
  ghost predicate ServedRight(m: Buckets, past: seq<Request>, r: Request) {
    var e := Serving(m, r);
    e.Just? ==> forall a :: a in past && MadeFor(HashKey(r), e.value, a) ==> !Confused(a, r)
  }

  /** After whatever history, a request gets the parser that the generator would make for it exactly then. */
  lemma ServedExactly(m: Buckets, past: seq<Request>, r: Request, kept: set<nat>)
    requires Sound(m, past)
    ensures Get(m, r, kept).1 == CompiledFor(r) <==> ServedRight(m, past, r)
  {
    hide Matches, CompiledFor, HashKey, NewEntry, Find, Sound, Evict, Honest, Confused, Server;
    var e, h := Serving(m, r), HashKey(r);
    if e.Just? {
      BucketSound(m, past, h);
      assert Honest(h, e.value, past);
      forall a | a in past && MadeFor(h, e.value, a) ensures Just(e.value.parser) == CompiledFor(r) <==>
        !Confused(a, r) {
        SameCode(h, e.value, a, r);
      }
      SomeMaker(h, e.value, past);
    }
  }

  lemma SameCode(h: nat, e: KeyedEntry, a: Request, r: Request)
    requires MadeFor(h, e, a) && Matches(e, r)
    ensures Just(e.parser) == CompiledFor(r) <==> !Confused(a, r)
  {
    hide Matches, CompiledFor, HashKey, NewEntry, Confused, SameKey;
    MatchesExactly(e.parser, a, r);
    KeyDeterminesCode(a, r);
  }

  lemma SomeMaker(h: nat, e: KeyedEntry, past: seq<Request>)
    requires Honest(h, e, past)
    ensures exists a :: a in past && MadeFor(h, e, a)
  {
  }

  /** A request that is not confused with any of the past is served right. */
  lemma UnconfusedIsServed(m: Buckets, past: seq<Request>, r: Request)
    requires NotConfusedWith(past, r)
    ensures ServedRight(m, past, r)
  {
    hide Matches, CompiledFor, HashKey, NewEntry, Find, Confused, Server, SameKey;
    var e := Serving(m, r);
    if e.Just? {
      forall a | a in past && MadeFor(HashKey(r), e.value, a) ensures !Confused(a, r) {
        MatchesExactly(e.value.parser, a, r);
      }
    }
  }

  lemma EntryHonest(parser: Code, past: seq<Request>, r: Request)
    requires CompiledFor(r) == Just(parser)
    ensures Honest(HashKey(r), NewEntry(parser, r), past + [r])
  {
    hide CompiledFor, HashKey, TimezoneKey, DatesKey, OptionBits;
    assert r in past + [r] && MadeFor(HashKey(r), NewEntry(parser, r), r);
  }

  lemma StillSound(m: Buckets, past: seq<Request>, r: Request)
    requires Sound(m, past)
    ensures Sound(m, past + [r])
  {
    hide MadeFor;
    forall h, e: KeyedEntry | h in m && e in m[h] ensures Honest(h, e, past + [r]) {
      assert Honest(h, e, past);
      var a :| a in past && MadeFor(h, e, a);
      assert a in past + [r];
    }
  }

  lemma EvictSound(m: Buckets, past: seq<Request>, kept: set<nat>)
    requires Sound(m, past)
    ensures Sound(Evict(m, kept), past)
  {
    hide Honest;
    forall h, e: KeyedEntry | h in Evict(m, kept) && e in Evict(m, kept)[h] ensures Honest(h, e, past) {
      assert Evict(m, kept)[h] == m[h];
    }
  }

  lemma AddSound(m: Buckets, past: seq<Request>, h: nat, entries: seq<KeyedEntry>, e: KeyedEntry)
    requires Sound(m, past) && Honest(h, e, past) && (if h in m then entries == m[h] else entries == [])
    ensures Sound(m[h := entries + [e]], past)
  {
    hide Honest;
    var after := m[h := entries + [e]];
    forall k, x: KeyedEntry | k in after && x in after[k] ensures Honest(k, x, past) {
      if k != h {
        assert after[k] == m[k];
      } else if x != e {
        assert x in entries;
      }
    }
  }

  /** The past grows by the request. */
  lemma GetKeepsSound(m: Buckets, past: seq<Request>, r: Request, kept: set<nat>)
    requires Sound(m, past)
    ensures Sound(Get(m, r, kept).0, past + [r])
  {
    hide Matches, CompiledFor, HashKey, NewEntry, Find, Honest, Sound, Evict;
    var h := HashKey(r);
    StillSound(m, past, r);
    if CompiledFor(r).Just? {
      var e := NewEntry(CompiledFor(r).value, r);
      EntryHonest(CompiledFor(r).value, past, r);
      if h in m {
        AddSound(m, past + [r], h, m[h], e);
      } else {
        AddSound(m, past + [r], h, [], e);
        assert [] + [e] == [e];
        EvictSound(m[h := [e]], past + [r], kept);
      }
    }
  }

  lemma GetSound(m: Buckets, past: seq<Request>, r: Request, kept: set<nat>)
    requires Sound(m, past) && NotConfusedWith(past, r)
    ensures Sound(Get(m, r, kept).0, past + [r]) && Get(m, r, kept).1 == CompiledFor(r)
  {
    hide Get, Sound, NotConfusedWith, ServedRight, CompiledFor;
    GetKeepsSound(m, past, r, kept);
    UnconfusedIsServed(m, past, r);
    ServedExactly(m, past, r, kept);
  }

  lemma BucketSound(m: Buckets, past: seq<Request>, h: nat)
    requires Sound(m, past) && h in m
    ensures forall e: KeyedEntry :: e in m[h] ==> Honest(h, e, past)
  {
    hide Honest;
  }

  /** A use of the cache. Which buckets survive an eviction is up to the least-recently-used list. */
  datatype Call = GetParser(request: Request, kept: set<nat>) | SetMaxCache(kept: set<nat>) | ClearCache

  /** The parsers returned by the calls, in order, from a given cache. */
  function Returned(m: Buckets, calls: seq<Call>): seq<Maybe<Code>>
    decreases |calls|
  {
    if calls == [] then []
    else match calls[0]
      case GetParser(r, kept) => [Get(m, r, kept).1] + Returned(Get(m, r, kept).0, calls[1..])
      case SetMaxCache(kept) => Returned(Evict(m, kept), calls[1..])
      case ClearCache => Returned(map[], calls[1..])
  }

  function Compiling(calls: seq<Call>): seq<Maybe<Code>> {
    if calls == [] then []
    else (if calls[0].GetParser? then [CompiledFor(calls[0].request)] else []) + Compiling(calls[1..])
  }

  function Requests(calls: seq<Call>): seq<Request> {
    if calls == [] then []
    else (if calls[0].GetParser? then [calls[0].request] else []) + Requests(calls[1..])
  }

  /** Soundness of the cache: whatever was asked for, cleared, resized and evicted before, every request
      gets the parser that the generator would make for it now, as long as no two requests of the history
      with the same key are confused. */
  lemma {:induction false} CacheIsTransparent(m: Buckets, past: seq<Request>, calls: seq<Call>)
    requires Sound(m, past) && Unconfused(past + Requests(calls))
    ensures Returned(m, calls) == Compiling(calls)
    decreases |calls|
  {
    hide Get, CompiledFor, Sound, Unconfused;
    if calls != [] {
      match calls[0] {
        case GetParser(r, kept) =>
          assert past + Requests(calls) == (past + [r]) + Requests(calls[1..]);
          NextUnconfused(past, r, Requests(calls[1..]));
          GetSound(m, past, r, kept);
          CacheIsTransparent(Get(m, r, kept).0, past + [r], calls[1..]);
        case SetMaxCache(kept) =>
          assert Requests(calls) == Requests(calls[1..]);
          EvictSound(m, past, kept);
          CacheIsTransparent(Evict(m, kept), past, calls[1..]);
        case ClearCache =>
          assert Requests(calls) == Requests(calls[1..]);
          EmptySound(past);
          CacheIsTransparent(map[], past, calls[1..]);
      }
    }
  }

  /** Every request of the calls is served right when its turn comes. */
  ghost predicate AllServedRight(m: Buckets, past: seq<Request>, calls: seq<Call>)
    decreases |calls|
  {
    calls != [] ==>
      match calls[0]
      case GetParser(r, kept) => ServedRight(m, past, r) && AllServedRight(Get(m, r, kept).0, past + [r], calls[1..])
      case SetMaxCache(kept) => AllServedRight(Evict(m, kept), past, calls[1..])
      case ClearCache => AllServedRight(map[], past, calls[1..])
  }

  /** Over a whole history the cache returns what the generator would make each time exactly when no request
      is served by an entry that was made for one it is confused with. */
  lemma {:induction false} HistoryExactly(m: Buckets, past: seq<Request>, calls: seq<Call>)
    requires Sound(m, past)
    ensures |Returned(m, calls)| == |Compiling(calls)|
    ensures Returned(m, calls) == Compiling(calls) <==> AllServedRight(m, past, calls)
    decreases |calls|
  {
    hide Get, CompiledFor, Sound, ServedRight, Evict;
    if calls != [] {
      match calls[0] {
        case GetParser(r, kept) =>
          GetKeepsSound(m, past, r, kept);
          ServedExactly(m, past, r, kept);
          HistoryExactly(Get(m, r, kept).0, past + [r], calls[1..]);
          SameFirst(Get(m, r, kept).1, CompiledFor(r), Returned(Get(m, r, kept).0, calls[1..]), Compiling(calls[1..]));
        case SetMaxCache(kept) =>
          EvictSound(m, past, kept);
          HistoryExactly(Evict(m, kept), past, calls[1..]);
          assert [] + Compiling(calls[1..]) == Compiling(calls[1..]);
        case ClearCache =>
          EmptySound(past);
          HistoryExactly(map[], past, calls[1..]);
          assert [] + Compiling(calls[1..]) == Compiling(calls[1..]);
      }
    }
  }

  lemma SameFirst<T>(x: T, y: T, a: seq<T>, b: seq<T>)
    requires |a| == |b|
    ensures [x] + a == [y] + b <==> x == y && a == b
  {
    assert ([x] + a)[0] == x && ([y] + b)[0] == y && ([x] + a)[1..] == a && ([y] + b)[1..] == b;
  }

  lemma NextUnconfused(past: seq<Request>, r: Request, rest: seq<Request>)
    requires Unconfused((past + [r]) + rest)
    ensures NotConfusedWith(past, r)
  {
    hide SameKey, Confused;
    var history := (past + [r]) + rest;
    forall a | a in past && SameKey(a, r) ensures !Confused(a, r) {
      var i :| 0 <= i < |past| && past[i] == a;
      assert history[i] == a && history[|past|] == r;
    }
  }

  lemma EmptySound(past: seq<Request>)
    ensures Sound(map[], past)
  {
  }

  /** Cache and compiler together: a parser that comes out of the cache, after whatever history, for a request
      that is served right, reads up to the interpreter's offset on every packet, and gives its row exactly
      as a parser just generated does. */
  lemma CachedParserRuns<V(!new)>(m: Buckets, past: seq<Request>, r: Request, kept: set<nat>,
                                  rd: Reader<V>, v: TextParsers.Values<V>, b: Buffer, offset: nat)
    requires Sound(m, past) && ServedRight(m, past, r) && Get(m, r, kept).1.Just?
    requires Timezone(r.options, r.config).Just? && !SomeArrayKey(r.fields, r.options)
    requires TextParsers.ReadsLengthCoded(rd, v)
    ensures var code := Get(m, r, kept).1.value;
            var run := Eval(Machine(Row(Nothing, map[]), [], offset), rd, b, r.fields, code.body);
            var same := !(BothSet(r.options) && r.fields != []);
            && (r.kind.Binary? ==>
                  var (row, end) := BinaryParsers.BinaryRow(rd, b, offset, r.fields, r.options, r.config);
                  run.Just? && run.value.offset == end && (run.value.row == row <==> same))
            && (r.kind.Textual? && TextParsers.NullsAgree(rd, b, offset, r.fields, r.options, r.config) ==>
                  var (row, end) := TextParsers.TextRow(rd, b, offset, r.fields, r.options, r.config);
                  && run.Just? && run.value.offset == end
                  && (run.value.row == row <==> !TextParsers.SomeInherited(r.fields, r.options) && same))
  {
    hide Get, Sound, ServedRight, Eval, BinaryParsers.Compiled, TextParsers.Compiled, BinaryParsers.BinaryRow,
      TextParsers.TextRow, TextParsers.SomeInherited, TextParsers.NullsAgree, TextParsers.ReadsLengthCoded, Timezone,
      SomeArrayKey, BothSet;
    ServedExactly(m, past, r, kept);
    match r.kind {
      case Binary => BinaryParsers.CompiledIsBinaryRow(rd, b, offset, r.fields, r.options, r.config);
      case Textual =>
        if TextParsers.NullsAgree(rd, b, offset, r.fields, r.options, r.config) {
          TextParsers.CompiledIsTextRow(rd, v, b, offset, r.fields, r.options, r.config);
        }
    }
  }

  lemma {:induction false} FindLast(entries: seq<KeyedEntry>, e: KeyedEntry, r: Request)
    requires Matches(e, r)
    ensures Find(entries + [e], r) == if Find(entries, r).Just? then Find(entries, r) else Just(e.parser)
  {
    hide Matches;
    if entries == [] {
      assert entries + [e] == [e];
    } else {
      FindLast(entries[1..], e, r);
      assert (entries + [e])[1..] == entries[1..] + [e];
    }
  }

  lemma {:induction false} FindByKey(entries: seq<KeyedEntry>, a: Request, b: Request)
    requires SameKey(a, b)
    ensures Find(entries, a) == Find(entries, b)
  {
    hide Matches, SameKey;
    if entries != [] {
      SameMatches(entries[0], a, b);
      FindByKey(entries[1..], a, b);
    }
  }

  lemma SameMatches(e: KeyedEntry, a: Request, b: Request)
    requires SameKey(a, b)
    ensures Matches(e, a) == Matches(e, b)
  {
    OptionBitsInjective(a, b);
    hide OptionBits, TimezoneKey, DatesKey, SupportBigNumbers, BigNumberStrings;
    if |e.names| == |a.fields| && e.nestTables == a.options.nestTables {
      forall i | 0 <= i < |a.fields| ensures ColumnMatches(e, i, a.fields[i]) == ColumnMatches(e, i, b.fields[i]) {
        assert AlikeColumns(a.fields[i], b.fields[i], !a.options.nestTables.NoNest?);
      }
    }
  }

  /** A stored parser is found again: after a request, no request with the same key is compiled until
      its bucket is evicted. */
  lemma Reused(m: Buckets, a: Request, b: Request, kept: set<nat>, later: set<nat>)
    requires SameKey(a, b) && HashKey(a) in kept && CompiledFor(a).Just?
    ensures var (after, parser) := Get(m, a, kept);
            Get(after, b, later) == (after, parser)
  {
    hide HashKey, CompiledFor, NewEntry, Find, SameKey, Matches;
    FindNothing(a);
    SameKeySameHash(a, b);
    var h := HashKey(a);
    var entries := if h in m then m[h] else [];
    FindByKey(entries, a, b);
    var parser := CompiledFor(a).value;
    var e := NewEntry(parser, a);
    MatchesExactly(parser, a, a);
    MatchesExactly(parser, a, b);
    SameKeyReflexive(a);
    FindLast(entries, e, b);
    assert [] + [e] == [e];
    EntryParser(parser, a);
  }

  lemma FindNothing(a: Request)
    ensures Find([], a) == Nothing
  {
  }

  lemma SameKeyReflexive(a: Request)
    ensures SameKey(a, a)
  {
    hide DatesKey, TimezoneKey, SupportBigNumbers, BigNumberStrings;
  }

  lemma EntryParser(parser: Code, r: Request)
    ensures NewEntry(parser, r).parser == parser
  {
    hide TimezoneKey, DatesKey, OptionBits;
  }

  /** It can go wrong at the second request: of two with the same key, on an empty cache, it gets the parser
      that the generator would make exactly when they are not confused. */
  lemma SecondRequest(a: Request, b: Request, kept: set<nat>, later: set<nat>)
    requires SameKey(a, b) && HashKey(a) in kept && CompiledFor(a).Just?
    ensures var m := Get(map[], a, kept).0;
            Get(m, b, later).1 == CompiledFor(b) <==> !Confused(a, b)
  {
    hide HashKey, CompiledFor, NewEntry, Find, SameKey, Matches, Confused, Server, Sound;
    var m, h, e := Get(map[], a, kept).0, HashKey(a), NewEntry(CompiledFor(a).value, a);
    EmptySound([]);
    GetKeepsSound(map[], [], a, kept);
    assert [] + [a] == [a];
    ServedExactly(m, [a], b, later);
    SameKeySameHash(a, b);
    MatchesExactly(e.parser, a, b);
    EntryParser(CompiledFor(a).value, a);
    assert m[h] == [e];
    OnlyServer(e, b);
  }

  lemma OnlyServer(e: KeyedEntry, r: Request)
    requires Matches(e, r)
    ensures Server([e], r) == Just(e)
  {
    hide Matches;
  }

  /** Two such requests: a decimal column, and connections that disagree about decimals. */
  lemma ConfusedRequests() returns (a: Request, b: Request)
    ensures SameKey(a, b) && CompiledFor(a).Just? && Confused(a, b)
  {
    var o := Options(false, NoNest, CastDefault, false, false, false, false, Just(Text("local")), NoDateStrings);
    var f := Field(NEWDECIMAL, 63, 0, 2, Text("price"), [], Text("latin1"), Nothing, Nothing);
    a := Request(Binary, [f], o, o.(decimalNumbers := true));
    b := Request(Binary, [f], o, o);
    assert f in a.fields && ReadAsDecimal(f, o);
    assert |f.name| == 5;
  }

  /** lib/parsers/parser_cache.js keeps its cache in a module variable. */
  class ParserCache {
    var buckets: Buckets

    constructor ()
      ensures buckets == map[]
    {
      buckets := map[];
    }

    method GetParser(r: Request, kept: set<nat>) returns (parser: Maybe<Code>)
      modifies this
      ensures (buckets, parser) == Get(old(buckets), r, kept)
    {
      hide Matches, CompiledFor, HashKey, NewEntry, Evict;
      var hash := ComputeHashKey(r);
      if hash in buckets {
        var entries := buckets[hash];
        for i := 0 to |entries|
          invariant Find(entries, r) == Find(entries[i..], r)
        {
          assert entries[i..][1..] == entries[i + 1..];
          if Matches(entries[i], r) {
            return Just(entries[i].parser);
          }
        }
      }
      parser := Compiler(r);
      if parser.Just? {
        var entry := NewEntry(parser.value, r);
        if hash in buckets {
          buckets := buckets[hash := buckets[hash] + [entry]];
        } else {
          buckets := Evict(buckets[hash := [entry]], kept);
        }
      }
    }

    method SetMaxCache(kept: set<nat>)
      modifies this
      ensures buckets == Evict(old(buckets), kept)
    {
      buckets := Evict(buckets, kept);
    }

    method ClearCache()
      modifies this
      ensures buckets == map[]
    {
      buckets := map[];
    }

    /** The cache over a whole history of uses. */
    method Run(calls: seq<Call>, ghost past: seq<Request>) returns (parsers: seq<Maybe<Code>>)
      requires Sound(buckets, past)
      modifies this
      ensures Unconfused(past + Requests(calls)) ==> parsers == Compiling(calls)
      ensures parsers == Returned(old(buckets), calls)
      ensures parsers == Compiling(calls) <==> AllServedRight(old(buckets), past, calls)
    {
      hide Get, CompiledFor, Sound, Evict, Unconfused, AllServedRight;
      parsers := [];
      for i := 0 to |calls|
        invariant parsers + Returned(buckets, calls[i..]) == Returned(old(buckets), calls)
      {
        ghost var before := parsers;
        assert calls[i..][1..] == calls[i + 1..];
        match calls[i] {
          case GetParser(r, kept) =>
            var parser := GetParser(r, kept);
            parsers := parsers + [parser];
            assert before + ([parser] + Returned(buckets, calls[i + 1..])) ==
              parsers + Returned(buckets, calls[i + 1..]);
          case SetMaxCache(kept) => SetMaxCache(kept);
          case ClearCache => ClearCache();
        }
      }
      assert parsers + [] == parsers;
      HistoryExactly(old(buckets), past, calls);
      if Unconfused(past + Requests(calls)) {
        CacheIsTransparent(old(buckets), past, calls);
      }
    }
  }

  method Compiler(r: Request) returns (code: Maybe<Code>)
    ensures code == CompiledFor(r)
  {
    hide BinaryParsers.Compiled, TextParsers.Compiled;
    match r.kind {
      case Binary => code := BinaryParsers.Compile(r.fields, r.options, r.config);
      case Textual => code := TextParsers.Compile(r.fields, r.options, r.config);
    }
  }
}
