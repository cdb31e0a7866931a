/** Which packet goes to which command, and when a command is done: lib/commands/query.js,
    lib/commands/command.js, and `handlePacket` and `addCommand` of lib/base/connection.js. */
module QueryProtocol {
  import opened Bytes
  import opened LengthCoded
  import opened Lists
  import opened Maybes
  import opened Protocol

  const MORE_RESULTS: nat := 8

  // ---------------------------------------------------------------- packets

  /** `isError`. */
  predicate IsError(p: Buffer) {
    p != [] && p[0] == 0xff
  }

  predicate IsOk(p: Buffer) {
    p != [] && p[0] == 0
  }

  /** `isEOF`: the length counts the four bytes of the header. */
  predicate IsEof(p: Buffer) {
    p != [] && p[0] == 0xfe && |p| + 4 < 13
  }

  function UInt16At(p: Buffer, offset: nat): nat {
    if offset + 2 <= |p| then FromLe(p[offset..offset + 2]) else 0
  }

  function EofStatus(p: Buffer): nat {
    UInt16At(p, 3)
  }

  predicate More(status: nat) {
    status / MORE_RESULTS % 2 == 1
  }

  /** The status of an OK packet, after the affected rows and the insert id. */
  function OkStatus(p: Buffer): nat {
    var affected := ReadLc(p, 1);
    if affected.LcBad? then 0
    else
      var insertId := ReadLc(p, affected.end);
      if insertId.LcBad? then 0 else UInt16At(p, insertId.end)
  }

  // ---------------------------------------------------------------- a query

  /** The state function a command continues with; `Elsewhere` is a local file to send, or a packet that
      cannot be parsed. */
  datatype Next = NotStarted | Start | ResultsetHeader | ReadField | FieldsEof | InRow | Elsewhere | Stopped

  /** One result: an OK packet, or rows (which only a query with a callback collects). */
  datatype Result = Header(ok: Buffer) | Rows(rows: seq<Buffer>)

  type Columns = Maybe<seq<Buffer>>

  datatype Event =
    | FieldsEvent(columns: Columns)
    | HeaderEvent(ok: Buffer)
    | RowEvent(row: Buffer, index: nat)
    | ErrorEvent(error: Buffer)
    | EndEvent

  /** What the callback gets: of a single result itself, of several the lists. */
  datatype Delivery =
    | NotDelivered
    | DeliveredError(error: Buffer)
    | DeliveredOne(result: Result, columns: Columns)
    | DeliveredAll(results: seq<Result>, columnLists: seq<Columns>)

  datatype QueryState = QueryState(
    callback: bool,
    frames: nat, next: Next,
    fieldCount: nat, receivedFieldsCount: nat,
    resultIndex: nat, currentRows: nat,
    rows: seq<Result>, fields: seq<Columns>,
    events: seq<Event>, delivered: Delivery)

  /** A query that was created and not yet started; its COM_QUERY packet takes `frames` frames. */
  function Created(callback: bool, frames: nat): QueryState {
    QueryState(callback, frames, NotStarted, 0, 0, 0, 0, [], [], [], NotDelivered)
  }

  predicate InSet(n: Next) {
    n == ReadField || n == FieldsEof || n == InRow
  }

  /** The lists of results and of columns stay equally long, one entry for each finished result and one
      for the result set being read, which `currentRows` refers to. */
  predicate Coherent(q: QueryState) {
    && |q.rows| == |q.fields|
    && (q.next in {NotStarted, Start, ResultsetHeader} ==> |q.rows| == q.resultIndex)
    && (InSet(q.next) ==> |q.rows| == q.resultIndex + 1 && q.currentRows == q.resultIndex &&
                          q.rows[q.resultIndex].Rows? && q.fields[q.resultIndex].Just?)
  }

  function Emit(q: QueryState, e: Event): QueryState {
    q.(events := q.events + [e])
  }

  function Done(q: QueryState): QueryState {
    q.(next := Stopped, delivered :=
      if !q.callback then q.delivered
      else if q.resultIndex == 0 && |q.rows| > 0 && |q.fields| > 0 then DeliveredOne(q.rows[0], q.fields[0])
      else DeliveredAll(q.rows, q.fields))
  }

  /** `doneInsert`. */
  function InsertStep(q: QueryState, ok: Buffer, status: nat): QueryState {
    var q' := Emit(Emit(q.(rows := q.rows + [Header(ok)], fields := q.fields + [Nothing]), FieldsEvent(Nothing)),
                   HeaderEvent(ok));
    if More(status) then q'.(resultIndex := q.resultIndex + 1, next := ResultsetHeader) else Done(q')
  }

  function HeaderStep(q: QueryState, p: Buffer): QueryState {
    match ReadLc(p, 0)
    case LcNumber(n, _) =>
      if n == 0 then InsertStep(q.(fieldCount := 0), p, if IsOk(p) then OkStatus(p) else 0)
      else
        q.(fieldCount := n, receivedFieldsCount := 0, currentRows := |q.rows|,
           rows := q.rows + [Rows([])], fields := q.fields + [Just([])], next := ReadField)
    case _ => q.(next := Elsewhere)
  }

  function FieldStep(q: QueryState, p: Buffer): QueryState
    requires Coherent(q) && q.next == ReadField
  {
    var columns := q.fields[q.resultIndex].value;
    var columns' := if |columns| != q.fieldCount then columns + [p] else columns;
    var q' := q.(receivedFieldsCount := q.receivedFieldsCount + 1, fields := q.fields[q.resultIndex := Just(columns')]);
    if q'.receivedFieldsCount == q.fieldCount then Emit(q', FieldsEvent(Just(columns'))).(next := FieldsEof) else q'
  }

  function RowStep(q: QueryState, p: Buffer): QueryState
    requires Coherent(q) && q.next == InRow
  {
    if IsEof(p) then
      if More(EofStatus(p)) then q.(resultIndex := q.resultIndex + 1, next := ResultsetHeader) else Done(q)
    else if q.callback then q.(rows := q.rows[q.currentRows := Rows(q.rows[q.currentRows].rows + [p])])
    else Emit(q, RowEvent(p, q.resultIndex))
  }

  /** `this.next(packet, connection)`. A missing EOF packet after the columns ends the command. */
  function NextStep(q: QueryState, p: Maybe<Buffer>): QueryState
    requires Coherent(q)
  {
    if q.next == Start then q.(next := ResultsetHeader)
    else if p.Nothing? then q
    else match q.next
      case ResultsetHeader => HeaderStep(q, p.value)
      case ReadField => FieldStep(q, p.value)
      case FieldsEof => if IsEof(p.value) then q.(next := InRow) else q.(next := Stopped)
      case InRow => RowStep(q, p.value)
      case _ => q
  }

  /** `execute`: the state afterwards, and whether the command is done. */
  function Execute(q: QueryState, p: Maybe<Buffer>): (QueryState, bool)
    requires Coherent(q)
  {
    var q := if q.next == NotStarted then q.(next := Start) else q;
    if p.Just? && IsError(p.value) then
      (Emit(if q.callback then q.(delivered := DeliveredError(p.value)) else Emit(q, ErrorEvent(p.value)), EndEvent),
       true)
    else
      var q' := NextStep(q, p);
      if q'.next == Stopped then (Emit(q', EndEvent), true) else (q', false)
  }

  lemma HeaderCoherent(q: QueryState, p: Buffer)
    requires Coherent(q) && q.next == ResultsetHeader
    ensures Coherent(HeaderStep(q, p))
  {
    hide OkStatus, More, ReadLc, IsOk;
  }

  lemma FieldCoherent(q: QueryState, p: Buffer)
    requires Coherent(q) && q.next == ReadField
    ensures Coherent(FieldStep(q, p))
  {
  }

  lemma RowCoherent(q: QueryState, p: Buffer)
    requires Coherent(q) && q.next == InRow
    ensures Coherent(RowStep(q, p))
  {
    hide EofStatus, More, IsEof;
  }

  lemma NextCoherent(q: QueryState, p: Maybe<Buffer>)
    requires Coherent(q)
    ensures Coherent(NextStep(q, p))
  {
    hide HeaderStep, FieldStep, RowStep, IsEof;
    if p.Just? {
      match q.next
      case ResultsetHeader => HeaderCoherent(q, p.value);
      case ReadField => FieldCoherent(q, p.value);
      case InRow => RowCoherent(q, p.value);
      case _ =>
    }
  }

  /** Whatever packets the server sends, the lists stay coherent. */
  lemma ExecuteCoherent(q: QueryState, p: Maybe<Buffer>)
    requires Coherent(q)
    ensures Coherent(Execute(q, p).0)
  {
    hide NextStep, IsError;
    NextCoherent(if q.next == NotStarted then q.(next := Start) else q, p);
  }

  /** lib/commands/query.js, with the step of lib/commands/command.js. */
  class Query {
    const hasCallback: bool
    const frames: nat
    var next: Next
    var fieldCount: nat
    var receivedFieldsCount: nat
    var resultIndex: nat
    var currentRows: nat
    var rows: seq<Result>
    var fields: seq<Columns>
    var events: seq<Event>
    var delivered: Delivery

    ghost function State(): QueryState reads this {
      QueryState(hasCallback, frames, next, fieldCount, receivedFieldsCount, resultIndex, currentRows, rows, fields,
                 events, delivered)
    }

    constructor (hasCallback: bool, frames: nat)
      ensures State() == Created(hasCallback, frames)
    {
      this.hasCallback, this.frames := hasCallback, frames;
      next, fieldCount, receivedFieldsCount, resultIndex, currentRows := NotStarted, 0, 0, 0, 0;
      rows, fields, events, delivered := [], [], [], NotDelivered;
    }

    method Finish() returns (continuation: Next)
      modifies this
      ensures State().(next := Stopped) == Done(old(State())) && continuation == Stopped
    {
      if hasCallback {
        if resultIndex == 0 && |rows| > 0 && |fields| > 0 {
          delivered := DeliveredOne(rows[0], fields[0]);
        } else {
          delivered := DeliveredAll(rows, fields);
        }
      }
      continuation := Stopped;
    }

    method DoneInsert(ok: Buffer, status: nat) returns (continuation: Next)
      modifies this
      ensures State().(next := continuation) == InsertStep(old(State()), ok, status)
    {
      rows := rows + [Header(ok)];
      fields := fields + [Nothing];
      events := events + [FieldsEvent(Nothing)];
      events := events + [HeaderEvent(ok)];
      if More(status) {
        resultIndex := resultIndex + 1;
        return ResultsetHeader;
      }
      continuation := Finish();
    }

    method OnResultsetHeader(packet: Buffer) returns (continuation: Next)
      modifies this
      ensures State().(next := continuation) == HeaderStep(old(State()), packet)
    {
      hide OkStatus, ReadLc;
      match ReadLc(packet, 0) {
        case LcNumber(n, _) =>
          fieldCount := n;
          if n == 0 {
            continuation := DoneInsert(packet, if IsOk(packet) then OkStatus(packet) else 0);
            return;
          }
          receivedFieldsCount := 0;
          currentRows := |rows|;
          rows := rows + [Rows([])];
          fields := fields + [Just([])];
          continuation := ReadField;
        case _ => continuation := Elsewhere;
      }
    }

    method OnField(packet: Buffer) returns (continuation: Next)
      requires Coherent(State()) && next == ReadField
      modifies this
      ensures State().(next := continuation) == FieldStep(old(State()), packet)
    {
      receivedFieldsCount := receivedFieldsCount + 1;
      var columns := fields[resultIndex].value;
      if |columns| != fieldCount {
        columns := columns + [packet];
        fields := fields[resultIndex := Just(columns)];
      }
      if receivedFieldsCount == fieldCount {
        events := events + [FieldsEvent(Just(columns))];
        return FieldsEof;
      }
      continuation := ReadField;
    }

    method OnRow(packet: Buffer) returns (continuation: Next)
      requires Coherent(State()) && next == InRow
      modifies this
      ensures State().(next := continuation) == RowStep(old(State()), packet)
    {
      hide EofStatus;
      if IsEof(packet) {
        if More(EofStatus(packet)) {
          resultIndex := resultIndex + 1;
          return ResultsetHeader;
        }
        continuation := Finish();
        return;
      }
      if hasCallback {
        rows := rows[currentRows := Rows(rows[currentRows].rows + [packet])];
      } else {
        events := events + [RowEvent(packet, resultIndex)];
      }
      continuation := InRow;
    }

    method Step(packet: Maybe<Buffer>) returns (done: bool)
      requires Coherent(State())
      modifies this
      ensures (State(), done) == Execute(old(State()), packet) && Coherent(State())
    {
      hide HeaderStep, FieldStep, RowStep, Done, Coherent;
      ExecuteCoherent(State(), packet);
      ghost var was := State();
      if next == NotStarted {
        next := Start;
        Starting(was);
      }
      if packet.Just? && IsError(packet.value) {
        if hasCallback {
          delivered := DeliveredError(packet.value);
        } else {
          events := events + [ErrorEvent(packet.value)];
        }
        events := events + [EndEvent];
        return true;
      }
      if next == Start {
        next := ResultsetHeader;
      } else if packet.Just? {
        match next {
          case ResultsetHeader => next := OnResultsetHeader(packet.value);
          case ReadField => next := OnField(packet.value);
          case FieldsEof => next := if IsEof(packet.value) then InRow else Stopped;
          case InRow => next := OnRow(packet.value);
          case _ =>
        }
      }
      done := next == Stopped;
      if done {
        events := events + [EndEvent];
      }
    }
  }

  lemma Starting(q: QueryState)
    requires Coherent(q) && q.next == NotStarted
    ensures Coherent(q.(next := Start))
  {
  }

  // ---------------------------------------------------------------- well-formed responses
  // The page "COM_QUERY Response" of the MySQL client/server protocol.

  datatype ResultSet =
    | Ok(affectedRows: nat, insertId: nat, flags: set<StatusFlag>, rest: Buffer)
    | Table(columns: seq<Buffer>, rows: seq<Buffer>, warnings: nat, opening: set<StatusFlag>, flags: set<StatusFlag>)

  function OkBytes(affectedRows: nat, insertId: nat, status: nat, rest: Buffer): (b: Buffer)
    ensures b != [] && b[0] == 0
  {
    [0] + LcBytes(affectedRows) + LcBytes(insertId) + Le(status, 2) + rest
  }

  function EofBytes(warnings: nat, status: nat): (b: Buffer)
    ensures |b| == 5 && b[0] == 0xfe
  {
    [0xfe] + Le(warnings, 2) + Le(status, 2)
  }

  function SetPackets(s: ResultSet): (packets: seq<Buffer>)
    ensures |packets| >= 1
  {
    match s
    case Ok(affectedRows, insertId, flags, rest) => [OkBytes(affectedRows, insertId, StatusOf(flags), rest)]
    case Table(columns, rows, warnings, opening, flags) =>
      [LcBytes(|columns|)] + columns + [EofBytes(warnings, StatusOf(opening))] + rows +
      [EofBytes(warnings, StatusOf(flags))]
  }

  /** A result whose flags say whether another follows. Column definitions are any packets but an ERR packet,
      rows any but an ERR or EOF packet; the other flags are arbitrary. */
  predicate WellFormed(s: ResultSet, more: bool) {
    && (MoreResultsExist in s.flags <==> more)
    && match s
       case Ok(affectedRows, insertId, _, _) => affectedRows < TWO53 && insertId < TWO53
       case Table(columns, rows, warnings, _, _) =>
         && 1 <= |columns| < TWO53 && warnings < TWO16
         && (forall c :: c in columns ==> !IsErrPacket(c))
         && (forall r :: r in rows ==> !IsErrPacket(r) && !IsEofPacket(r))
  }

  /** The client finds the flag where the server puts it, whatever other flags are set. */
  lemma MoreIsTheFlag(flags: set<StatusFlag>)
    ensures More(StatusOf(flags)) <==> MoreResultsExist in flags
  {
    hide FlagsTo128, FlagsTo2048, FlagsTo16384;
    HighFlags(flags);
    var q := FlagsTo128(flags) / 16 + FlagsTo2048(flags) / 16 + FlagsTo16384(flags) / 16;
    assert StatusOf(flags) == FlagsBelow8(flags) + Flag(MoreResultsExist in flags, 8) + 16 * q;
  }

  lemma HighFlags(flags: set<StatusFlag>)
    ensures FlagsTo128(flags) % 16 == 0 && FlagsTo2048(flags) % 16 == 0 && FlagsTo16384(flags) % 16 == 0
  {
  }

  /** The client tells the kinds of packets apart as the protocol does. */
  lemma PacketKinds(b: Buffer)
    ensures IsOk(b) <==> IsOkPacket(b)
    ensures IsError(b) <==> IsErrPacket(b)
    ensures IsEof(b) <==> IsEofPacket(b)
  {
  }

  lemma OkRead(affectedRows: nat, insertId: nat, status: nat, rest: Buffer)
    requires affectedRows < TWO53 && insertId < TWO53 && status < TWO16
    ensures OkStatus(OkBytes(affectedRows, insertId, status, rest)) == status
    ensures ReadLc(OkBytes(affectedRows, insertId, status, rest), 0) == LcNumber(0, 1)
  {
    hide Le, FromLe, LcBytes, ReadLc, Pow256, LcLength;
    var b := OkBytes(affectedRows, insertId, status, rest);
    var a, i, t := LcBytes(affectedRows), LcBytes(insertId), Le(status, 2);
    assert b == [0] + (a + (i + (t + rest)));
    assert b[1..] == a + (i + (t + rest)) && Holds(b, 1, a + (i + (t + rest)));
    HoldsSplit(b, 1, a, i + (t + rest));
    HoldsSplit(b, 1 + |a|, i, t + rest);
    HoldsSplit(b, 1 + |a| + |i|, t, rest);
    LcRoundTrip(b, 1, affectedRows);
    LcRoundTrip(b, 1 + |a|, insertId);
    Pow256Values();
    LeRoundTrip(status, 2);
    OneByte(b);
  }

  lemma OneByte(b: Buffer)
    requires b != [] && b[0] < 0xfb
    ensures ReadLc(b, 0) == LcNumber(b[0], 1)
  {
  }

  lemma EofRead(warnings: nat, status: nat)
    requires status < TWO16
    ensures var b := EofBytes(warnings, status);
            IsEof(b) && !IsError(b) && EofStatus(b) == status
  {
    hide Le, FromLe, Pow256;
    Pow256Values();
    LeRoundTrip(status, 2);
    assert EofBytes(warnings, status)[3..5] == Le(status, 2);
  }

  lemma CountRead(n: nat)
    requires 1 <= n < TWO53
    ensures ReadLc(LcBytes(n), 0) == LcNumber(n, LcLength(n)) && !IsError(LcBytes(n))
  {
    hide ReadLc, Le, Words;
    assert Holds(LcBytes(n), 0, LcBytes(n));
    LcRoundTrip(LcBytes(n), 0, n);
  }

  function CellBytes(cell: Maybe<Buffer>): (b: Buffer)
    ensures |b| >= 1
  {
    if cell.Just? then LcBytes(|cell.value|) + cell.value else [0xfb]
  }

  function RowBytes(cells: seq<Maybe<Buffer>>): Buffer {
    if cells == [] then [] else CellBytes(cells[0]) + RowBytes(cells[1..])
  }

  /** A text row is never taken for an EOF or an ERR packet, not even when its first column has a length of
      eight bytes and so the marker of an EOF packet. */
  lemma TextRowRecognized(cells: seq<Maybe<Buffer>>)
    requires |cells| >= 1 && forall c :: c in cells && c.Just? ==> |c.value| < TWO53
    ensures !IsErrPacket(RowBytes(cells)) && !IsEofPacket(RowBytes(cells))
  {
    hide Le, Words;
    assert cells[0] in cells;
    var first := CellBytes(cells[0]);
    assert RowBytes(cells)[0] == first[0];
    if first[0] == 0xfe {
      assert |first| >= 9;
    }
  }

  // ---------------------------------------------------------------- where a response has got to

  function ResultOf(callback: bool, s: ResultSet): Result {
    match s
    case Ok(affectedRows, insertId, flags, rest) => Header(OkBytes(affectedRows, insertId, StatusOf(flags), rest))
    case Table(_, rows, _, _, _) => Rows(if callback then rows else [])
  }

  function ColumnsOf(s: ResultSet): Columns {
    if s.Table? then Just(s.columns) else Nothing
  }

  function RowEvents(rows: seq<Buffer>, index: nat): seq<Event> {
    if rows == [] then [] else RowEvents(rows[..|rows| - 1], index) + [RowEvent(rows[|rows| - 1], index)]
  }

  function SetEvents(callback: bool, s: ResultSet, index: nat): seq<Event> {
    match s
    case Ok(_, _, _, _) => [FieldsEvent(Nothing), HeaderEvent(ResultOf(callback, s).ok)]
    case Table(columns, rows, _, _, _) => [FieldsEvent(Just(columns))] + if callback then [] else RowEvents(rows, index)
  }

  function Results(callback: bool, sets: seq<ResultSet>): (r: seq<Result>)
    ensures |r| == |sets| && forall i :: 0 <= i < |r| ==> r[i] == ResultOf(callback, sets[i])
  {
    if sets == [] then [] else Results(callback, sets[..|sets| - 1]) + [ResultOf(callback, sets[|sets| - 1])]
  }

  function ColumnLists(sets: seq<ResultSet>): (c: seq<Columns>)
    ensures |c| == |sets| && forall i :: 0 <= i < |c| ==> c[i] == ColumnsOf(sets[i])
  {
    if sets == [] then [] else ColumnLists(sets[..|sets| - 1]) + [ColumnsOf(sets[|sets| - 1])]
  }

  function AllEvents(callback: bool, sets: seq<ResultSet>): seq<Event> {
    if sets == [] then []
    else AllEvents(callback, sets[..|sets| - 1]) + SetEvents(callback, sets[|sets| - 1], |sets| - 1)
  }

  /** Inside a table, after `j` of its packets: its column count, columns, EOF, rows and last EOF. */
  predicate Inside(q: QueryState, before: seq<ResultSet>, table: ResultSet, j: nat)
    requires table.Table? && 1 <= j < |SetPackets(table)|
  {
    var n := |table.columns|;
    var read := if j <= n then table.columns[..j - 1] else table.columns;
    var collected := if j <= n + 1 then [] else table.rows[..j - n - 2];
    && q.fieldCount == n && q.currentRows == |before|
    && q.next == (if j <= n then ReadField else if j == n + 1 then FieldsEof else InRow)
    && (j <= n ==> q.receivedFieldsCount == j - 1)
    && q.fields == ColumnLists(before) + [Just(read)]
    && q.rows == Results(q.callback, before) + [Rows(if q.callback then collected else [])]
    && q.events == AllEvents(q.callback, before) +
         (if j <= n then [] else [FieldsEvent(Just(read))] + if q.callback then [] else RowEvents(collected, |before|))
  }

  /** The query has taken `j` packets of the result set after `before`. */
  predicate At(q: QueryState, before: seq<ResultSet>, current: ResultSet, j: nat)
    requires j < |SetPackets(current)|
  {
    && q.resultIndex == |before| && q.delivered == NotDelivered
    && (if j == 0 then Between(q, before) else current.Table? && Inside(q, before, current, j))
  }

  /** Between two results: all of those before are there, and nothing else. */
  predicate Between(q: QueryState, before: seq<ResultSet>) {
    && q.next == ResultsetHeader && q.resultIndex == |before| && q.delivered == NotDelivered
    && q.rows == Results(q.callback, before) && q.fields == ColumnLists(before)
         && q.events == AllEvents(q.callback, before)
  }

  /** The query has the whole response: result by result, what the server sent. */
  predicate Complete(q: QueryState, sets: seq<ResultSet>)
    requires |sets| >= 1
  {
    && q.rows == Results(q.callback, sets) && q.fields == ColumnLists(sets)
    && q.events == AllEvents(q.callback, sets) + [EndEvent]
    && q.delivered == (if !q.callback then NotDelivered
                       else if |sets| == 1 then DeliveredOne(ResultOf(true, sets[0]), ColumnsOf(sets[0]))
                       else DeliveredAll(Results(true, sets), ColumnLists(sets)))
  }

  /** After the last packet of a result: between results when more follow, complete otherwise. */
  predicate After(q: QueryState, done: bool, sets: seq<ResultSet>, more: bool)
    requires |sets| >= 1
  {
    if more then !done && Between(q, sets) else done && Complete(q, sets)
  }

  lemma AddResult(callback: bool, before: seq<ResultSet>, s: ResultSet)
    ensures Results(callback, before + [s]) == Results(callback, before) + [ResultOf(callback, s)]
    ensures ColumnLists(before + [s]) == ColumnLists(before) + [ColumnsOf(s)]
    ensures AllEvents(callback, before + [s]) == AllEvents(callback, before) + SetEvents(callback, s, |before|)
  {
    hide ResultOf, ColumnsOf, SetEvents;
    assert (before + [s])[..|before|] == before;
  }

  lemma AtCoherent(q: QueryState, before: seq<ResultSet>, current: ResultSet, j: nat)
    requires j < |SetPackets(current)| && At(q, before, current, j)
    ensures Coherent(q)
  {
    hide SetPackets, AllEvents, RowEvents;
  }

  lemma OkTaken(q: QueryState, before: seq<ResultSet>, s: ResultSet, more: bool)
    requires s.Ok? && WellFormed(s, more) && At(q, before, s, 0) && Coherent(q)
    ensures var (q', done) := Execute(q, Just(SetPackets(s)[0]));
            After(q', done, before + [s], more)
  {
    hide AllEvents, OkBytes, OkStatus, ReadLc, More, Results, ColumnLists, StatusOf;
    OkRead(s.affectedRows, s.insertId, StatusOf(s.flags), s.rest);
    MoreIsTheFlag(s.flags);
    AddResult(q.callback, before, s);
    OneResult(q.callback, before, s);
    var b := OkBytes(s.affectedRows, s.insertId, StatusOf(s.flags), s.rest);
    assert AllEvents(q.callback, before) + [FieldsEvent(Nothing)] + [HeaderEvent(b)] ==
           AllEvents(q.callback, before) + [FieldsEvent(Nothing), HeaderEvent(b)];
  }

  lemma OneResult(callback: bool, before: seq<ResultSet>, s: ResultSet)
    ensures |before| == 0 ==>
            Results(callback, before + [s])[0] == ResultOf(callback, s) && ColumnLists(before + [s])[0] == ColumnsOf(s)
  {
  }

  lemma HeaderTaken(q: QueryState, before: seq<ResultSet>, s: ResultSet, more: bool)
    requires s.Table? && WellFormed(s, more) && At(q, before, s, 0) && Coherent(q)
    ensures var (q', done) := Execute(q, Just(SetPackets(s)[0]));
            !done && At(q', before, s, 1)
  {
    hide AllEvents, ReadLc, More, Results, ColumnLists, LcBytes, EofBytes;
    CountRead(|s.columns|);
    assert s.columns[..0] == [];
  }

  lemma ColumnTaken(q: QueryState, before: seq<ResultSet>, s: ResultSet, more: bool, j: nat)
    requires s.Table? && WellFormed(s, more) && 1 <= j <= |s.columns| && At(q, before, s, j) && Coherent(q)
    ensures var (q', done) := Execute(q, Just(s.columns[j - 1]));
            !done && At(q', before, s, j + 1)
  {
    hide AllEvents, More, Results, ColumnLists, LcBytes, EofBytes, RowEvents, StatusOf;
    assert s.columns[j - 1] in s.columns;
    PacketKinds(s.columns[j - 1]);
    assert s.columns[..j] == s.columns[..j - 1] + [s.columns[j - 1]];
    assert s.columns[..|s.columns|] == s.columns;
    NoRows(|before|);
    assert s.rows[..0] == [];
  }

  lemma NoRows(index: nat)
    ensures RowEvents([], index) == []
  {
  }

  lemma EofTaken(q: QueryState, before: seq<ResultSet>, s: ResultSet, more: bool)
    requires s.Table? && WellFormed(s, more) && At(q, before, s, |s.columns| + 1) && Coherent(q)
    ensures var (q', done) := Execute(q, Just(EofBytes(s.warnings, StatusOf(s.opening))));
            !done && At(q', before, s, |s.columns| + 2)
  {
    hide AllEvents, More, Results, ColumnLists, LcBytes, EofBytes, RowEvents, IsEof, IsError, StatusOf;
    EofRead(s.warnings, StatusOf(s.opening));
    NoRows(|before|);
    assert s.rows[..0] == [];
  }

  lemma RowTaken(q: QueryState, before: seq<ResultSet>, s: ResultSet, more: bool, k: nat)
    requires s.Table? && WellFormed(s, more) && k < |s.rows| && At(q, before, s, |s.columns| + 2 + k) && Coherent(q)
    ensures var (q', done) := Execute(q, Just(s.rows[k]));
            !done && At(q', before, s, |s.columns| + 3 + k)
  {
    hide AllEvents, More, Results, ColumnLists, LcBytes, EofBytes, RowEvents, IsEof, IsError, StatusOf;
    assert s.rows[k] in s.rows;
    PacketKinds(s.rows[k]);
    assert s.rows[..k + 1] == s.rows[..k] + [s.rows[k]];
    MoreRows(s.rows, k, |before|);
    var start := AllEvents(q.callback, before) + [FieldsEvent(Just(s.columns))];
    assert AllEvents(q.callback, before) + ([FieldsEvent(Just(s.columns))] + RowEvents(s.rows[..k + 1], |before|)) ==
           AllEvents(q.callback, before) + ([FieldsEvent(Just(s.columns))] + RowEvents(s.rows[..k], |before|))
             + [RowEvent(s.rows[k], |before|)];
  }

  lemma MoreRows(rows: seq<Buffer>, k: nat, index: nat)
    requires k < |rows|
    ensures RowEvents(rows[..k + 1], index) == RowEvents(rows[..k], index) + [RowEvent(rows[k], index)]
  {
    assert rows[..k + 1][..k] == rows[..k];
  }

  lemma LastEofTaken(q: QueryState, before: seq<ResultSet>, s: ResultSet, more: bool)
    requires s.Table? && WellFormed(s, more) && At(q, before, s, |s.columns| + 2 + |s.rows|) && Coherent(q)
    ensures var (q', done) := Execute(q, Just(EofBytes(s.warnings, StatusOf(s.flags))));
            After(q', done, before + [s], more)
  {
    hide AllEvents, More, Results, ColumnLists, LcBytes, EofBytes, RowEvents, IsEof, IsError, StatusOf;
    EofRead(s.warnings, StatusOf(s.flags));
    MoreIsTheFlag(s.flags);
    AddResult(q.callback, before, s);
    OneResult(q.callback, before, s);
    assert s.rows[..|s.rows|] == s.rows;
  }

  /** Each packet of a well-formed result takes the query one packet further; it is done exactly when the
      last packet of the last result has come, and then it has every result. */
  lemma PacketTaken(q: QueryState, before: seq<ResultSet>, s: ResultSet, more: bool, j: nat)
    requires WellFormed(s, more) && j < |SetPackets(s)| && At(q, before, s, j)
    ensures Coherent(q)
    ensures var (q', done) := Execute(q, Just(SetPackets(s)[j]));
            if j + 1 < |SetPackets(s)| then !done && At(q', before, s, j + 1) else After(q', done, before + [s], more)
  {
    hide At, After, Execute, Coherent, EofBytes, LcBytes, OkBytes;
    AtCoherent(q, before, s, j);
    if s.Ok? {
      OkTaken(q, before, s, more);
    } else if j == 0 {
      HeaderTaken(q, before, s, more);
    } else if j <= |s.columns| {
      ColumnTaken(q, before, s, more, j);
    } else if j == |s.columns| + 1 {
      EofTaken(q, before, s, more);
    } else if j < |s.columns| + 2 + |s.rows| {
      RowTaken(q, before, s, more, j - |s.columns| - 2);
    } else {
      LastEofTaken(q, before, s, more);
    }
  }

  /** An ERR packet in place of any packet ends the query at once, with that error. */
  lemma ErrorTaken(q: QueryState, before: seq<ResultSet>, s: ResultSet, j: nat, error: Buffer)
    requires j < |SetPackets(s)| && At(q, before, s, j) && IsErrPacket(error)
    ensures Coherent(q)
    ensures var (q', done) := Execute(q, Just(error));
            && done && (q.callback ==> q'.delivered == DeliveredError(error) && q'.events == q.events + [EndEvent])
            && (!q.callback ==> q'.delivered == NotDelivered && q'.events == q.events + [ErrorEvent(error), EndEvent])
  {
    AtCoherent(q, before, s, j);
    hide At, Coherent;
  }

  // ---------------------------------------------------------------- the connection

  /** A packet of the server, with the sequence id of its first frame and the number of its frames. */
  datatype Packet = Packet(payload: Buffer, sequenceId: nat, numPackets: nat)

  /** The connection's queries in the order in which they were added: those before `done` are over, the
      one there is the current command, and the others wait. */
  datatype ConnectionState = ConnectionState(queries: seq<QueryState>, done: nat, sequenceId: nat, warnings: nat,
                                             closed: bool)

  ghost predicate Usable(c: ConnectionState) {
    c.done <= |c.queries| && forall k :: c.done <= k < |c.queries| ==> Coherent(c.queries[k])
  }

  /** A packet for the current command, or its start: the state afterwards, and whether the command is over.
      Starting resets the sequence id and sends the query, whose frames are counted. */
  ghost function TakePacket(c: ConnectionState, p: Maybe<Packet>): (r: (ConnectionState, bool))
    requires Usable(c) && c.done < |c.queries|
    ensures Usable(r.0) && |r.0.queries| == |c.queries| && r.0.done == c.done
  {
    var q := c.queries[c.done];
    var payload := if p.Just? then Just(p.value.payload) else Nothing;
    ExecuteCoherent(q, payload);
    var warned := if p.Just? && p.value.sequenceId != c.sequenceId then 1 else 0;
    var id := if p.Just? then (c.sequenceId + p.value.numPackets) % 256 else c.sequenceId;
    var (q', over) := Execute(q, payload);
    var id' := if q.next == NotStarted then (if q'.next == ResultsetHeader then q.frames % 256 else 0) else id;
    (c.(queries := c.queries[c.done := q'], sequenceId := id', warnings := c.warnings + warned), over)
  }

  /** `handlePacket`, with a packet or to start the current command. */
  ghost function HandlePacket(c: ConnectionState, p: Maybe<Packet>): (r: ConnectionState)
    requires Usable(c)
    ensures Usable(r)
    decreases |c.queries| - c.done
  {
    if c.done == |c.queries| then c.(closed := true)
    else
      var (c', over) := TakePacket(c, p);
      if !over then c'
      else if c.done + 1 == |c.queries| then c'.(done := c.done + 1)
      else HandlePacket(c'.(done := c.done + 1, sequenceId := 0), Nothing)
  }

  /** `addCommand`, while the connection is open. */
  ghost function AddCommand(c: ConnectionState, q: QueryState): ConnectionState
    requires Usable(c) && Coherent(q)
  {
    var c' := c.(queries := c.queries + [q]);
    if c.done == |c.queries| then HandlePacket(c', Nothing) else c'
  }

  class Connection {
    var command: Query?
    var commands: seq<Query>
    var sequenceId: nat
    var warnings: nat
    var closed: bool
    ghost var added: seq<Query>
    ghost var done: nat

    ghost predicate Shape()
      reads this
    {
      && done <= |added| && NoDuplicates(added)
      && (command == null <==> done == |added|)
      && (command != null ==> command == added[done] && commands == added[done + 1..])
      && (command == null ==> commands == [])
    }

    ghost function States(): (s: seq<QueryState>)
      reads this, added
      ensures |s| == |added| && forall k :: 0 <= k < |s| ==> s[k] == added[k].State()
    {
      StatesOf(added)
    }

    ghost function State(): ConnectionState
      reads this, added
    {
      ConnectionState(States(), done, sequenceId, warnings, closed)
    }

    ghost predicate Valid()
      reads this, added
    {
      Shape() && Usable(State())
    }

    constructor ()
      ensures Valid() && State() == ConnectionState([], 0, 0, 0, false) && added == []
    {
      command, commands, sequenceId, warnings, closed := null, [], 0, 0, false;
      added, done := [], 0;
    }

    /** The other queries are other objects. */
    lemma DistinctFrom(s: seq<Query>, i: nat)
      requires NoDuplicates(s) && i < |s|
      ensures forall k :: 0 <= k < |s| && k != i ==> s[k] != s[i]
    {
    }

    /** Packets are counted; one out of order gives a warning. */
    method Count(p: Maybe<Packet>)
      modifies this`sequenceId, this`warnings
      ensures sequenceId == if p.Just? then (old(sequenceId) + p.value.numPackets) % 256 else old(sequenceId)
      ensures warnings == old(warnings) + if p.Just? && p.value.sequenceId != old(sequenceId) then 1 else 0
    {
      if p.Just? {
        if sequenceId != p.value.sequenceId {
          warnings := warnings + 1;
        }
        sequenceId := (sequenceId + p.value.numPackets) % 256;
      }
    }

    method StepCurrent(p: Maybe<Packet>) returns (over: bool)
      requires Valid() && command != null
      modifies this`sequenceId, this`warnings, added
      ensures Valid() && (State(), over) == TakePacket(old(State()), p)
    {
      hide Execute, Coherent, Query.State, NoDuplicates, TakePacket, States, Usable;
      ghost var was := State();
      CurrentState();
      Count(p);
      over := StepQuery(if p.Just? then Just(p.value.payload) else Nothing);
      Others(was.queries);
      Taken(was, p, command.State(), over);
    }

    method StepQuery(payload: Maybe<Buffer>) returns (over: bool)
      requires Shape() && command != null && Coherent(command.State())
      modifies this`sequenceId, added
      ensures Shape() && command != null
      ensures var q, q' := old(command.State()), command.State();
              sequenceId == if q.next != NotStarted then old(sequenceId)
                            else if q'.next == ResultsetHeader then q.frames % 256 else 0
      ensures (command.State(), over) == Execute(old(command.State()), payload)
      ensures forall k :: 0 <= k < |added| && k != done ==> added[k].State() == old(added[k].State())
    {
      hide Execute, Coherent, Query.State, States, NoDuplicates;
      var current: Query := command;
      DistinctFrom(added, done);
      NextOf(current);
      var starting := current.next == NotStarted;
      over := current.Step(payload);
      NextOf(current);
      if starting {
        sequenceId := if current.next == ResultsetHeader then current.frames % 256 else 0;
      }
    }

    lemma CurrentState()
      requires Valid() && command != null
      ensures States()[done] == command.State() && Coherent(command.State())
    {
      hide Query.State, Coherent, NoDuplicates;
    }

    /** Only the current query has changed. */
    lemma Others(was: seq<QueryState>)
      requires done < |added| == |was| && forall k :: 0 <= k < |was| && k != done ==> was[k] == added[k].State()
      ensures States() == was[done := added[done].State()]
    {
      hide Query.State;
    }

    method Shift() returns (more: bool)
      requires Valid() && command != null
      modifies this`done, this`command, this`commands, this`sequenceId
      ensures Valid() && done == old(done) + 1 && more == (done < |added|)
      ensures State() == old(State()).(done := done, sequenceId := if more then 0 else old(sequenceId))
    {
      hide Query.State, NoDuplicates, Coherent, Usable, States;
      ghost var was := State();
      NextCommand();
      done := done + 1;
      more := commands != [];
      if more {
        command, commands := commands[0], commands[1..];
        sequenceId := 0;
      } else {
        command := null;
      }
      assert States() == was.queries;
      UsableAfter(was, sequenceId);
    }

    lemma NextCommand()
      requires Shape() && command != null
      ensures commands == [] <==> done + 1 == |added|
      ensures commands != [] ==> commands[0] == added[done + 1] && commands[1..] == added[done + 2..]
    {
      hide NoDuplicates;
    }

    /** A packet that no command expects. */
    method Close()
      requires Valid()
      modifies this`closed
      ensures Valid() && State() == old(State()).(closed := true)
    {
      hide Query.State, NoDuplicates, Coherent;
      closed := true;
    }

    method Handle(p: Maybe<Packet>)
      requires Valid()
      modifies this, added
      ensures Valid() && added == old(added) && State() == HandlePacket(old(State()), p)
      decreases |added| - done
    {
      hide TakePacket, Coherent, States, NoDuplicates, Query.State, Usable;
      if command == null {
        Close();
        return;
      }
      var over := StepCurrent(p);
      if over {
        var more := Shift();
        if more {
          Handle(Nothing);
        }
      }
    }

    /** The query becomes the current command, or waits. */
    method Enqueue(q: Query)
      requires Valid() && q !in added && Coherent(q.State())
      modifies this`added, this`command, this`commands
      ensures Valid() && added == old(added) + [q] && command != null
      ensures State() == old(State()).(queries := old(State()).queries + [q.State()])
    {
      hide Coherent, Query.State, NoDuplicates, Usable, StatesOf;
      OneMore(added, q);
      UsableSnoc(State(), q.State());
      added := added + [q];
      if command == null {
        command := q;
      } else {
        commands := commands + [q];
      }
    }

    method Add(q: Query)
      requires Valid() && q !in added && Coherent(q.State())
      modifies this, added, q
      ensures Valid() && added == old(added) + [q] && State() == AddCommand(old(State()), old(q.State()))
    {
      hide HandlePacket, Coherent, Query.State, NoDuplicates, Usable, States;
      var idle := command == null;
      Enqueue(q);
      if idle {
        Handle(Nothing);
      }
    }
  }

  lemma OneMore(queries: seq<Query>, q: Query)
    requires NoDuplicates(queries) && q !in queries
    ensures NoDuplicates(queries + [q]) && StatesOf(queries + [q]) == StatesOf(queries) + [q.State()]
  {
    hide Query.State;
    assert (queries + [q])[..|queries|] == queries;
  }

  lemma UsableSnoc(c: ConnectionState, q: QueryState)
    requires Usable(c) && Coherent(q)
    ensures Usable(c.(queries := c.queries + [q]))
  {
    hide Coherent;
  }

  /** `TakePacket`, from the step of the current query. */
  lemma Taken(c: ConnectionState, p: Maybe<Packet>, q': QueryState, over: bool)
    requires Usable(c) && c.done < |c.queries|
    requires (q', over) == Execute(c.queries[c.done], if p.Just? then Just(p.value.payload) else Nothing)
    ensures var q := c.queries[c.done];
            var id := if p.Just? then (c.sequenceId + p.value.numPackets) % 256 else c.sequenceId;
            TakePacket(c, p) ==
            (c.(queries := c.queries[c.done := q'],
                sequenceId :=
                  if q.next == NotStarted then (if q'.next == ResultsetHeader then q.frames % 256 else 0) else id,
                warnings := c.warnings + if p.Just? && p.value.sequenceId != c.sequenceId then 1 else 0), over)
  {
    hide Execute, Coherent;
  }

  lemma NextOf(q: Query)
    ensures q.State().next == q.next && q.State().frames == q.frames
  {
  }

  ghost function StatesOf(queries: seq<Query>): (s: seq<QueryState>)
    reads queries
    ensures |s| == |queries| && forall k :: 0 <= k < |s| ==> s[k] == queries[k].State()
  {
    if queries == [] then [] else StatesOf(queries[..|queries| - 1]) + [queries[|queries| - 1].State()]
  }

  // ---------------------------------------------------------------- pipelined queries

  /** An ERR packet in place of a packet of a response. */
  datatype Failure = Failure(index: nat, packet: nat, error: Buffer)

  /** A query that will be added, and how the server will answer it. */
  datatype Plan = Plan(callback: bool, frames: nat, sets: seq<ResultSet>, failure: Maybe<Failure>)

  predicate ValidPlan(p: Plan) {
    && |p.sets| >= 1 && (forall i :: 0 <= i < |p.sets| ==> WellFormed(p.sets[i], i + 1 < |p.sets|))
    && (p.failure.Just? ==> IsErrPacket(p.failure.value.error))
  }

  /** The client's connection and the server: the plans of the queries added, and how far the response to
      the current one has got, in result sets, packets and sequence ids. */
  datatype World = World(connection: ConnectionState, plans: seq<Plan>, index: nat, packet: nat, id: nat)

  datatype Action = Add(plan: Plan) | Receive(frames: nat)

  predicate FailsAt(p: Plan, index: nat, packet: nat) {
    p.failure.Just? && p.failure.value.index == index && p.failure.value.packet == packet
  }

  predicate Answering(w: World) {
    && w.connection.done < |w.plans| && ValidPlan(w.plans[w.connection.done])
    && w.index < |w.plans[w.connection.done].sets|
    && w.packet < |SetPackets(w.plans[w.connection.done].sets[w.index])|
  }

  function NextPayload(w: World): Buffer
    requires Answering(w)
  {
    var plan := w.plans[w.connection.done];
    if FailsAt(plan, w.index, w.packet) then plan.failure.value.error else SetPackets(plan.sets[w.index])[w.packet]
  }

  /** Whether the next packet is the last of its response. */
  predicate IsLast(w: World)
    requires Answering(w)
  {
    var plan := w.plans[w.connection.done];
    || FailsAt(plan, w.index, w.packet)
    || (w.index + 1 == |plan.sets| && w.packet + 1 == |SetPackets(plan.sets[w.index])|)
  }

  /** The server goes on; after a last packet it turns to the next query, whose packets follow on its frames. */
  function Onwards(w: World, c: ConnectionState, frames: nat): World
    requires Answering(w)
  {
    var k := w.connection.done;
    if IsLast(w) then World(c, w.plans, 0, 0, if k + 1 < |w.plans| then w.plans[k + 1].frames % 256 else w.id)
    else if w.packet + 1 < |SetPackets(w.plans[k].sets[w.index])| then
      w.(connection := c, packet := w.packet + 1, id := (w.id + frames) % 256)
    else w.(connection := c, index := w.index + 1, packet := 0, id := (w.id + frames) % 256)
  }

  ghost function Act(w: World, a: Action): World
    requires Right(w) && (a.Add? ==> ValidPlan(a.plan))
  {
    match a
    case Add(plan) =>
      var c := AddCommand(w.connection, Created(plan.callback, plan.frames));
      if w.connection.done == |w.plans| then World(c, w.plans + [plan], 0, 0, plan.frames % 256)
      else w.(connection := c, plans := w.plans + [plan])
    case Receive(frames) =>
      if w.connection.done == |w.plans| then w // the server has nothing to answer
      else Onwards(w, HandlePacket(w.connection, Just(Packet(NextPayload(w), w.id, frames))), frames)
  }

  /** The response breaks off with an error. */
  predicate Fails(p: Plan) {
    && p.failure.Just? && p.failure.value.index < |p.sets|
    && p.failure.value.packet < |SetPackets(p.sets[p.failure.value.index])|
  }

  /** A query whose response is over: it has the error, or every result. */
  predicate Answered(q: QueryState, p: Plan) {
    && q.callback == p.callback && |p.sets| >= 1
    && (if !Fails(p) then Complete(q, p.sets)
        else if p.callback then q.delivered == DeliveredError(p.failure.value.error)
        else q.delivered == NotDelivered && EndsWith(q.events, [ErrorEvent(p.failure.value.error), EndEvent]))
  }

  predicate EndsWith<T(==)>(s: seq<T>, end: seq<T>) {
    |end| <= |s| && s[|s| - |end|..] == end
  }

  /** Finished queries are answered, the current one has exactly what the server has sent of its response,
      and later ones have not been started; the packet numbers agree. */
  ghost predicate Right(w: World) {
    var c := w.connection;
    && Usable(c) && |c.queries| == |w.plans| && c.warnings == 0 && !c.closed
    && (forall k :: 0 <= k < |w.plans| ==> ValidPlan(w.plans[k]))
    && (forall k :: 0 <= k < c.done ==> Answered(c.queries[k], w.plans[k]))
    && (c.done < |w.plans| ==> Answering(w) && c.sequenceId == w.id && RightNow(w))
    && (forall k :: c.done < k < |w.plans| ==> c.queries[k] == Created(w.plans[k].callback, w.plans[k].frames))
  }

  predicate RightNow(w: World)
    requires Answering(w) && w.connection.done < |w.connection.queries|
  {
    var q, plan := w.connection.queries[w.connection.done], w.plans[w.connection.done];
    && q.callback == plan.callback && At(q, plan.sets[..w.index], plan.sets[w.index], w.packet)
    && (Fails(plan) ==>
          || w.index < plan.failure.value.index
          || (w.index == plan.failure.value.index && w.packet <= plan.failure.value.packet))
  }

  lemma StartStep(callback: bool, frames: nat, s: ResultSet)
    ensures var q := Created(callback, frames);
            var q' := q.(next := ResultsetHeader);
            Coherent(q) && Execute(q, Nothing) == (q', false) && At(q', [], s, 0)
  {
    assert Results(callback, []) == [] && ColumnLists([]) == [] && AllEvents(callback, []) == [];
  }

  /** Starting a created query: nothing has been received, and its frames are counted. */
  lemma StartCreated(c: ConnectionState, plan: Plan)
    requires Usable(c) && c.done < |c.queries| && c.queries[c.done] == Created(plan.callback, plan.frames)
             && ValidPlan(plan)
    ensures var c' := HandlePacket(c, Nothing);
            && c'.queries == c.queries[c.done := c'.queries[c.done]] && c'.done == c.done
            && c'.sequenceId == plan.frames % 256 && c'.warnings == c.warnings && c'.closed == c.closed
            && c'.queries[c.done].callback == plan.callback
            && At(c'.queries[c.done], [], plan.sets[0], 0)
  {
    hide WellFormed, Coherent, Execute, At, SetPackets, TakePacket;
    StartStep(plan.callback, plan.frames, plan.sets[0]);
    var q' := Created(plan.callback, plan.frames).(next := ResultsetHeader);
    Taken(c, Nothing, q', false);
  }

  /** The current query takes the next packet of its response. */
  lemma QueryTakes(w: World)
    requires Right(w) && Answering(w)
    ensures var plan := w.plans[w.connection.done];
            var (q', over) := Execute(w.connection.queries[w.connection.done], Just(NextPayload(w)));
            && over == IsLast(w) && q'.callback == plan.callback
            && (if over then Answered(q', plan)
                else if w.packet + 1 < |SetPackets(plan.sets[w.index])| then
                  At(q', plan.sets[..w.index], plan.sets[w.index], w.packet + 1)
                else w.index + 1 < |plan.sets| && At(q', plan.sets[..w.index + 1], plan.sets[w.index + 1], 0))
  {
    hide At, Execute, Complete, Between, Usable, SetPackets, WellFormed, Coherent;
    var plan, q := w.plans[w.connection.done], w.connection.queries[w.connection.done];
    AtCoherent(q, plan.sets[..w.index], plan.sets[w.index], w.packet);
    KeepsCallback(q, Just(NextPayload(w)));
    if FailsAt(plan, w.index, w.packet) {
      ErrorTaken(q, plan.sets[..w.index], plan.sets[w.index], w.packet, plan.failure.value.error);
      ErrorAnswers(q, plan.failure.value.error);
    } else {
      PacketTaken(q, plan.sets[..w.index], plan.sets[w.index], w.index + 1 < |plan.sets|, w.packet);
      assert plan.sets[..w.index] + [plan.sets[w.index]] == plan.sets[..w.index + 1];
      if w.packet + 1 == |SetPackets(plan.sets[w.index])| {
        if w.index + 1 < |plan.sets| {
          BetweenIsAt(Execute(q, Just(NextPayload(w))).0, plan.sets[..w.index + 1], plan.sets[w.index + 1]);
        } else {
          assert plan.sets[..w.index + 1] == plan.sets;
        }
      }
    }
  }

  lemma ErrorAnswers(q: QueryState, error: Buffer)
    ensures var e := q.events + [ErrorEvent(error), EndEvent];
            |e| >= 2 && e[|e| - 2..] == [ErrorEvent(error), EndEvent]
  {
  }

  lemma BetweenIsAt(q: QueryState, before: seq<ResultSet>, s: ResultSet)
    requires Between(q, before)
    ensures |SetPackets(s)| > 0 && At(q, before, s, 0)
  {
  }

  lemma KeepsCallback(q: QueryState, p: Maybe<Buffer>)
    requires Coherent(q)
    ensures Execute(q, p).0.callback == q.callback
  {
    hide ReadLc, OkStatus, EofStatus, More;
  }

  /** The connection after the packet, up to the start of the next query. */
  lemma PacketCounts(w: World, frames: nat)
    requires Right(w) && Answering(w)
    ensures var c, p := w.connection, Just(Packet(NextPayload(w), w.id, frames));
            var (q', over) := Execute(c.queries[c.done], Just(NextPayload(w)));
            TakePacket(c, p) == (c.(queries := c.queries[c.done := q'], sequenceId := (w.id + frames) % 256), over)
  {
    hide Execute, Coherent, Inside, Answered, ValidPlan, SetPackets, WellFormed, AllEvents, Results, ColumnLists,
      NextPayload, TakePacket;
    var c, p := w.connection, Just(Packet(NextPayload(w), w.id, frames));
    var r := Execute(c.queries[c.done], Just(NextPayload(w)));
    Started(c.queries[c.done], w.plans[c.done].sets[..w.index], w.plans[c.done].sets[w.index], w.packet);
    Taken(c, p, r.0, r.1);
  }

  lemma Started(q: QueryState, before: seq<ResultSet>, s: ResultSet, j: nat)
    requires j < |SetPackets(s)| && At(q, before, s, j)
    ensures q.next != NotStarted
  {
    hide SetPackets, AllEvents, Results, ColumnLists;
  }

  lemma ReceiveRight(w: World, frames: nat)
    requires Right(w) && Answering(w)
    ensures Right(Act(w, Receive(frames)))
  {
    hide Execute, At, Answered, ValidPlan, SetPackets, Usable, TakePacket, Coherent, Created;
    var c, p := w.connection, Just(Packet(NextPayload(w), w.id, frames));
    QueryTakes(w);
    PacketCounts(w, frames);
    FailureAhead(w);
    if IsLast(w) && c.done + 1 < |c.queries| {
      var c' := TakePacket(c, p).0.(done := c.done + 1, sequenceId := 0);
      UsableAfter(TakePacket(c, p).0, 0);
      StartCreated(c', w.plans[c.done + 1]);
      FirstPacket(w.plans[c.done + 1]);
      assert w.plans[c.done + 1].sets[..0] == [];
    } else if IsLast(w) {
      UsableAfter(TakePacket(c, p).0, TakePacket(c, p).0.sequenceId);
    }
  }

  lemma UsableAfter(c: ConnectionState, id: nat)
    requires Usable(c) && c.done < |c.queries|
    ensures Usable(c.(done := c.done + 1, sequenceId := id))
  {
    hide Coherent;
  }

  lemma FirstPacket(p: Plan)
    requires ValidPlan(p)
    ensures |p.sets| > 0 && |SetPackets(p.sets[0])| > 0
  {
  }

  /** The response has not gone past its failure. */
  lemma FailureAhead(w: World)
    requires Right(w) && Answering(w)
    ensures var plan := w.plans[w.connection.done];
            Fails(plan) && !IsLast(w) ==> (if w.packet + 1 < |SetPackets(plan.sets[w.index])|
                             then w.index < plan.failure.value.index
                               || (w.index == plan.failure.value.index && w.packet + 1 <= plan.failure.value.packet)
                             else w.index + 1 <= plan.failure.value.index)
  {
    hide At, Usable, ValidPlan, Answered;
  }

  lemma AddRight(w: World, plan: Plan)
    requires Right(w) && ValidPlan(plan)
    ensures Right(Act(w, Add(plan)))
  {
    hide Execute, At, Answered, ValidPlan, SetPackets, HandlePacket, Coherent;
    var c := w.connection;
    var added := c.(queries := c.queries + [Created(plan.callback, plan.frames)]);
    CreatedCoherent(plan.callback, plan.frames);
    if c.done == |w.plans| {
      StartCreated(added, plan);
      FirstPacket(plan);
      assert plan.sets[..0] == [];
    }
  }

  lemma CreatedCoherent(callback: bool, frames: nat)
    ensures Coherent(Created(callback, frames))
  {
  }

  ghost function Run(w: World, actions: seq<Action>): World
    requires Right(w) && forall a :: a in actions && a.Add? ==> ValidPlan(a.plan)
    decreases |actions|
  {
    if actions == [] then w
    else
      assert actions[0] in actions;
      ActRight(w, actions[0]);
      Run(Act(w, actions[0]), actions[1..])
  }

  lemma ActRight(w: World, a: Action)
    requires Right(w) && (a.Add? ==> ValidPlan(a.plan))
    ensures Right(Act(w, a))
  {
    hide Execute, At, Answered, ValidPlan, SetPackets, HandlePacket, Coherent, Fails;
    match a {
      case Add(plan) => AddRight(w, plan);
      case Receive(frames) =>
        if w.connection.done < |w.plans| {
          ReceiveRight(w, frames);
        }
    }
  }

  /** Pipelining: queries added at any moments, answered in order, each by a well-formed response or an
      error in the middle of one. At every moment the finished queries have exactly their own results, the
      current one exactly what has been sent of its response, no later one has been started, and no packet
      was out of order. */
  lemma {:induction false} PipelinedQueries(w: World, actions: seq<Action>)
    requires Right(w) && forall a :: a in actions && a.Add? ==> ValidPlan(a.plan)
    ensures Right(Run(w, actions))
    decreases |actions|
  {
    hide Right, Act, ValidPlan;
    if actions != [] {
      assert actions[0] in actions;
      ActRight(w, actions[0]);
      PipelinedQueries(Act(w, actions[0]), actions[1..]);
    }
  }

  /** A connection with no queries yet. */
  const START := World(ConnectionState([], 0, 0, 0, false), [], 0, 0, 0)

  lemma NothingYet()
    ensures Right(START)
  {
  }

  /** So it is in every run of a connection, from its start. */
  lemma QueriesFromStart(actions: seq<Action>)
    requires forall a :: a in actions && a.Add? ==> ValidPlan(a.plan)
    ensures Right(START) && Right(Run(START, actions))
  {
    hide Right, ValidPlan, Run;
    NothingYet();
    PipelinedQueries(START, actions);
  }
}
