# A Dafny model of node-mysql2

node-mysql2 is a MySQL client for Node.js. This project models the parts of it where correctness depends on
many steps or many inputs at once, and proves what they are for:

- **Bytes on the wire.** `Framing` (writing frames, reassembling them from arbitrary chunks), `Compression`
  (the compressed protocol, inline and through queues that run on later ticks and zlib completions),
  `LengthCoded` (length-encoded integers and the packet writers).
- **Rows.** `BinaryParsers` and `TextParsers` (the code generators for row parsers and the interpreters they
  must equal, over `Rows` and `JsLiterals`), `PacketReaders` and `RowsAsSent` (the packet's readers, and rows read
  as they were sent), `ParserCaches` (the cache of generated code), `Calendar` and `LocalDates` (civil days and the
  cache of hour offsets), `Geometry` (the well-known binary reader).
- **Commands.** `QueryProtocol` (which packet goes to which command, and when a command is done),
  `StatementExecute` (COM_STMT_EXECUTE) and `TimeValues` (TIME values and their text).
- **Connections.** `RingQueues` (the ring buffer behind the queues), `Pools`, `PoolOrder` and `ConnectionPool` (the
  connection pool as a machine of steps, whom it serves, and the object that takes the steps), `PoolClusters` and
  `ClusterRuns` (nodes, error counts and retries: the objects, and any number of calls at once as a machine of
  steps).
- **The other side.** `Protocol`, `RowPages` and `ExecuteServer` say what the pages of the MySQL client/server
  protocol say, with the numbers of those pages. Nothing of the client's code enters into them; results about bytes
  are stated against them.

Code that updates objects in place is a class here, with the source's fields; its methods are proved against
a function of the old state, and the laws are proved about that function, over every input, run or schedule.
Names follow the source. `Maybes`, `Lists`, `Bytes` and `BitMasks` are shared vocabulary.

Where the source does not do what it promises, the model keeps the code, and a lemma says exactly when the
promise holds:

- `writePacket` loops while `offset < 4 + length`, although `length` already counts the four header bytes. A
  payload whose length is 1, 2 or 3 below a multiple of 2^24-1 is followed by an empty packet
  (`Framing.RoundTrip`, with 2^24-4 bytes in `Framing.StrayExample`).
- `RingQueue.splice` with nothing to insert counts a negative index from the end twice
  (`RingQueues.SpliceCountsFromEndTwice`, `RingQueues.SpliceBeforeTheStart`).
- With `resetOnRelease`, a connection that leaves the pool while it is being reset becomes a free connection
  that the pool no longer lists (`Pools.FreeListedStep`, `Pools.LateResetRun`), and the idle reaper could not
  get rid of it (`ConnectionPool.ReapProgress`); with a caller waiting it goes to that caller
  (`Pools.UnlistedSentExactly`, `Pools.LateHandOverRun`).
- A cached local date differs from the `Date` constructor when the wall time falls in the years 0 to 99 and
  the hour has a constant offset (`LocalDates.AgreesExactly`). A year from 100 on with a day below 1 gets
  there, such as day 0 of January 100 (`LocalDates.LastDayOfYear99`).
- A nested table named like a property that objects inherit is a table of its own only in generated text rows
  (`TextParsers.CompiledIsTextRow`, with a table called "constructor" in `TextParsers.ConstructorTable`).
- With `rowsAsArray` and `nestTables` both set, generated row parsers put the values into named properties of an
  array of holes, while the interpreters fill the array (`BinaryParsers.CompiledIsBinaryRow`,
  `TextParsers.CompiledIsTextRow`; a result of one column in `BinaryParsers.ArrayWithTables` and
  `TextParsers.ArrayWithTables`).
- Generators and interpreters do not refuse the same private column names; in array mode only the generators
  refuse any (`BinaryParsers.RefusalsAgree`, `TextParsers.RefusalsAgree`; a column called "__proto__" in
  `BinaryParsers.PrivateInArray` and `TextParsers.PrivateInArray`).
- The parser cache's key holds the decimal flag of the options while the generators read that of the
  connection, so connections that disagree about decimals can get each other's parser
  (`ParserCaches.ServedExactly`, `ParserCaches.HistoryExactly`, `ParserCaches.ConfusedRequests`).
- A null of a VECTOR column becomes an empty vector in text rows (`RowsAsSent.NullTextExactly`).
- With `typeCast: false` binary rows are read as if every value carried its length, so rows with numbers of a fixed
  width are misread (`RowsAsSent.RawExactly`, with a TINYINT column that holds 5 in `RowsAsSent.TinyWithoutCasts`).
- A TIME given as milliseconds can have 1000000 microseconds, which reads back as a tenth of a second
  (`TimeValues.NumberTimeSurvives`, with 999.9999 in `TimeValues.CarryExample`).
- An error of a connection whose cluster node was removed takes out the node that has its id now
  (`PoolClusters.StaleErrorHarmless`, `PoolClusters.StaleErrorRun`).

Three more differences are in the code but out of the reach of connections and servers, and the theorems carry
them as conditions:

- The generated row parsers, and the cache's key, take a missing time zone for one called "undefined"; the
  configuration of a connection always has a time zone, and none of that name
  (`Rows.ConnectionsHaveTimezones`, `ParserCaches.ConnectionsConfused`).
- A text column of type NULL is read as a number by the generated code and as a decimal by the interpreter.
  Servers only send the null marker there, which both read as null; on other values they differ, but for an
  empty decimal (`TextParsers.NullColumnExactly`, `TextParsers.TextInNullColumn`).
- An empty chunk inside the length bytes of a frame counts as a zero byte; sockets deliver none, and the writes
  of `writePacket` hold none there (`Framing.HeardExactly`, `Framing.EmptyChunkChangesPackets`,
  `Framing.AllWritesHarmless`).

## Model

| member | source | states |
|---|---|---|
| RingQueues.RingQueue.Push | lib/ring_queue.js:30-44 | appends to the list, growing a full ring; returns the new length |
| RingQueues.RingQueue.Unshift | lib/ring_queue.js:46-60 | prepends to the list, growing a full ring |
| RingQueues.RingQueue.Shift | lib/ring_queue.js:62-82 | takes the first element, `undefined` from an empty queue; shrinking loses nothing |
| RingQueues.RingQueue.Pop | lib/ring_queue.js:84-102 | takes the last element, `undefined` from an empty queue; shrinking loses nothing |
| RingQueues.RingQueue.PeekAt | lib/ring_queue.js:104-128 | the element at an index from either end, `undefined` outside |
| RingQueues.RingQueue.RemoveOne | lib/ring_queue.js:146-187 | deletes the element at an index from the list whichever side is moved, without a new array |
| RingQueues.RingQueue.CarryGapToFront | lib/ring_queue.js:166-174 | moving the elements before the gap leaves the list with the gap at the head |
| RingQueues.RingQueue.CarryGapToBack | lib/ring_queue.js:175-184 | moving the elements after the gap leaves the list with the gap at the tail |
| RingQueues.RingQueue.Remove | lib/ring_queue.js:189-225 | deletes a run of elements and returns it, or returns `undefined` and changes nothing |
| RingQueues.RingQueue.Splice | lib/ring_queue.js:227-272 | the list and result of `splice` for every index, count and list of new items |
| RingQueues.RingQueue.ToArray | lib/ring_queue.js:280-301 | the elements in order, wrapped around the end of the ring or not |
| RingQueues.RingQueue.Clear | lib/ring_queue.js:274-278 | the empty list |
| RingQueues.RingQueue.Grow | lib/ring_queue.js:303-328 | a ring whose every slot is taken keeps its list in a ring of twice the size |
| RingQueues.RingQueue.Shrink | lib/ring_queue.js:330-333 | truncating the array to half drops no live element under the callers' test |
| RingQueues.RingQueue.Rebuild | lib/ring_queue.js:335-350 | holds exactly the given elements, in a ring with a free slot |
| RingQueues.RingQueue.Run | lib/ring_queue.js:10-351 | after any run of operations the contents and every returned value are those of a list, and the ring invariant (power-of-two capacity, mask, a free slot) holds |
| RingQueues.SpliceUndo | lib/ring_queue.js:227-272 | splicing the removed elements back in place of the inserted ones restores the list |
| RingQueues.SpliceCountsFromEndTwice | lib/ring_queue.js:234-244 | for an index below minus the size and any count and items: elements are removed exactly when nothing is inserted, the index is not below minus twice the size, and a count given is positive; which elements, and what stays |
| RingQueues.SpliceBeforeTheStart | lib/ring_queue.js:234-244 | such a call: index -3 in a list of two takes out the second element |
| BitMasks.MaskWraps | lib/ring_queue.js:18-20 | `&` with capacity - 1 wraps an index that left the ring by one lap in either direction |
| Framing.PacketParser.ExecuteStart | lib/packet_parser.js:67-122 | consumes the chunk: everything emitted and kept is determined by the bytes received |
| Framing.PacketParser.ExecutePayload | lib/packet_parser.js:124-178 | the same inside a payload, whose pieces are copied into one buffer |
| Framing.PacketParser.ExecuteHeader2 | lib/packet_parser.js:180-190 | the same after one length byte, where an empty chunk counts as a zero byte |
| Framing.PacketParser.ExecuteHeader3 | lib/packet_parser.js:192-196 | the same after two length bytes |
| Framing.PacketParser.FlushLargePacket | lib/packet_parser.js:47-65 | emits one packet with the first frame's id, the frame count and the joined payloads |
| Framing.PacketParser.Execute | lib/packet_parser.js:67-196 | one chunk in any state; an empty one leaves the stream heard as it is exactly outside the two states inside the length bytes |
| Framing.PacketParser.ExecuteAll | lib/packet_parser.js:67-196 | chunk independence: for every cut into chunks, empty ones included, the packets are those of the stream that the parser hears; for a cut without empty chunks that is the concatenation |
| Framing.HeardExactly | lib/packet_parser.js:180-196 | the stream heard is the concatenation of the chunks exactly when no empty chunk comes inside the length bytes of a frame |
| Framing.FramesAppend | lib/packet_parser.js:67-122 | the frames of a stream are those of a prefix and of what it leaves followed by the rest |
| Framing.PacketsAppend | lib/packet_parser.js:87-101 | joining maximal frames with their successors can be resumed at any frame |
| Framing.EmptyChunkChangesPackets | lib/packet_parser.js:180-196 | three chunks, one of them empty, for which the packets of what a 4-byte-header parser hears are not those of the bytes |
| Framing.PacketWriter.WritePacket | lib/base/connection.js:379-421 | the buffers passed to the socket and the sequence id afterwards, for every payload; what they carry is WrittenIds and WrittenPackets |
| Framing.Residues | lib/base/connection.js:402-418 | the loop writes one frame too many exactly for the residues above 2^24-5 modulo 2^24-1 |
| Framing.WrittenIds | lib/base/connection.js:402-418 | how many frames a payload of any length gets, and that their ids are consecutive modulo 256 |
| Framing.WrittenPackets | lib/base/connection.js:402-418 | what a receiver assembles from the frames of a payload, for every length |
| Framing.RoundTrip | lib/base/connection.js:379-421 | a 4-byte-header parser gets back the payload with its id and frame count, and nothing else exactly for residues up to 2^24-5; otherwise one empty packet follows |
| Framing.FrameIsPacket | lib/base/connection.js:402-418 | a frame on the wire is the protocol's packet: three bytes of length, least significant first, the id, the payload |
| Framing.WrittenIsCut | lib/base/connection.js:402-418 | the payloads of the frames are the pieces that the page "Sending More Than 16Mb" cuts, and one empty piece more exactly for the three residues |
| Framing.PacketsAreAssembled | lib/packet_parser.js:47-101 | the packets emitted are the payloads that the frames make up by that page, and what is kept is the unfinished one |
| Framing.StrayExample | lib/base/connection.js:402-418 | a payload of 2^24-4 bytes is received as one packet with the payload and an empty one |
| Framing.AllWritesHarmless | lib/base/connection.js:402-418 | the buffers of `writePacket` put no empty one inside length bytes, although the loop writes an empty buffer after the header of an extra frame |
| Framing.AllWrittenPackets | lib/base/connection.js:374-421 | the same for any list of payloads written one after the other |
| Framing.Transmit | lib/packet_parser.js:67-196 | writer and parser together, for every list of payloads and every cut of the bytes without empty chunks inside length bytes |
| Compression.TaskQueue.Push | lib/compressed_protocol.js:24-30 | appends; a tick is scheduled exactly when the queue was not running |
| Compression.TaskQueue.Next | lib/compressed_protocol.js:32-41 | starts the oldest step; stops running exactly when none is left |
| Compression.TaskQueue.Done | lib/compressed_protocol.js:39-39 | the oldest step is over and a tick is scheduled |
| Compression.PiecesConcat | lib/compressed_protocol.js:127-137 | the pieces of a write are its bytes, none of them empty |
| Compression.PieceSizes | lib/compressed_protocol.js:127-137 | every piece but the last has 16777210 bytes, and the last no more |
| Compression.Deflater.WriteCompressed | lib/compressed_protocol.js:120-190 | every piece gets the next id at the call; the wire carries the oldest calls in call order, the queue the rest, until a deflate fails |
| Compression.Deflater.WriteWhole | lib/compressed_protocol.js:139-190 | inline exactly when nothing waits and the piece has at most 4096 bytes, stored below 50, otherwise queued; a piece keeps the order of calls, and only a failed deflate stops the writer |
| Compression.Deflater.WriteCompressedFrame | lib/compressed_protocol.js:95-118 | the frame carries the oldest unsent piece, stored under the marker 0 or deflated and shorter, as it is from 50 bytes on whenever that shortens it |
| Compression.FrameIsCompressedPacket | lib/compressed_protocol.js:95-118 | the frame's bytes are the protocol's compressed packet, which tells the length before compression, or zero for a stored piece |
| Compression.Deflater.OnDeflated | lib/compressed_protocol.js:174-189 | a completion sends the oldest piece and schedules the next; the writer fails exactly when the deflate did |
| Compression.Deflater.Run | lib/compressed_protocol.js:120-190 | order over every schedule of writes, ticks and completions: the frames on the wire are a prefix of the call-order frames, up to a deflate that fails |
| Compression.IssuedIds | lib/compressed_protocol.js:95-118 | while nothing else bumps or resets the shared id, the i-th frame in call order has the i-th id modulo 256 |
| Compression.Deflater.Drain | lib/compressed_protocol.js:18-42 | ticks and completions alone bring every frame onto the wire and leave the queue not running, unless a deflate fails |
| Compression.Inflater.HandleCompressedPacket | lib/compressed_protocol.js:44-93 | the inner parser has the data of the oldest packets in arrival order, inline exactly when nothing waits and at most 16384 bytes were announced, otherwise queued; the reader's sequence id has advanced by the frames of the packets handed on |
| Compression.Inflater.OnInflated | lib/compressed_protocol.js:74-92 | a completion hands on the oldest queued packet, or stalls after an error |
| Compression.Inflater.Run | lib/compressed_protocol.js:44-93 | for every interleaving of arrivals, ticks and completions the inner parser is fed exactly the data of the packets, empty ones included, in arrival order, and the sequence id counts their frames modulo 256 |
| Compression.CarriedData | lib/compressed_protocol.js:95-118 | lengths fit 24 bits and stay below 2^24-1, the marker 0 appears only on stored payloads, and the payload inflates to the piece |
| Compression.WireStream | lib/compressed_protocol.js:44-118 | frames that carry pieces, parsed with 7-byte headers and inflated, give back the pieces one by one, empty ones included |
| Compression.RoundTrip | lib/compressed_protocol.js:44-190 | from writes to the inner parser, under every schedule and every cut, given that inflate undoes deflate and deflate succeeds: the packets of the pieces written, which are those of the stream unless an empty write falls inside length bytes |
| Compression.TransmitCompressed | lib/base/connection.js:374-421 | the whole path: payloads through `writePacket`, the compressed protocol, the network and both parsers come out as without compression |
| Pools.StepSafe | lib/base/pool.js:73-230 | every step keeps the pool safe: flags, membership, limit, no lost wakeup; callbacks neither vanish nor double |
| Pools.RunSafe | lib/base/pool.js:73-230 | safety in every reachable state, and every callback is waiting, on its way, or called |
| Pools.OneHolder | lib/pool_connection.js:19-29 | the limit holds, no duplicates, no waiter beside a free connection; a connection that is held, being reset or on its way to a caller is in no other of these places nor free, and on its way to one caller only |
| Pools.NoLostWakeup | lib/base/pool.js:139-187 | while a caller waits, connections plus scheduled retries reach the limit, and every connection is in use or about to be |
| Pools.CalledAtMostOnce | lib/base/pool.js:73-119 | a callback passed in once is in exactly one place |
| PoolOrder.StepInOrder | lib/base/pool.js:73-230 | every step serves a prefix of the callers that wait, in their order, and at most the caller that asks joins at the end |
| PoolOrder.FirstComeFirstServed | lib/base/pool.js:73-230 | in every run the callers served, followed by those that wait, are those that began to wait, in order |
| PoolOrder.ServedInTurn | lib/base/pool.js:139-187 | of the callers that wait after a run the i-th is the i-th to be served from then on, whatever happens |
| PoolOrder.RefusedExactly | lib/base/pool.js:75-119 | a step refuses exactly the caller that asks a closed pool or one at its limit without room to wait, the caller whose connection fails or comes when the pool is closed, and everybody who waits when it is closed |
| Pools.FreeListedStep | lib/base/pool.js:150-169 | free connections stay in the pool's list exactly up to a reset that ends after its connection was removed |
| Pools.RunFreeListed | lib/base/pool.js:139-187 | in every run without such a reset free connections belong to the pool |
| Pools.RunFreeListedExactly | lib/base/pool.js:139-187 | free connections belong to the pool in every prefix of a run exactly when no prefix is followed by such a reset |
| Pools.LateResetRun | lib/base/pool.js:150-169 | a run that leaves a free connection the pool does not list |
| Pools.UnlistedSentExactly | lib/base/pool.js:150-187 | a step puts a connection that the pool does not list on its way to a caller exactly when a reset that ends after its connection was removed finds a caller waiting |
| Pools.LateHandOverRun | lib/base/pool.js:150-187 | a run in which that happens |
| ConnectionPool.Pool.GetConnection | lib/base/pool.js:73-119 | the object takes the machine's step: closed, free connection, new connection, refusal, queue limit, queue |
| ConnectionPool.Pool.ReleaseConnection | lib/base/pool.js:139-173 | the step for a removed connection, a reset, a plain release |
| ConnectionPool.Pool.HandleSuccessfulRelease | lib/base/pool.js:175-187 | to the caller that has waited longest, whom PoolOrder.StepInOrder is about, else to the end of the free queue |
| ConnectionPool.Pool.OnReset | lib/base/pool.js:152-169 | the step at the end of a reset, failed or not |
| ConnectionPool.Pool.OnConnect | lib/base/pool.js:95-105 | the step at the end of a connect, failed or not |
| ConnectionPool.Pool.Release | lib/pool_connection.js:19-29 | ignored when released already or out of an open pool, else marked and given back |
| ConnectionPool.Pool.RemoveFromPool | lib/pool_connection.js:62-69 | out of both queues, and a waiting caller retries |
| ConnectionPool.Pool.End | lib/base/pool.js:195-208 | closed, and every waiting caller is refused |
| ConnectionPool.SpliceConnection | lib/base/pool.js:31-39 | the queue without the connection's first occurrence |
| ConnectionPool.Pool.ReapIdle | lib/base/pool.js:321-344 | the loop ends, takes the oldest free connections while too many or expired at the clock reading of their turn, leaves at most maxIdle and, when they are sorted, none expired at the last reading |
| ConnectionPool.StepSorted | lib/pool_connection.js:19-29 | without resets and with a clock that never goes back every step keeps the free queue sorted by release time |
| ConnectionPool.RunSorted | lib/base/pool.js:321-344 | so every run keeps what the reaper relies on |
| ConnectionPool.MostRecentFirst | lib/base/pool.js:79-87 | while a connection is free, a caller gets one that was released no earlier than any other free one, and no connection is made |
| ConnectionPool.ReapProgress | lib/base/pool.js:328-339 | a turn of the loop changes the pool exactly when it is open and still owns the oldest free connection |
| Calendar.DaysFromCivilIsMakeDay | lib/parsers/local_date.js:42-53 | equal to MakeDay (section 15.9.1.12 of ECMA-262 5.1) for every year, month 1 to 12 and any day |
| Calendar.NextDayIsOneMore | lib/parsers/local_date.js:42-53 | the day after a date has the next number, across months, years and leap days |
| Calendar.EpochIsDayZero | lib/parsers/local_date.js:40-41 | 1970-01-01 is day 0 |
| Calendar.CivilOfDays | lib/parsers/local_date.js:55-66 | the UTC date of a day has that day's number |
| LocalDates.ProvenOffset | lib/parsers/local_date.js:71-82 | an offset equal at the three probes is the zone's throughout the hour, shifted for the years 0 to 99 |
| LocalDates.CachedIsConstructor | lib/parsers/local_date.js:86-125 | outside those years the cached computation is the constructor's value |
| LocalDates.OrdinaryIsNotLegacy | lib/parsers/local_date.js:86-125 | a day from 1 on and non-negative time fields are outside those years |
| LocalDates.AgreesExactly | lib/parsers/local_date.js:86-125 | the two agree exactly when the wall time is outside those years or the hour has no constant offset |
| LocalDates.LastDayOfYear99 | lib/parsers/local_date.js:86-125 | day 0 of January 100 in a zone without offset: the two differ |
| LocalDates.LocalDateCache.CheckZone | lib/parsers/local_date.js:32-38 | afterwards the entries belong to the zone in force |
| LocalDates.LocalDateCache.Lookup | lib/parsers/local_date.js:86-125 | the constructor's value, whatever is cached and at the flush of a full cache |
| LocalDates.LocalDateCache.Run | lib/parsers/local_date.js:32-125 | every history of calls, flushes and zone changes in which calls follow a check gives the constructor's values |
| Geometry.GeometryReader.ParseGeometry | lib/packets/packet.js:589-702 | ends on every input with every read inside the buffer, with the value and offset of the recursive reading |
| Geometry.ParseGeometryValue | lib/packets/packet.js:582-704 | a missing, empty or too short column value is null; else the geometry behind the reference id |
| Geometry.ReadsShape | lib/packets/packet.js:589-702 | the encoding of any nested geometry in any mix of byte orders (section 8 of OGC 06-103r4) reads back as its coordinates |
| Geometry.ReadsShapes | lib/packets/packet.js:696-698 | the same for a list of members, one after the other |
| Geometry.GeometryRoundTrip | lib/packets/packet.js:582-704 | a column value with a reference id and any geometry reads back as its coordinates |
| JsLiterals.EscapeRoundTrip | lib/helpers.js:19-23 | for every string, with control characters, quotes and lone surrogates, the literal denotes it and ends where it should |
| JsLiterals.QuoteRoundTrip | lib/helpers.js:19-23 | a quoted name is one literal that denotes the name |
| Rows.TargetsAgree | lib/parsers/binary_parser.js:208-223 | the generated assignment goes where the interpreter puts the value exactly when not both rowsAsArray and nestTables are set |
| Rows.PrivateExactly | lib/helpers.js:64-70 | the names refused are the properties of Object.prototype that begin with two underscores |
| Rows.ConnectionsHaveTimezones | lib/connection_config.js:129-163 | a connection has a time zone of the accepted form, without a leading space and not called "undefined"; a query on it has its own, which nobody checks, or that one |
| BinaryParsers.ReadersAgree | lib/parsers/binary_parser.js:15-94 | the generated reader call is the interpreter's exactly when the time zone is known or not needed |
| BinaryParsers.Next | lib/parsers/static_binary_parser.js:128-250 | the row and offset of the row's meaning, column i being null by bit (i+2)%8 of null byte (i+2)/8; refused exactly for a private name; RowsAsSent.BinaryRowAsSent says that the meaning is what was sent |
| BinaryParsers.Compile | lib/parsers/binary_parser.js:96-272 | the loop emits the program with that bit and byte written as constants |
| BinaryParsers.CompiledIsBinaryRow | lib/parsers/binary_parser.js:174-263 | compiler correctness: for every column list, option set and packet the emitted code reads up to the interpreter's offset, and gives its row exactly unless `rowsAsArray` and `nestTables` are both set and there is a column |
| BinaryParsers.ArrayWithTables | lib/parsers/binary_parser.js:212-223 | a result of one column with both options set, where the rows differ on every packet |
| BinaryParsers.RefusalsAgree | lib/parsers/binary_parser.js:208-223 | when exactly generator and interpreter disagree about a private column name, for every option set |
| BinaryParsers.PrivateInArray | lib/parsers/binary_parser.js:209-209 | a column called "__proto__" in array mode: refused by the generator alone |
| TextParsers.ReadersAgree | lib/parsers/text_parser.js:15-88 | the reader calls are the same exactly but for a date without a time zone and a column of type NULL |
| TextParsers.NullColumnExactly | lib/parsers/text_parser.js:50-57 | the two readings of a column of type NULL agree exactly on the null marker and on an empty decimal |
| TextParsers.Next | lib/parsers/static_text_parser.js:126-173 | the row and offset of the row's meaning; refused exactly for a private name |
| TextParsers.Compile | lib/parsers/text_parser.js:90-215 | the loops emit the program that makes each nested table once and then fills it |
| TextParsers.CompiledIsTextRow | lib/parsers/text_parser.js:90-215 | compiler correctness, with columns of type NULL as servers send them: the same offset always, and the same row exactly when no nested table has an inherited name, and not both `rowsAsArray` and `nestTables` are set for a result with columns |
| TextParsers.TextInNullColumn | lib/parsers/static_text_parser.js:54-60 | the packet of the text "1" in a column of type NULL, where the offsets differ |
| TextParsers.ConstructorTable | lib/parsers/text_parser.js:160-182 | a nested table called "constructor", where the rows differ on every packet |
| TextParsers.ArrayWithTables | lib/parsers/text_parser.js:177-188 | a result of one column with both options set, where the rows differ on every packet |
| TextParsers.RefusalsAgree | lib/parsers/static_text_parser.js:153-167 | when exactly generator and interpreter disagree about a private name, for every option set |
| TextParsers.PrivateInArray | lib/parsers/text_parser.js:174-174 | a column called "__proto__" in array mode: refused by the generator alone |
| PacketReaders.ParseIntNoBigCheck | lib/packets/packet.js:556-580 | the loop gives the integer of the characters, behind a minus and a plus sign |
| RowsAsSent.BinaryRowAsSent | lib/parsers/static_binary_parser.js:128-250 | a packet laid out by the page "Binary Protocol Resultset Row" is read to its end, and every column that no later one replaces is found where the options put it: null for a null, otherwise the value sent, as its type, flags and the options ask |
| RowsAsSent.GeneratedBinaryRowAsSent | lib/parsers/binary_parser.js:174-263 | the same of the generated parser, unless `rowsAsArray` and `nestTables` are both set |
| RowsAsSent.BinaryCellRead | lib/parsers/static_binary_parser.js:20-101 | a value of any column type in the bytes of the page "Binary Protocol Value" is read as what it stands for, and nothing more is consumed |
| RowsAsSent.RawExactly | lib/parsers/static_binary_parser.js:153-154 | without type casts a value's bytes are found exactly when the value carries its length |
| RowsAsSent.TinyWithoutCasts | lib/parsers/static_binary_parser.js:153-154 | a TINYINT column that holds 5: the parser reads five bytes past the end of the packet |
| RowsAsSent.TextRowAsSent | lib/parsers/static_text_parser.js:126-173 | a packet laid out by the page "Text Resultset Row" is read to its end, and every column that no later one replaces is found where the options put it, with the value sent |
| RowsAsSent.GeneratedTextRowAsSent | lib/parsers/text_parser.js:90-215 | the same of the generated parser, unless `rowsAsArray` and `nestTables` are both set or a nested table has an inherited name |
| RowsAsSent.TextCellRead | lib/parsers/static_text_parser.js:13-84 | the text of a value of any column type is read as what it stands for: integers as numbers or text, dates by their parts, the rest as bytes for the reader named |
| RowsAsSent.NullTextExactly | lib/packets/packet.js:706-714 | a null of a text row becomes null exactly unless it is a VECTOR read as numbers |
| RowsAsSent.IntegerTextRead | lib/packets/packet.js:556-580 | the integer that the loop accumulates is the one whose digits by their places the text is |
| RowsAsSent.PacketReadsLengthCoded | lib/packets/packet.js:436-460 | the packet's readers treat length-coded values as the theorems about text parsers assume |
| RowsAsSent.LocalDatesChecked | lib/parsers/local_date.js:129-147 | the constructor checks the time zone for a column exactly when its dates go through the cache of local dates |
| ParserCaches.OptionBitsInjective | lib/parsers/parser_cache.js:47-61 | equal option bits mean equal options, one by one |
| ParserCaches.MatchesExactly | lib/parsers/parser_cache.js:169-207 | an entry is confirmed exactly for requests that agree with its own in everything recorded |
| ParserCaches.ComputeHashKey | lib/parsers/parser_cache.js:78-116 | the loops compute the fold of the key's parts with 32-bit wrap-around |
| ParserCaches.SameKeySameHash | lib/parsers/parser_cache.js:78-116 | a match is never lost to the hash |
| ParserCaches.KeyDeterminesCode | lib/parsers/parser_cache.js:9-15 | requests with the same key have the same generated parser exactly when they are not confused by the decimal flag or a missing time zone |
| ParserCaches.ServedExactly | lib/parsers/parser_cache.js:210-227 | after any history a request gets the parser the generator would make exactly when no entry serves it, or the first that matches was made for a request it is not confused with |
| ParserCaches.HistoryExactly | lib/parsers/parser_cache.js:210-235 | for every history of requests, clears, resizes and evictions: all get what the generator would make exactly when each is served right at its turn |
| ParserCaches.CacheIsTransparent | lib/parsers/parser_cache.js:210-235 | for every history of requests, clears, resizes and evictions in which no two requests with the same key are confused, each request gets what the generator would make for it |
| ParserCaches.PlainHistory | lib/parsers/parser_cache.js:47-61 | requests that do not override the decimal flag of their connection are never confused |
| ParserCaches.ConnectionsConfused | lib/parsers/parser_cache.js:47-61 | two requests of real connections with the same key are confused exactly by the decimal flag of a result with a decimal column |
| ParserCaches.CachedParserRuns | lib/parsers/parser_cache.js:210-227 | cache and compiler together, after any history: a parser for a request that is not served by a confused entry reads up to the interpreter's offset on every packet, and gives its row under the compilers' exact conditions |
| ParserCaches.Reused | lib/parsers/parser_cache.js:210-227 | a stored parser is found again until its bucket is evicted |
| ParserCaches.SecondRequest | lib/parsers/parser_cache.js:47-61 | so of two requests with the same key, on an empty cache, the second gets the right parser exactly when they are not confused |
| ParserCaches.ConfusedRequests | lib/parsers/binary_parser.js:58-63 | two such requests: a decimal column, and connections that disagree about decimals |
| ParserCaches.ParserCache.GetParser | lib/parsers/parser_cache.js:210-227 | the parser of the first entry that matches, else a new one, stored under the hash |
| ParserCaches.ParserCache.Run | lib/parsers/parser_cache.js:210-235 | a whole history on the object returns what the generator would make each time exactly when every request is served right, so whenever no two requests with the same key are confused |
| LengthCoded.LcRoundTrip | lib/packets/packet.js:1060-1081 | every length below 2^53 is read back from what is written, and nothing more is consumed |
| LengthCoded.LcIsLengthEncoded | lib/packets/packet.js:1060-1081 | what is written for a length is the protocol's length-encoded integer |
| LengthCoded.ReadsLengthEncoded | lib/packets/packet.js:232-275 | every length-encoded integer of the protocol, in any of its four forms, is read as its number, and nothing more is consumed |
| LengthCoded.Packet.WriteLengthCodedNumber | lib/packets/packet.js:1060-1081 | appends the bytes of the length form, never past the size computed for it |
| LengthCoded.Packet.WriteUIntLE | lib/packets/packet.js:968-975 | appends the integer's little-endian bytes |
| TimeValues.WriteTime | lib/packets/packet.js:985-999 | appends exactly as many bytes as `timeLength` says, in the protocol's form |
| TimeValues.TimeRoundTrip | lib/packets/packet.js:978-999 | a written time is read back, up to the sign of zero |
| TimeValues.TimeTextRoundTrip | lib/packets/packet.js:399-434 | the reader's text of a time in range is parsed back to its parts |
| TimeValues.ParsedInRange | lib/packets/typed_parameter.js:209-223 | every accepted string denotes parts in range |
| TimeValues.TimeStringSurvives | lib/packets/typed_parameter.js:191-224 | a TIME string is read back as a string for the same time, and unchanged exactly when it is in the reader's form |
| TimeValues.NumberParts | lib/packets/typed_parameter.js:191-208 | the parts of a number of milliseconds add up to it rounded to microseconds, and are in range exactly when the rounding does not carry |
| TimeValues.CarryReadsAsTenth | lib/packets/typed_parameter.js:195-195 | with 1000000 microseconds the text read back ends in a tenth of a second |
| TimeValues.NumberTimeSurvives | lib/packets/typed_parameter.js:191-208 | a TIME given as a number of milliseconds is read back as that time, rounded to microseconds, exactly when its milliseconds are below 999.9995 |
| TimeValues.CarryExample | lib/packets/typed_parameter.js:195-195 | 999.9999 milliseconds are written as 1000000 microseconds and read back as 00:00:00.1 |
| StatementExecute.Gather | lib/packets/execute.js:119-136 | the parameters in order, or the first failure |
| StatementExecute.AllSized | lib/packets/encode_parameter.js:21-117 | every parameter's length is that of what its writer writes |
| StatementExecute.UintRoundTrip | lib/packets/typed_parameter.js:105-168 | two's complement: an integer in the range of its type survives |
| StatementExecute.ParameterMeans | lib/packets/encode_parameter.js:21-117 | exactly the values that can be bound get a type, flag and writer, and these send what is meant: the type code, the flag and the kind of value (integer, IEEE number, date, time, text, binary data, decimal, document) written out by the page "Column Types"; `undefined` and text of a type without text are a TypeError, integers out of range a RangeError |
| StatementExecute.SendableExactly | lib/packets/execute.js:119-136 | choice and writers succeed for exactly the values that can be bound and whose fields fit the protocol's integers |
| StatementExecute.SizedExactly | lib/packets/execute.js:111-155 | the write pass ends where the size pass said, for every parameter and attribute list |
| StatementExecute.WriteBitmap | lib/packets/execute.js:174-189 | appends the null bitmap, eight flags a byte |
| StatementExecute.NullsDecode | lib/packets/execute.js:174-189 | the bit of value 2^(i%8) in byte i/8 is set exactly for null parameters |
| StatementExecute.WriteTypes | lib/packets/execute.js:193-204 | appends type, unsigned flag and name of every parameter |
| StatementExecute.WriteValues | lib/packets/execute.js:206-211 | appends the values that are not null, or stops at one that its writer refuses |
| StatementExecute.ToPacket | lib/packets/execute.js:101-220 | fails exactly when a value cannot be sent; otherwise the payload fills the buffer exactly, so the internal error never happens, and the server reads back the statement and every type, flag, name and value |
| StatementExecute.ExecuteRoundTrip | lib/packets/execute.js:101-220 | a decoder written from the page "COM_STMT_EXECUTE" reads back the statement and, of every parameter and attribute, the type, flag, name and value that it must be told |
| QueryProtocol.ExecuteCoherent | lib/commands/query.js:112-275 | whatever packets come, rows and fields stay equally long: one entry per finished result and one for the set being read |
| QueryProtocol.Query.Step | lib/commands/command.js:23-51 | `execute`: the object's fields follow the state functions, and it reports done exactly when there is no next one |
| QueryProtocol.OkRead | lib/packets/resultset_header.js:21-37 | the status of an OK packet is found behind its two length-encoded integers |
| QueryProtocol.MoreIsTheFlag | lib/constants/server_status.js:12-44 | in a status made of any of the server's flags the client finds "more results" exactly when that flag is among them |
| QueryProtocol.PacketKinds | lib/packets/packet.js:220-222 | OK, ERR and EOF packets are told apart by their first byte and length as the protocol says |
| QueryProtocol.TextRowRecognized | lib/packets/packet.js:220-222 | no text row is taken for an EOF or ERR packet, not even with a first column of 16 MB |
| QueryProtocol.PacketTaken | lib/commands/query.js:132-275 | each packet of a well-formed result, whose statuses are made of any flags, takes the query one packet further; it is done exactly after the last packet of the last result, with rows i and fields i those of result i |
| QueryProtocol.ErrorTaken | lib/commands/command.js:28-43 | an ERR packet in place of any packet ends the query at once with that error |
| QueryProtocol.Connection.Handle | lib/base/connection.js:582-629 | the packet goes to the current command; when it is done the next one starts with a fresh sequence id |
| QueryProtocol.Connection.Add | lib/base/connection.js:631-647 | the command starts at once or waits behind the others |
| QueryProtocol.PipelinedQueries | lib/base/connection.js:582-647 | for queries added at any moments and answered in order: finished ones have exactly their own results or error, the current one what was sent, later ones are not started, and no packet is out of order |
| QueryProtocol.QueriesFromStart | lib/base/connection.js:582-647 | the same from a connection without queries, so that the assumption about the first state is met |
| PoolClusters.LiteralMatch | lib/pool_cluster.js:40-50 | a pattern without a star finds exactly its own id |
| PoolClusters.StarMeaning | lib/pool_cluster.js:40-50 | a pattern finds exactly the ids that are the pattern with some line of text in place of each star |
| PoolClusters.PrefixStar | lib/pool_cluster.js:40-50 | a star at the end finds exactly the ids that begin with what is before it and have no line end after it |
| PoolClusters.StarFindsAll | lib/pool_cluster.js:40-50 | the default pattern finds every id without a line end |
| PoolClusters.PoolCluster.Add | lib/pool_cluster.js:199-214 | a new node in service unless the id is taken; cached searches stay right |
| PoolClusters.PoolCluster.FindNodeIds | lib/pool_cluster.js:284-315 | filtering the ids in service now by the pattern, whose stars PoolClusters.StarMeaning is about, cached or not, less the offline ones |
| PoolClusters.RemoveByPattern | lib/pool_cluster.js:216-226 | `remove` leaves exactly the nodes the pattern does not find, as they were |
| PoolClusters.PoolCluster.Remove | lib/pool_cluster.js:216-226 | takes out the nodes found, one after the other, and ends their pools |
| PoolClusters.PoolCluster.RemoveNode | lib/pool_cluster.js:371-379 | the id leaves both the ids in service and the nodes, and cached searches stay right |
| PoolClusters.PoolCluster.IncreaseErrorCount | lib/pool_cluster.js:321-337 | counts, then offline or removed at the limit; also for a node object that left the cluster |
| PoolClusters.PoolCluster.DecreaseErrorCount | lib/pool_cluster.js:339-356 | one less than the count capped at the limit, and online |
| PoolClusters.ErrorSpends | lib/pool_cluster.js:321-337 | a failure spends at least one of the failures that the nodes found have left, without restoring exactly one |
| PoolClusters.OutAtLimit | lib/pool_cluster.js:321-337 | a node serves until its errors reach the limit, and no longer: then it is removed and its pool ended, or offline for as long as configured |
| PoolClusters.SuccessUndoesError | lib/pool_cluster.js:339-356 | below the limit a success brings a node back to where it was before an error |
| PoolClusters.PoolNamespace.GetClusterNode | lib/pool_cluster.js:155-165 | a node that the pattern finds, by the selector: the next in turn, or the first |
| PoolClusters.PoolNamespace.Picks | lib/pool_cluster.js:13-28 | any number of picks in a row: round robin goes through the ids in turn, order takes the first each time |
| PoolClusters.EachInTurn | lib/pool_cluster.js:13-18 | as many turns of round robin as there are ids pick every one of them exactly once |
| PoolClusters.PoolNamespace.GetConnection | lib/pool_cluster.js:59-86 | a chain of retries on its own ends with one answer after at most the failures left, and without restoring exactly that many unless it connects; what each answer means |
| ClusterRuns.StepReady | lib/pool_cluster.js:284-315 | with any number of calls under way, every step keeps the ids in service equal to the node keys and every cached search right |
| ClusterRuns.StepCallers | lib/pool_cluster.js:59-86 | a step neither loses nor repeats a callback |
| ClusterRuns.StepAnswers | lib/pool_cluster.js:59-86 | a step answers at most one call: POOL_NOEXIST and POOL_NONEONLINE when no node, or none online, is found at that moment, an error only after a failure and, with retries, when no node is left, a connection only of a node the pattern finds |
| ClusterRuns.ErrorBudget | lib/pool_cluster.js:321-337 | an error, also of a node that left, never adds to the failures left, and spends at least one when its node serves |
| ClusterRuns.SuccessGain | lib/pool_cluster.js:339-356 | a success gives back at most one failure to a node of the cluster, in service or brought back by it, and nothing to others |
| ClusterRuns.LaterGain | lib/pool_cluster.js:302-314 | time gives back at most one failure for each node, and nothing when nodes are not restored |
| ClusterRuns.StepPaid | lib/pool_cluster.js:59-86 | whatever happens between its attempts, the failures of a call, the next one, and those left stay within what was granted to it |
| ClusterRuns.RunSafe | lib/pool_cluster.js:59-379 | all of that in every reachable state: right caches, known nodes, every callback in one place, failures of a call bounded by those left at its start plus what came back |
| ClusterRuns.AnsweredOnce | lib/pool_cluster.js:59-86 | a callback passed in once waits for one pool or was called exactly once |
| ClusterRuns.FailuresBounded | lib/pool_cluster.js:59-379 | no call is failed more often than the limit times the nodes added, plus the successes, plus, when nodes are restored, the nodes added so far each time the clock advances |
| PoolClusters.StaleErrorHarmless | lib/pool_cluster.js:371-379 | an error of a node that left the cluster changes nothing exactly unless it reaches the limit, nodes are not restored, and its id is in use again |
| PoolClusters.StaleErrorRun | lib/pool_cluster.js:371-379 | such a run: the new node is gone and its pool was never ended |

## Left out

- Sockets, TLS, timers, event emitters, tracing, debug output: steps of the models or dropped.
- Handshake and authentication, connection attributes, prepare and close, binlog, change user.
- zlib, the least-recently-used list, iconv-lite, long, hashing: parameters. Inflate is assumed to undo deflate,
  evictions are arbitrary, text arrives encoded. After a deflate that fails the writer stops; closing the connection is not modelled.
- Pause and resume, query timeouts, LOCAL INFILE, exceptions while parsing a row, network errors during a query.
- typeCast functions. The results of generators and interpreters hold for any readers; in `RowsAsSent` they are the
  packet's, whose values name what they hand to JSON.parse, parseFloat, text decoders, geometry and Date.
- PacketReaders: packets cut short, where the original's reads throw.
- Arguments of nestTables that are neither boolean nor string, and RegExp patterns of the cluster.
- Ids, patterns and tables named like inherited properties of objects, but for tables of text rows. A write to
  such a table changes an object shared by the whole program, which the row does not show, or throws.
- BinaryParsers.CompiledIsBinaryRow: with both `rowsAsArray` and `nestTables` set, tables and joined names that an array takes for an element or for its length, such as "0" and "length"; what the generated row is then depends on the values.
- TextParsers.CompiledIsTextRow: the same names.
- ParserCaches.CachedParserRuns: the same names.
- `Execute.fromPacket`: a scan, not a decoder. The decoder here is written from the protocol page.
- RingQueue: queues of 2^31 elements and more, where `& mask` would see negative lengths; push and unshift without an argument.
- Pool connections are numbered records of flags, not objects; `_realEnd` and the callback of `end` are not part of the pool's state.
- The commands' queue is a list here: that the ring buffer behaves as one is RingQueues.
- `namespaces` of the cluster, `query` and `execute` on it, and `end` of the cluster.
- Framing.PacketParser.FlushLargePacket: with 7-byte headers the extra header bytes of joined frames are lost, as in the source; the round trips of the compressed protocol do not use it.
- JsLiterals.EscapeRoundTrip: escapes other than those JSON writes are read only approximately.
- LocalDates.CachedIsConstructor: assumes that an offset equal at the start, middle and end of an hour is constant over it.
- TimeValues.NumberParts: exact arithmetic on real numbers in place of doubles.
- TimeValues.NumberTimeSurvives: the same.
- StatementExecute.ToPacket: conversions to a typed parameter's type (numbers from text, dates from strings) happen before the model; a date comes as its fields in the chosen zone.
- QueryProtocol.OkRead: PROTOCOL_41 is taken to be set, as MySQL has done since 4.1; session tracking and info text are not parsed.
- QueryProtocol.PipelinedQueries: commands are queries, and the server answers each with a well-formed response or breaks it off with an ERR packet.
- PoolClusters.PoolNamespace.GetConnection: nothing else happens to the cluster between two attempts of a chain; chains that interleave are the machine of ClusterRuns, whose steps change the cluster by the functions that the methods of the objects are proved to follow.
- ClusterRuns.StepAnswers: the clock stands still within a step, and a listener of the warning does not change the cluster before the retry.
