/** What the pages of the MySQL client/server protocol say about bytes, with the numbers of those pages written
    out: the other side of the connection, which nothing of the client enters into. */
module Protocol {
  import opened Bytes

  // ---------------------------------------------------------------- the page "Status Flags"

  datatype StatusFlag =
    | InTransaction
    | Autocommit
    | MoreResultsExist
    | NoGoodIndexUsed
    | NoIndexUsed
    | CursorExists
    | LastRowSent
    | DatabaseDropped
    | NoBackslashEscapes
    | MetadataChanged
    | QueryWasSlow
    | PsOutParams
    | InTransactionReadOnly
    | SessionStateChanged

  function Flag(on: bool, value: nat): nat {
    if on then value else 0
  }

  function FlagsBelow8(flags: set<StatusFlag>): nat {
    Flag(InTransaction in flags, 1) + Flag(Autocommit in flags, 2)
  }

  function FlagsTo128(flags: set<StatusFlag>): nat {
    Flag(NoGoodIndexUsed in flags, 0x10) + Flag(NoIndexUsed in flags, 0x20) + Flag(CursorExists in flags, 0x40) +
    Flag(LastRowSent in flags, 0x80)
  }

  function FlagsTo2048(flags: set<StatusFlag>): nat {
    Flag(DatabaseDropped in flags, 0x100) + Flag(NoBackslashEscapes in flags, 0x200) +
    Flag(MetadataChanged in flags, 0x400) + Flag(QueryWasSlow in flags, 0x800)
  }

  function FlagsTo16384(flags: set<StatusFlag>): nat {
    Flag(PsOutParams in flags, 0x1000) + Flag(InTransactionReadOnly in flags, 0x2000) +
    Flag(SessionStateChanged in flags, 0x4000)
  }

  /** The status that a server sends for these flags. */
  function StatusOf(flags: set<StatusFlag>): (status: nat)
    ensures status < 0x8000
  {
    FlagsBelow8(flags) + Flag(MoreResultsExist in flags, 8) +
    FlagsTo128(flags) + FlagsTo2048(flags) + FlagsTo16384(flags)
  }

  // ---------------------------------------------------------------- the page "Integer Types"

  /** The bytes of a fixed-length integer, least significant first. */
  predicate IsFixedLength(b: seq<nat>, n: nat) {
    || (|b| == 1 && n == b[0])
    || (|b| == 2 && n == b[0] + 0x100 * b[1])
    || (|b| == 3 && n == b[0] + 0x100 * b[1] + 0x1_0000 * b[2])
    || (|b| == 4 && n == b[0] + 0x100 * b[1] + 0x1_0000 * b[2] + 0x100_0000 * b[3])
    || (|b| == 8 && n == b[0] + 0x100 * b[1] + 0x1_0000 * b[2] + 0x100_0000 * b[3] + 0x1_0000_0000 * b[4] +
                         0x100_0000_0000 * b[5] + 0x1_0000_0000_0000 * b[6] + 0x100_0000_0000_0000 * b[7])
  }

  /** The bytes of a length-encoded integer. */
  predicate IsLengthEncoded(b: Buffer, n: nat) {
    || (|b| == 1 && b[0] < 251 && IsFixedLength(b, n))
    || (|b| == 3 && b[0] == 0xfc && IsFixedLength(b[1..], n))
    || (|b| == 4 && b[0] == 0xfd && IsFixedLength(b[1..], n))
    || (|b| == 9 && b[0] == 0xfe && IsFixedLength(b[1..], n))
  }

  // ---------------------------------------------------------------- "MySQL Packets", "Compressed Packet Header"

  /** A packet: three bytes of length, the sequence id, the payload. */
  predicate IsPacket(b: Buffer, id: Byte, payload: Buffer) {
    |b| == 4 + |payload| && IsFixedLength(b[..3], |payload|) && b[3] == id && b[4..] == payload
  }

  /** A compressed packet tells, besides, the length of its payload before compression, or zero. */
  predicate IsCompressedPacket(b: Buffer, id: Byte, length: nat, payload: Buffer) {
    && |b| == 7 + |payload| && IsFixedLength(b[..3], |payload|) && b[3] == id
    && IsFixedLength(b[4..7], length) && b[7..] == payload
  }

  // ---------------------------------------------------------------- the pages "OK_Packet", "ERR_Packet", "EOF_Packet"

  predicate IsOkPacket(b: Buffer) {
    b != [] && b[0] == 0
  }

  predicate IsErrPacket(b: Buffer) {
    b != [] && b[0] == 0xff
  }

  predicate IsEofPacket(b: Buffer) {
    b != [] && b[0] == 0xfe && |b| < 9
  }

  // ---------------------------------------------------------------- the page "Sending More Than 16Mb"

  /** A payload is cut into pieces of 2^24-1 bytes and a shorter last one. */
  function Cut(payload: Buffer): seq<Buffer> {
    if |payload| < 0xff_ffff then [payload] else [payload[..0xff_ffff]] + Cut(payload[0xff_ffff..])
  }

  /** The payloads that pieces make up, and what has come of one whose last piece is missing. */
  function Assembled(pieces: seq<Buffer>): (seq<Buffer>, Buffer) {
    if pieces == [] then ([], [])
    else
      var (payloads, open) := Assembled(pieces[..|pieces| - 1]);
      var last := pieces[|pieces| - 1];
      if |last| < 0xff_ffff then (payloads + [open + last], []) else (payloads, open + last)
  }
}
