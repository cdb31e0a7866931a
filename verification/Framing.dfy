/** MySQL packet framing: `writePacket` of lib/base/connection.js cuts a payload into frames and
    `PacketParser` of lib/packet_parser.js joins the frames of a byte stream back into packets. */
module Framing {
  import opened Bytes
  import Protocol

  const MAX_PACKET_LENGTH: nat := 16777215

  /** One frame: the sequence id, the header bytes after it (three in the compressed protocol,
      none otherwise) and the payload. */
  datatype Frame = Frame(id: Byte, extra: Buffer, payload: Buffer)

  /** What a packet consumer sees: the first sequence id, the number of frames, and the bytes
      from the packet's read offset to its end. */
  datatype Packet = Packet(id: Byte, numPackets: nat, content: Buffer)

  // ---------------------------------------------------------------- frames of a stream

  function PayloadLength(s: Buffer): nat
    requires |s| >= 3
  {
    (s[0] as int) + 256 * (s[1] as int) + 65536 * (s[2] as int)
  }

  predicate StartsWithFrame(header: nat, s: Buffer) {
    |s| >= 3 && |s| >= header + PayloadLength(s)
  }

  function FrameOf(header: nat, s: Buffer): Frame
    requires header >= 4 && |s| >= header
  {
    Frame(s[3], s[4..header], s[header..])
  }

  /** The complete frames of a byte stream and the bytes after them. */
  function Frames(header: nat, s: Buffer): (seq<Frame>, Buffer)
    requires header >= 4
  {
    if StartsWithFrame(header, s) then
      var n := header + PayloadLength(s);
      var (frames, rest) := Frames(header, s[n..]);
      ([FrameOf(header, s[..n])] + frames, rest)
    else ([], s)
  }

  lemma FramesStep(header: nat, s: Buffer)
    requires header >= 4
    ensures !StartsWithFrame(header, s) ==> Frames(header, s) == ([], s)
    ensures StartsWithFrame(header, s) ==>
              var n := header + PayloadLength(s);
              && Frames(header, s).0 == [FrameOf(header, s[..n])] + Frames(header, s[n..]).0
              && Frames(header, s).1 == Frames(header, s[n..]).1
  {
  }

  /** A frame at the start of a stream is still there when the stream goes on. */
  lemma StreamGoesOn(header: nat, a: Buffer, b: Buffer)
    requires header >= 4 && StartsWithFrame(header, a)
    ensures 4 <= header + PayloadLength(a) <= |a|
    ensures StartsWithFrame(header, a + b) && PayloadLength(a + b) == PayloadLength(a)
    ensures var n := header + PayloadLength(a); (a + b)[..n] == a[..n] && (a + b)[n..] == a[n..] + b
  {
  }

  lemma {:induction false} FramesAppend(header: nat, a: Buffer, b: Buffer)
    requires header >= 4
    ensures var (framesA, restA) := Frames(header, a);
            var (framesB, restB) := Frames(header, restA + b);
            Frames(header, a + b) == (framesA + framesB, restB)
    decreases |a|
  {
    hide Frames, FrameOf, StartsWithFrame, PayloadLength;
    FramesStep(header, a);
    var framesB := Frames(header, Frames(header, a).1 + b).0;
    if StartsWithFrame(header, a) {
      StreamGoesOn(header, a, b);
      FramesStep(header, a + b);
      var n := header + PayloadLength(a);
      FramesAppend(header, a[n..], b);
      var head, framesA := [FrameOf(header, a[..n])], Frames(header, a[n..]).0;
      assert head + (framesA + framesB) == (head + framesA) + framesB;
    } else {
      assert [] + framesB == framesB;
    }
  }

  /** The parser refills a frame after leaving room for the length bytes it already used. */
  lemma SameAfterLength(header: nat, filled: Buffer, prefix: Buffer, body: Buffer, last: Buffer)
    requires header >= 4 && |prefix| >= 3 && |prefix + last| >= header
    requires body == prefix[3..] && filled == [0, 0, 0] + body + last
    ensures |filled| == |prefix + last| && FrameOf(header, filled) == FrameOf(header, prefix + last)
  {
    assert prefix == prefix[..3] + body;
    var whole := prefix + last;
    assert filled[3] == whole[3];
    assert filled[4..header] == whole[4..header];
    assert filled[header..] == whole[header..];
  }

  lemma SingleFrame(header: nat, s: Buffer)
    requires header >= 4 && |s| >= 3 && |s| == header + PayloadLength(s)
    ensures Frames(header, s) == ([FrameOf(header, s)], [])
  {
    assert s[..|s|] == s && s[|s|..] == [];
    assert !StartsWithFrame(header, []);
    assert [FrameOf(header, s)] + [] == [FrameOf(header, s)];
  }

  // ---------------------------------------------------------------- packets of a frame list

  predicate Short(frame: Frame) {
    |frame.payload| < MAX_PACKET_LENGTH
  }

  /** The frames of maximal length at the end of the list: a packet whose last frame is missing. */
  function Open(frames: seq<Frame>): seq<Frame> {
    if frames == [] || Short(frames[|frames| - 1]) then []
    else Open(frames[..|frames| - 1]) + [frames[|frames| - 1]]
  }

  function Body(frames: seq<Frame>): Buffer {
    if frames == [] then [] else Body(frames[..|frames| - 1]) + frames[|frames| - 1].payload
  }

  /** A joined packet has lost the extra header bytes of its frames; they read as zeros. */
  function Joined(frames: seq<Frame>): Packet
    requires frames != []
  {
    if |frames| == 1 then Packet(frames[0].id, 1, frames[0].extra + frames[0].payload)
    else Packet(frames[0].id, |frames|, Zeros(|frames[0].extra|) + Body(frames))
  }

  /** A short frame completes the packet made of it and the maximal frames directly before it. */
  function Packets(frames: seq<Frame>): seq<Packet> {
    if frames == [] then []
    else
      var init, last := frames[..|frames| - 1], frames[|frames| - 1];
      Packets(init) + if Short(last) then [Joined(Open(init) + [last])] else []
  }

  /** What one more frame completes. */
  lemma PacketsSnoc(frames: seq<Frame>, frame: Frame)
    ensures Packets(frames + [frame]) ==
            Packets(frames) + (if Short(frame) then [Joined(Open(frames) + [frame])] else [])
    ensures Open(frames + [frame]) == if Short(frame) then [] else Open(frames) + [frame]
    ensures Body(frames + [frame]) == Body(frames) + frame.payload
  {
    assert (frames + [frame])[..|frames|] == frames;
  }

  lemma {:induction false} PacketsAppend(a: seq<Frame>, b: seq<Frame>)
    ensures Packets(a + b) == Packets(a) + Packets(Open(a) + b)
    ensures Open(a + b) == Open(Open(a) + b)
    decreases |b|
  {
    hide Packets, Open, Joined;
    if b == [] {
      OpenIsIncomplete(a);
      assert a + b == a && Open(a) + b == Open(a);
    } else {
      var init, last := b[..|b| - 1], b[|b| - 1];
      PacketsAppend(a, init);
      assert a + b == (a + init) + [last] && Open(a) + b == (Open(a) + init) + [last];
      PacketsSnoc(a + init, last);
      PacketsSnoc(Open(a) + init, last);
    }
  }

  lemma {:induction false} OpenIsIncomplete(frames: seq<Frame>)
    ensures Packets(Open(frames)) == [] && Open(Open(frames)) == Open(frames)
  {
    if frames != [] && !Short(frames[|frames| - 1]) {
      OpenIsIncomplete(frames[..|frames| - 1]);
      PacketsSnoc(Open(frames[..|frames| - 1]), frames[|frames| - 1]);
    }
  }

  /** The reference semantics of a byte stream. */
  function StreamPackets(header: nat, s: Buffer): seq<Packet>
    requires header >= 4
  {
    Packets(Frames(header, s).0)
  }

  // ---------------------------------------------------------------- the parser

  datatype ParserState = Start | Header2 | Header3 | Payload

  /** A missing byte of a chunk reads as `undefined`, which shifts to 0. */
  function ByteAt(chunk: Buffer, i: nat): Byte {
    if i < |chunk| then chunk[i] else 0
  }

  /** The bytes received end inside the three length bytes of a frame. */
  predicate InsideLength(header: nat, received: Buffer) {
    header >= 4 && 0 < |Frames(header, received).1| < 3
  }

  /** The stream as the parser takes it: inside the length bytes an empty chunk counts as a zero byte. */
  function Heard(header: nat, received: Buffer, chunk: Buffer): Buffer {
    received + if chunk == [] && InsideLength(header, received) then [0] else chunk
  }

  function HeardAll(header: nat, received: Buffer, chunks: seq<Buffer>): Buffer {
    if chunks == [] then received
    else Heard(header, HeardAll(header, received, chunks[..|chunks| - 1]), chunks[|chunks| - 1])
  }

  /** No empty chunk arrives inside the length bytes of a frame. */
  predicate Harmless(header: nat, received: Buffer, chunks: seq<Buffer>) {
    forall i :: 0 <= i < |chunks| && chunks[i] == [] ==> !InsideLength(header, received + Concat(chunks[..i]))
  }

  class PacketParser {
    const packetHeaderLength: nat
    var buffer: seq<Buffer>
    var bufferLength: nat
    var length: nat
    var largePacketParts: seq<Buffer>
    var firstPacketSequenceId: Byte
    var execute: ParserState
    /** The packets handed to the `onPacket` callback so far. */
    var emitted: seq<Packet>
    ghost var received: Buffer
    ghost var frames: seq<Frame>
    ghost var rest: Buffer

    /** Everything emitted and everything held back is determined by the bytes received. */
    ghost predicate Valid()
      reads this
    {
      && packetHeaderLength >= 4
      && Frames(packetHeaderLength, received) == (frames, rest)
      && Assembled()
      && match execute
         case Start => rest == [] && buffer == [] && bufferLength == 0
         case Header2 => |rest| == 1 && length == rest[0] && buffer == [] && bufferLength == 0
         case Header3 =>
           |rest| == 2 && length == (rest[0] as int) + 256 * (rest[1] as int) && buffer == [] && bufferLength == 0
         case Payload => Pending()
    }

    ghost predicate Assembled()
      reads this
    {
      && emitted == Packets(frames)
      && |largePacketParts| == |Open(frames)| && Concat(largePacketParts) == Body(Open(frames))
      && (Open(frames) != [] ==>
          firstPacketSequenceId == Open(frames)[0].id && |Open(frames)[0].extra| == packetHeaderLength - 4)
    }

    ghost predicate Pending()
      reads this
    {
      && |rest| >= 3 && length == PayloadLength(rest)
      && Concat(buffer) == rest[3..] && bufferLength == |rest| - 3
      && |rest| < packetHeaderLength + length
    }

    constructor (header: nat)
      requires header == 4 || header == 7
      ensures Valid() && packetHeaderLength == header && received == [] && emitted == []
    {
      packetHeaderLength := header;
      buffer, bufferLength, length := [], 0, 0;
      largePacketParts, firstPacketSequenceId := [], 0;
      execute := Start;
      emitted, received, frames, rest := [], [], [], [];
    }

    /** A complete frame: emitted at once, or kept until the packet's short last frame. */
    method FrameComplete(sequenceId: Byte, extra: Buffer, payload: Buffer)
      requires packetHeaderLength >= 4 && |extra| == packetHeaderLength - 4 && length == |payload|
      requires Assembled()
      modifies this`emitted, this`largePacketParts, this`firstPacketSequenceId, this`frames
      ensures frames == old(frames) + [Frame(sequenceId, extra, payload)] && Assembled()
    {
      ghost var frame := Frame(sequenceId, extra, payload);
      PacketsSnoc(frames, frame);
      PacketsSnoc(Open(frames), frame);
      ConcatSnoc(largePacketParts, payload);
      frames := frames + [frame];
      if length < MAX_PACKET_LENGTH && |largePacketParts| == 0 {
        emitted := emitted + [Packet(sequenceId, 1, extra + payload)];
      } else {
        if |largePacketParts| == 0 {
          firstPacketSequenceId := sequenceId;
        }
        largePacketParts := largePacketParts + [payload];
        if length < MAX_PACKET_LENGTH {
          FlushLargePacket();
        }
      }
    }

    method FlushLargePacket()
      requires packetHeaderLength >= 4
      modifies this`emitted, this`largePacketParts
      ensures emitted == old(emitted) +
                [Packet(firstPacketSequenceId, old(|largePacketParts|),
                        Zeros(packetHeaderLength - 4) + Concat(old(largePacketParts)))]
      ensures largePacketParts == []
    {
      var numPackets := |largePacketParts|;
      var body := Concat(largePacketParts);
      largePacketParts := [];
      emitted := emitted + [Packet(firstPacketSequenceId, numPackets, Zeros(packetHeaderLength - 4) + body)];
    }

    /** Bytes that complete no frame yet. */
    ghost method Receive(bytes: Buffer)
      requires packetHeaderLength >= 4 && Frames(packetHeaderLength, received) == (frames, rest)
      requires !StartsWithFrame(packetHeaderLength, rest + bytes)
      modifies this`received, this`rest
      ensures received == old(received) + bytes && rest == old(rest) + bytes
      ensures Frames(packetHeaderLength, received) == (frames, rest)
    {
      FramesAppend(packetHeaderLength, received, bytes);
      received, rest := received + bytes, rest + bytes;
      assert frames + [] == frames;
    }

    /** Bytes that complete exactly one frame. */
    method ReceiveFrame(ghost bytes: Buffer, sequenceId: Byte, extra: Buffer, payload: Buffer)
      requires packetHeaderLength >= 4 && Frames(packetHeaderLength, received) == (frames, rest) && Assembled()
      requires length == |payload| && |extra| == packetHeaderLength - 4
      requires |rest + bytes| == packetHeaderLength + length && PayloadLength(rest + bytes) == length
      requires FrameOf(packetHeaderLength, rest + bytes) == Frame(sequenceId, extra, payload)
      modifies this`received, this`rest, this`emitted, this`largePacketParts, this`firstPacketSequenceId, this`frames
      ensures received == old(received) + bytes && rest == []
      ensures Frames(packetHeaderLength, received) == (frames, rest) && Assembled()
    {
      FramesAppend(packetHeaderLength, received, bytes);
      SingleFrame(packetHeaderLength, rest + bytes);
      received, rest := received + bytes, [];
      FrameComplete(sequenceId, extra, payload);
    }

    /** A chunk that starts with a whole frame. */
    method TakeFrame(frame: Buffer)
      requires Valid() && execute == Start
      requires |frame| >= 3 && |frame| == packetHeaderLength + length && length == PayloadLength(frame)
      modifies this`received, this`rest, this`emitted, this`largePacketParts, this`firstPacketSequenceId, this`frames
      ensures Valid() && received == old(received) + frame
    {
      assert rest + frame == frame;
      ReceiveFrame(frame, frame[3], frame[4..packetHeaderLength], frame[packetHeaderLength..]);
    }

    /** A chunk that ends inside the payload of a frame. */
    method KeepPayload(partial: Buffer)
      requires Valid() && execute == Start
      requires |partial| >= 3 && |partial| < packetHeaderLength + length && length == PayloadLength(partial)
      modifies this`received, this`rest, this`buffer, this`bufferLength, this`execute
      ensures Valid() && received == old(received) + partial
    {
      hide Frames, Packets, Open, Body, Concat;
      assert rest + partial == partial;
      Receive(partial);
      buffer := [partial[3..]];
      ConcatOne(partial[3..]);
      bufferLength := |partial| - 3;
      execute := Payload;
    }

    /** A chunk that ends inside a length header. */
    method KeepHeader(partial: Buffer)
      requires Valid() && execute == Start && |partial| < 3
      modifies this`received, this`rest, this`length, this`execute
      ensures Valid() && received == old(received) + partial
    {
      assert rest + partial == partial;
      Receive(partial);
      if |partial| > 0 {
        length := partial[0];
        if |partial| == 2 {
          length := (partial[0] as int) + 256 * (partial[1] as int);
          execute := Header3;
        } else {
          execute := Header2;
        }
      }
    }

    method ExecuteStart(chunk: Buffer)
      requires Valid() && execute == Start
      modifies this
      ensures Valid() && received == old(received) + chunk
    {
      hide Frames, Packets, Open, Body, Concat;
      var start, end := 0, |chunk|;
      while end - start >= 3
        invariant 0 <= start <= end && execute == Start && Valid()
        invariant received == old(received) + chunk[..start]
        decreases end - start
      {
        length := PayloadLength(chunk[start..]);
        var size := length + packetHeaderLength;
        if end - start >= size {
          TakeFrame(chunk[start..start + size]);
          Advance(old(received), chunk, start, start + size);
          start := start + size;
        } else {
          KeepPayload(chunk[start..end]);
          Advance(old(received), chunk, start, end);
          assert chunk[..end] == chunk;
          return;
        }
      }
      KeepHeader(chunk[start..end]);
      Advance(old(received), chunk, start, end);
      assert chunk[..end] == chunk;
    }

    /** The bytes that were still missing from the frame begun earlier. */
    method FinishPayload(last: Buffer)
      requires Valid() && execute == Payload
      requires |last| == length - bufferLength + packetHeaderLength - 3
      modifies this
      ensures Valid() && execute == Start && received == old(received) + last
    {
      hide Frames, Packets, Open, Body;
      var payload := [0, 0, 0] + Concat(buffer) + last;
      SameAfterLength(packetHeaderLength, payload, rest, rest[3..], last);
      ReceiveFrame(last, payload[3], payload[4..packetHeaderLength], payload[packetHeaderLength..]);
      buffer := [];
      bufferLength := 0;
      execute := Start;
    }

    method ExecutePayload(chunk: Buffer)
      requires Valid() && execute == Payload
      modifies this
      ensures Valid() && received == old(received) + chunk
    {
      hide Frames, Packets, Open, Body, PayloadLength;
      var remainingPayload := length - bufferLength + packetHeaderLength - 3;
      if |chunk| >= remainingPayload {
        FinishPayload(chunk[..remainingPayload]);
        Advance(old(received), chunk, remainingPayload, |chunk|);
        assert chunk[..|chunk|] == chunk && chunk[remainingPayload..|chunk|] == chunk[remainingPayload..];
        if |chunk| - remainingPayload > 0 {
          ExecuteStart(chunk[remainingPayload..]);
        }
      } else {
        BufferPayload(chunk);
      }
    }

    method BufferPayload(chunk: Buffer)
      requires Valid() && execute == Payload
      requires |chunk| < length - bufferLength + packetHeaderLength - 3
      modifies this`received, this`rest, this`buffer, this`bufferLength
      ensures Valid() && received == old(received) + chunk
    {
      hide Frames, Packets, Open, Body, Concat;
      assert (rest + chunk)[3..] == rest[3..] + chunk;
      Receive(chunk);
      ConcatSnoc(buffer, chunk);
      buffer := buffer + [chunk];
      bufferLength := bufferLength + |chunk|;
    }

    /** The last length bytes arrive and nothing after them. */
    method FinishLength(ghost last: Buffer, added: nat)
      requires Valid() && (execute == Header2 || execute == Header3)
      requires |rest + last| == 3 && length + added == PayloadLength(rest + last)
      modifies this`received, this`rest, this`length, this`execute
      ensures Valid() && execute == Payload && received == old(received) + last
    {
      hide Frames, Packets, Open, Body, Concat;
      Receive(last);
      assert rest[3..] == [];
      ConcatNone<Byte>();
      length := length + added;
      execute := Payload;
    }

    method ExecuteHeader2(chunk: Buffer)
      requires Valid() && execute == Header2
      modifies this
      ensures Valid() && received == old(received) + if chunk == [] then [0] else chunk
    {
      hide Frames, Packets, Open, Body;
      if |chunk| > 1 {
        FinishLength(chunk[..2], 256 * (chunk[0] as int) + 65536 * (chunk[1] as int));
        Advance(old(received), chunk, 2, |chunk|);
        assert chunk[..|chunk|] == chunk && chunk[2..|chunk|] == chunk[2..];
        ExecutePayload(chunk[2..]);
      } else {
        length := length + 256 * (ByteAt(chunk, 0) as int);
        execute := Header3;
        Receive([ByteAt(chunk, 0)]);
      }
    }

    method ExecuteHeader3(chunk: Buffer)
      requires Valid() && execute == Header3
      modifies this
      ensures Valid() && received == old(received) + if chunk == [] then [0] else chunk
    {
      FinishLength([ByteAt(chunk, 0)], 65536 * (ByteAt(chunk, 0) as int));
      if chunk == [] {
        ExecutePayload([]);
      } else {
        Advance(old(received), chunk, 1, |chunk|);
        assert chunk[..|chunk|] == chunk && chunk[1..|chunk|] == chunk[1..] && chunk[..1] == [chunk[0]];
        ExecutePayload(chunk[1..]);
      }
    }

    method Execute(chunk: Buffer)
      requires Valid()
      modifies this
      ensures Valid() && received == Heard(packetHeaderLength, old(received), chunk)
      ensures emitted == StreamPackets(packetHeaderLength, received)
      ensures chunk == [] ==> (received == old(received) <==> !old(execute.Header2? || execute.Header3?))
    {
      match execute {
        case Start => ExecuteStart(chunk);
        case Header2 => ExecuteHeader2(chunk);
        case Header3 => ExecuteHeader3(chunk);
        case Payload => ExecutePayload(chunk);
      }
    }

    /** Chunk independence: the packets are those of the whole stream as it is heard, however it is cut;
        when no chunk is empty that is the stream itself. */
    method ExecuteAll(chunks: seq<Buffer>)
      requires Valid()
      modifies this
      ensures Valid() && received == HeardAll(packetHeaderLength, old(received), chunks)
      ensures emitted == StreamPackets(packetHeaderLength, received)
      ensures (forall c :: c in chunks ==> c != []) ==> received == old(received) + Concat(chunks)
    {
      hide Frames, Packets, Open, Body, Heard;
      for i := 0 to |chunks|
        invariant Valid() && received == HeardAll(packetHeaderLength, old(received), chunks[..i])
      {
        assert chunks[..i + 1][..i] == chunks[..i];
        Execute(chunks[i]);
      }
      assert chunks[..|chunks|] == chunks;
      if forall c :: c in chunks ==> c != [] {
        HarmlessNonEmpty(packetHeaderLength, old(received), chunks);
      }
    }
  }

  /** Nothing is lost, and when nothing is added the stream is heard as it is. */
  lemma {:induction false} HeardLength(header: nat, received: Buffer, chunks: seq<Buffer>)
    ensures var heard, sent := HeardAll(header, received, chunks), received + Concat(chunks);
            |heard| >= |sent| && (|heard| == |sent| ==> heard == sent)
  {
    hide InsideLength;
    if chunks == [] {
      assert received + [] == received;
    } else {
      var init, last := chunks[..|chunks| - 1], chunks[|chunks| - 1];
      HeardLength(header, received, init);
      ConcatSnoc(init, last);
      assert chunks == init + [last];
      assert received + Concat(init) + last == received + Concat(chunks);
    }
  }

  lemma HarmlessSnoc(header: nat, received: Buffer, init: seq<Buffer>, last: Buffer)
    ensures Harmless(header, received, init + [last]) <==>
            Harmless(header, received, init) && !(last == [] && InsideLength(header, received + Concat(init)))
  {
    hide InsideLength;
    var chunks := init + [last];
    assert chunks[..|init|] == init && chunks[|init|] == last;
    assert forall i :: 0 <= i < |init| ==> chunks[..i] == init[..i] && chunks[i] == init[i];
    if Harmless(header, received, chunks) {
      assert forall i :: 0 <= i < |init| && init[i] == [] ==> chunks[i] == [];
    }
  }

  /** The parser hears the stream exactly when no empty chunk comes inside the length bytes of a frame. */
  lemma {:induction false} HeardExactly(header: nat, received: Buffer, chunks: seq<Buffer>)
    ensures HeardAll(header, received, chunks) == received + Concat(chunks) <==> Harmless(header, received, chunks)
  {
    hide InsideLength, Harmless;
    if chunks == [] {
      assert received + [] == received;
      NothingHarmless(header, received);
    } else {
      var init, last := chunks[..|chunks| - 1], chunks[|chunks| - 1];
      HeardExactly(header, received, init);
      HeardLength(header, received, init);
      HarmlessSnoc(header, received, init, last);
      ConcatSnoc(init, last);
      assert chunks == init + [last];
      assert received + Concat(init) + last == received + Concat(chunks);
    }
  }

  lemma NothingHarmless(header: nat, received: Buffer)
    ensures Harmless(header, received, [])
  {
  }

  /** Any cut into chunks that are not empty is heard as it is. */
  lemma HarmlessNonEmpty(header: nat, received: Buffer, chunks: seq<Buffer>)
    requires forall c :: c in chunks ==> c != []
    ensures HeardAll(header, received, chunks) == received + Concat(chunks)
  {
    hide InsideLength;
    HeardExactly(header, received, chunks);
    assert forall i :: 0 <= i < |chunks| ==> chunks[i] in chunks;
  }

  lemma {:induction false} HarmlessAppend(header: nat, received: Buffer, a: seq<Buffer>, b: seq<Buffer>)
    ensures Harmless(header, received, a + b) <==>
            Harmless(header, received, a) && Harmless(header, received + Concat(a), b)
    decreases |b|
  {
    hide InsideLength, Harmless, Concat;
    if b == [] {
      assert a + b == a;
      NothingHarmless(header, received + Concat(a));
    } else {
      var init, last := b[..|b| - 1], b[|b| - 1];
      assert a + b == a + init + [last] && b == init + [last];
      HarmlessAppend(header, received, a, init);
      HarmlessSnoc(header, received, a + init, last);
      HarmlessSnoc(header, received + Concat(a), init, last);
      ConcatAppend(a, init);
      Associative(received, Concat(a), Concat(init));
    }
  }

  /** A network read never delivers an empty chunk; if one did, inside the length bytes, the packets would
      not be those of the bytes. */
  lemma EmptyChunkChangesPackets() returns (chunks: seq<Buffer>)
    ensures StreamPackets(4, HeardAll(4, [], chunks)) != StreamPackets(4, Concat(chunks))
  {
    chunks := [[1], [], [0, 0, 7, 9]];
    assert Concat(chunks) == [1, 0, 0, 7, 9] by {
      assert chunks[1..] == [[], [0, 0, 7, 9]] && chunks[1..][1..] == [[0, 0, 7, 9]];
      assert Concat([[0, 0, 7, 9]]) == [0, 0, 7, 9] + Concat([]);
    }
    assert HeardAll(4, [], chunks) == [1, 0, 0, 0, 7, 9] by { HeardInLength(chunks); }
    OneFrameAndAByte([1, 0, 0, 0, 7], 9);
    SingleFrame(4, [1, 0, 0, 7, 9]);
    assert [1, 0, 0, 0, 7] + [9] == [1, 0, 0, 0, 7, 9];
    SinglePacket(FrameOf(4, [1, 0, 0, 0, 7]));
    SinglePacket(FrameOf(4, [1, 0, 0, 7, 9]));
    assert FrameOf(4, [1, 0, 0, 0, 7]).id == 0 && FrameOf(4, [1, 0, 0, 7, 9]).id == 7;
  }

  lemma HeardInLength(chunks: seq<Buffer>)
    requires chunks == [[1], [], [0, 0, 7, 9]]
    ensures HeardAll(4, [], chunks) == [1, 0, 0, 0, 7, 9]
  {
    assert chunks[..2] == [[1], []] && chunks[..2][..1] == [[1]] && chunks[..1][..0] == [];
    assert HeardAll(4, [], []) == [];
    assert HeardAll(4, [], [[1]]) == [1] by { assert [[1]][..0] == []; }
    assert Frames(4, [1]) == ([], [1]);
    assert HeardAll(4, [], [[1], []]) == [1, 0] by { assert [[1], []][..1] == [[1]]; }
    assert [1, 0] + [0, 0, 7, 9] == [1, 0, 0, 0, 7, 9];
  }

  lemma SinglePacket(frame: Frame)
    requires Short(frame)
    ensures Packets([frame]) == [Packet(frame.id, 1, frame.extra + frame.payload)]
  {
    PacketsSnoc([], frame);
    assert [] + [frame] == [frame];
  }

  lemma OneFrameAndAByte(frame: Buffer, byte: Byte)
    requires |frame| >= 3 && |frame| == 4 + PayloadLength(frame)
    ensures Frames(4, frame + [byte]) == ([FrameOf(4, frame)], [byte])
  {
    FrameThenRest(4, frame, [byte]);
  }

  lemma FrameThenRest(header: nat, frame: Buffer, rest: Buffer)
    requires header >= 4 && |frame| >= 3 && |frame| == header + PayloadLength(frame)
    requires !StartsWithFrame(header, rest)
    ensures Frames(header, frame + rest) == ([FrameOf(header, frame)], rest)
  {
    FramesAppend(header, frame, rest);
    SingleFrame(header, frame);
    assert [] + rest == rest && [FrameOf(header, frame)] + [] == [FrameOf(header, frame)];
  }

  // ---------------------------------------------------------------- the writer

  function Min(a: nat, b: nat): nat {
    if a < b then a else b
  }

  function Next(id: Byte): Byte {
    (id + 1) % 256
  }

  /** The frames `writePacket` cuts from a payload. Its loop bound counts the four header bytes
      too, so the loop ends only once the rest of the payload and a header fit one frame. */
  function Written(payload: Buffer, id: Byte): seq<Frame> {
    if |payload| + 4 <= MAX_PACKET_LENGTH then [Frame(id, [], payload)]
    else
      var n := Min(MAX_PACKET_LENGTH, |payload|);
      [Frame(id, [], payload[..n])] + Written(payload[n..], Next(id))
  }

  function LastId(payload: Buffer, id: Byte): Byte {
    if |payload| + 4 <= MAX_PACKET_LENGTH then id
    else LastId(payload[Min(MAX_PACKET_LENGTH, |payload|)..], Next(id))
  }

  function IdAfter(payload: Buffer, id: Byte): Byte {
    Next(LastId(payload, id))
  }

  function FrameBytes(frame: Frame): Buffer {
    Le(|frame.payload|, 3) + [frame.id] + frame.extra + frame.payload
  }

  function Serialize(frames: seq<Frame>): Buffer {
    if frames == [] then [] else FrameBytes(frames[0]) + Serialize(frames[1..])
  }

  function HeaderBytes(frame: Frame): Buffer {
    Le(|frame.payload|, 3) + [frame.id] + frame.extra
  }

  /** The buffers the loop passes on: a header and a chunk for every frame, the chunk perhaps empty. */
  function FrameWrites(frames: seq<Frame>): seq<Buffer> {
    if frames == [] then [] else [HeaderBytes(frames[0]), frames[0].payload] + FrameWrites(frames[1..])
  }

  /** The buffers `writePacket` passes on: a packet that fits goes out in one. */
  function Writes(payload: Buffer, id: Byte): seq<Buffer> {
    if |payload| + 4 < MAX_PACKET_LENGTH then [FrameBytes(Frame(id, [], payload))]
    else FrameWrites(Written(payload, id))
  }

  class PacketWriter {
    var sequenceId: Byte
    /** The buffers passed to `write` so far. */
    var writes: seq<Buffer>

    constructor ()
      ensures sequenceId == 0 && writes == []
    {
      sequenceId, writes := 0, [];
    }

    method BumpSequenceId(numPackets: nat)
      modifies this`sequenceId
      ensures sequenceId == (old(sequenceId) + numPackets) % 256
    {
      sequenceId := (sequenceId + numPackets) % 256;
    }

    /** `buffer` is the packet's buffer, whose first four bytes are room for a header. */
    method WritePacket(buffer: Buffer)
      requires |buffer| >= 4
      modifies this
      ensures writes == old(writes) + Writes(buffer[4..], old(sequenceId))
      ensures sequenceId == IdAfter(buffer[4..], old(sequenceId))
    {
      if |buffer| < MAX_PACKET_LENGTH {
        var header := Le(|buffer| - 4, 3) + [sequenceId];
        assert header + [] == header;
        BumpSequenceId(1);
        writes := writes + [header + buffer[4..]];
      } else {
        WriteLarge(buffer);
      }
    }

    method WriteLarge(buffer: Buffer)
      requires |buffer| >= MAX_PACKET_LENGTH
      modifies this
      ensures writes == old(writes) + FrameWrites(Written(buffer[4..], old(sequenceId)))
      ensures sequenceId == IdAfter(buffer[4..], old(sequenceId))
    {
      var length, offset := |buffer|, 4;
      ghost var done := false;
      while offset < 4 + length
        invariant 4 <= offset && (done <==> offset >= 4 + length)
        invariant done ==> writes == old(writes + FrameWrites(Written(buffer[4..], sequenceId)))
        invariant done ==> sequenceId == IdAfter(buffer[4..], old(sequenceId))
        invariant !done ==>
            writes + FrameWrites(Written(Rest(buffer, offset), sequenceId)) ==
              old(writes + FrameWrites(Written(buffer[4..], sequenceId)))
        invariant !done ==> IdAfter(Rest(buffer, offset), sequenceId) == IdAfter(buffer[4..], old(sequenceId))
        decreases 4 + length - offset
      {
        done := WriteChunk(buffer, offset);
        offset := offset + MAX_PACKET_LENGTH;
      }
    }

    /** One turn of the loop: the next frame, and whether it was the last. */
    method WriteChunk(buffer: Buffer, offset: nat) returns (ghost done: bool)
      requires 4 <= offset < 4 + |buffer|
      modifies this
      ensures done <==> offset + MAX_PACKET_LENGTH >= 4 + |buffer|
      ensures done ==> writes == old(writes + FrameWrites(Written(Rest(buffer, offset), sequenceId)))
      ensures done ==> sequenceId == IdAfter(Rest(buffer, offset), old(sequenceId))
      ensures var next := offset + MAX_PACKET_LENGTH; !done ==>
                && writes + FrameWrites(Written(Rest(buffer, next), sequenceId)) ==
                     old(writes + FrameWrites(Written(Rest(buffer, offset), sequenceId)))
                && IdAfter(Rest(buffer, next), sequenceId) == IdAfter(Rest(buffer, offset), old(sequenceId))
    {
      hide HeaderBytes;
      var chunk := buffer[Min(offset, |buffer|)..Min(offset + MAX_PACKET_LENGTH, |buffer|)];
      ghost var rest, id := Rest(buffer, offset), sequenceId;
      ghost var frame := Frame(id, [], chunk);
      done := |rest| + 4 <= MAX_PACKET_LENGTH;
      RestOfChunk(buffer, offset);
      if done {
        FrameWritesCons(frame, []);
        assert [frame] + [] == [frame];
      } else {
        FrameWritesCons(frame, Written(Rest(buffer, offset + MAX_PACKET_LENGTH), Next(id)));
      }
      WriteFrame(chunk, frame);
    }

    method WriteFrame(chunk: Buffer, ghost frame: Frame)
      requires |chunk| <= MAX_PACKET_LENGTH && frame == Frame(sequenceId, [], chunk)
      modifies this
      ensures writes == old(writes) + [HeaderBytes(frame), chunk]
      ensures sequenceId == Next(old(sequenceId))
    {
      var header: Buffer;
      if |chunk| == MAX_PACKET_LENGTH {
        header := [0xff, 0xff, 0xff, sequenceId];
      } else {
        header := [|chunk| % 256, |chunk| / 256 % 256, |chunk| / 65536 % 256, sequenceId];
      }
      LengthBytes(|chunk|);
      BumpSequenceId(1);
      assert HeaderBytes(frame) == header;
      writes := writes + [header];
      writes := writes + [chunk];
    }
  }

  lemma FrameWritesCons(frame: Frame, frames: seq<Frame>)
    ensures FrameWrites([frame] + frames) == [HeaderBytes(frame), frame.payload] + FrameWrites(frames)
    ensures FrameWrites([]) == []
  {
    hide HeaderBytes;
    assert ([frame] + frames)[1..] == frames;
  }

  /** The buffers make up the frames. */
  lemma {:induction false} FrameWritesConcat(frames: seq<Frame>)
    ensures Concat(FrameWrites(frames)) == Serialize(frames)
  {
    if frames != [] {
      var first := [HeaderBytes(frames[0]), frames[0].payload];
      FrameWritesConcat(frames[1..]);
      ConcatAppend(first, FrameWrites(frames[1..]));
      ConcatTwo(HeaderBytes(frames[0]), frames[0].payload);
    }
  }

  lemma ConcatTwo(a: Buffer, b: Buffer)
    ensures Concat([a, b]) == a + b
  {
    assert [a, b][1..] == [b] && [b][1..] == [];
    assert b + [] == b && Concat([b]) == b + Concat([]);
  }

  lemma WritesConcat(payload: Buffer, id: Byte)
    ensures Concat(Writes(payload, id)) == Serialize(Written(payload, id))
  {
    hide FrameBytes, FrameWrites;
    if |payload| + 4 < MAX_PACKET_LENGTH {
      var frame := Frame(id, [], payload);
      SerializeOne(frame);
      assert Concat([FrameBytes(frame)]) == FrameBytes(frame) + Concat([]);
    } else {
      FrameWritesConcat(Written(payload, id));
    }
  }

  /** Only a chunk can be empty, and it comes after its header: at the end of a frame. */
  lemma {:induction false} FrameWritesHarmless(sent: Buffer, frames: seq<Frame>)
    requires Frames(4, sent).1 == [] && forall f :: f in frames ==> Writable(4, f)
    ensures Harmless(4, sent, FrameWrites(frames)) && Frames(4, sent + Serialize(frames)).1 == []
    decreases |frames|
  {
    hide Frames, FrameBytes, Harmless;
    if frames == [] {
      NothingHarmless(4, sent);
      assert sent + [] == sent;
    } else {
      var frame := frames[0];
      assert frame in frames && forall f :: f in frames[1..] ==> f in frames;
      var next := sent + FrameBytes(frame);
      FrameHarmless(sent, frame);
      FrameWritesHarmless(next, frames[1..]);
      HarmlessAppend(4, sent, [HeaderBytes(frame), frame.payload], FrameWrites(frames[1..]));
      ConcatTwo(HeaderBytes(frame), frame.payload);
      WholeFrame(frame);
      assert next + Serialize(frames[1..]) == sent + Serialize(frames);
    }
  }

  lemma WholeFrame(frame: Frame)
    ensures FrameBytes(frame) == HeaderBytes(frame) + frame.payload
  {
  }

  lemma FrameHarmless(sent: Buffer, frame: Frame)
    requires Frames(4, sent).1 == [] && Writable(4, frame)
    ensures Harmless(4, sent, [HeaderBytes(frame), frame.payload]) && Frames(4, sent + FrameBytes(frame)).1 == []
  {
    hide Frames;
    FrameBytesRoundTrip(4, frame);
    FramesAppend(4, sent, FrameBytes(frame));
    SingleFrame(4, FrameBytes(frame));
    assert [] + FrameBytes(frame) == FrameBytes(frame);
    if frame.payload == [] {
      assert HeaderBytes(frame) + [] == HeaderBytes(frame) == FrameBytes(frame);
      var both := [HeaderBytes(frame), frame.payload];
      assert both[..1] == [HeaderBytes(frame)] && Concat([HeaderBytes(frame)]) == HeaderBytes(frame) + Concat([]);
    }
  }

  /** The part of the packet buffer that the loop has not sent when it stands at `offset`. */
  function Rest(buffer: Buffer, offset: nat): Buffer {
    buffer[Min(offset, |buffer|)..]
  }

  lemma RestOfChunk(buffer: Buffer, offset: nat)
    requires 4 <= offset < 4 + |buffer|
    ensures var rest, end := Rest(buffer, offset), Min(offset + MAX_PACKET_LENGTH, |buffer|);
            var n := Min(MAX_PACKET_LENGTH, |rest|);
            && buffer[Min(offset, |buffer|)..end] == rest[..n]
            && Rest(buffer, offset + MAX_PACKET_LENGTH) == rest[n..]
            && (|rest| + 4 <= MAX_PACKET_LENGTH ==> rest[..n] == rest)
            && (|rest| + 4 <= MAX_PACKET_LENGTH <==> offset + MAX_PACKET_LENGTH >= 4 + |buffer|)
  {
  }

  lemma LengthBytes(n: nat)
    requires n <= MAX_PACKET_LENGTH
    ensures Le(n, 3) == [n % 256, n / 256 % 256, n / 65536]
    ensures n / 65536 < 256
  {
    assert Le(n, 3) == [n % 256] + Le(n / 256, 2);
    assert Le(n / 256, 2) == [n / 256 % 256] + Le(n / 256 / 256, 1);
    assert Le(n / 256 / 256, 1) == [n / 256 / 256 % 256] + Le(n / 256 / 256 / 256, 0);
    assert n / 256 / 256 == n / 65536;
  }

  /** A frame without extra bytes is the protocol's packet. */
  lemma FrameIsPacket(frame: Frame)
    requires frame.extra == [] && |frame.payload| <= MAX_PACKET_LENGTH
    ensures Protocol.IsPacket(FrameBytes(frame), frame.id, frame.payload)
  {
    var n, b := |frame.payload|, FrameBytes(frame);
    LengthBytes(n);
    assert n == n % 256 + 256 * (n / 256 % 256) + 65536 * (n / 65536);
    assert b[..3] == Le(n, 3) && b[4..] == frame.payload;
  }

  lemma SerializeCons(frame: Frame, frames: seq<Frame>)
    ensures Serialize([frame] + frames) == FrameBytes(frame) + Serialize(frames)
  {
    hide FrameBytes;
    assert ([frame] + frames)[1..] == frames;
  }

  lemma SerializeOne(frame: Frame)
    ensures Serialize([frame]) == FrameBytes(frame)
  {
    hide FrameBytes;
    SerializeCons(frame, []);
    assert [frame] + [] == [frame] && FrameBytes(frame) + [] == FrameBytes(frame);
  }

  lemma {:induction false} SerializeAppend(a: seq<Frame>, b: seq<Frame>)
    ensures Serialize(a + b) == Serialize(a) + Serialize(b)
    decreases |a|
  {
    hide FrameBytes;
    if a == [] {
      assert a + b == b;
    } else {
      SerializeAppend(a[1..], b);
      assert a + b == [a[0]] + (a[1..] + b);
      SerializeCons(a[0], a[1..] + b);
    }
  }

  // ---------------------------------------------------------------- round trip

  predicate Writable(header: nat, frame: Frame) {
    4 + |frame.extra| == header && |frame.payload| <= MAX_PACKET_LENGTH
  }

  lemma FrameBytesRoundTrip(header: nat, frame: Frame)
    requires Writable(header, frame)
    ensures var s := FrameBytes(frame);
            |s| == header + |frame.payload| && PayloadLength(s) == |frame.payload| && FrameOf(header, s) == frame
  {
    var n := |frame.payload|;
    LengthBytes(n);
    var s := FrameBytes(frame);
    assert s[0] == n % 256 && s[1] == n / 256 % 256 && s[2] == n / 65536 && s[3] == frame.id;
    assert n == n % 256 + 256 * (n / 256 % 256) + 65536 * (n / 65536);
    assert s[4..header] == frame.extra && s[header..] == frame.payload;
  }

  lemma NothingSerialized(header: nat)
    requires header >= 4
    ensures Frames(header, Serialize([])) == ([], [])
  {
  }

  lemma {:induction false} SerializeRoundTrip(header: nat, frames: seq<Frame>)
    requires header >= 4 && forall f :: f in frames ==> Writable(header, f)
    ensures Frames(header, Serialize(frames)) == (frames, [])
  {
    hide FrameBytes, Frames, FrameOf, PayloadLength;
    if frames == [] {
      NothingSerialized(header);
    } else {
      SerializeRoundTrip(header, frames[1..]);
      FrameBytesRoundTrip(header, frames[0]);
      FrameThenStream(header, FrameBytes(frames[0]), Serialize(frames[1..]));
      assert frames == [frames[0]] + frames[1..];
    }
  }

  lemma FrameThenStream(header: nat, frame: Buffer, s: Buffer)
    requires header >= 4 && |frame| >= 3 && |frame| == header + PayloadLength(frame)
    ensures Frames(header, frame + s) == ([FrameOf(header, frame)] + Frames(header, s).0, Frames(header, s).1)
  {
    SingleFrame(header, frame);
    FramesAppend(header, frame, s);
    assert [] + s == s;
  }

  function FullFrames(n: nat): nat {
    if n < MAX_PACKET_LENGTH then 0 else 1 + FullFrames(n - MAX_PACKET_LENGTH)
  }

  /** The loop runs once more after the last byte of the payload. */
  predicate OneTooMany(n: nat) {
    if n < MAX_PACKET_LENGTH then n + 4 > MAX_PACKET_LENGTH else OneTooMany(n - MAX_PACKET_LENGTH)
  }

  lemma {:induction false} Residues(n: nat)
    ensures FullFrames(n) == n / MAX_PACKET_LENGTH
    ensures OneTooMany(n) <==> n % MAX_PACKET_LENGTH > MAX_PACKET_LENGTH - 4
  {
    if n >= MAX_PACKET_LENGTH {
      Residues(n - MAX_PACKET_LENGTH);
    }
  }

  /** The i-th sequence id from `id` on. */
  function IdAt(id: Byte, i: nat): Byte {
    (id + i) % 256
  }

  lemma IdAtNext(id: Byte)
    ensures IdAt(id, 0) == id && forall i: nat :: IdAt(Next(id), i) == IdAt(id, i + 1)
  {
  }

  /** The frames of a packet have consecutive ids modulo 256, and there are as many as the length says. */
  lemma {:induction false} WrittenIds(payload: Buffer, id: Byte)
    ensures var frames := Written(payload, id);
            && |frames| == FullFrames(|payload|) + (if OneTooMany(|payload|) then 2 else 1)
            && (forall i :: 0 <= i < |frames| ==> frames[i].id == IdAt(id, i))
            && LastId(payload, id) == IdAt(id, |frames| - 1)
    decreases |payload|
  {
    IdAtNext(id);
    hide IdAt, Next;
    if |payload| + 4 > MAX_PACKET_LENGTH {
      WrittenIds(payload[Min(MAX_PACKET_LENGTH, |payload|)..], Next(id));
    }
  }

  function Payloads(frames: seq<Frame>): seq<Buffer> {
    if frames == [] then [] else Payloads(frames[..|frames| - 1]) + [frames[|frames| - 1].payload]
  }

  lemma {:induction false} PayloadsCons(frame: Frame, frames: seq<Frame>)
    ensures Payloads([frame] + frames) == [frame.payload] + Payloads(frames)
  {
    if frames == [] {
      assert [frame] + frames == [frame] && [frame][..0] == [];
    } else {
      PayloadsCons(frame, frames[..|frames| - 1]);
      assert ([frame] + frames)[..|frames|] == [frame] + frames[..|frames| - 1];
    }
  }

  /** The writer cuts a payload as the protocol does, but for the empty frame after the three residues. */
  lemma {:induction false} WrittenIsCut(payload: Buffer, id: Byte)
    ensures Payloads(Written(payload, id)) ==
            Protocol.Cut(payload) + if |payload| % 0xff_ffff > 0xff_fffb then [[]] else []
    decreases |payload|
  {
    hide Payloads;
    if |payload| < 0xff_ffff {
      WrittenShort(payload, id);
    } else {
      var first, rest := payload[..0xff_ffff], payload[0xff_ffff..];
      WrittenIsCut(rest, Next(id));
      PayloadsCons(Frame(id, [], first), Written(rest, Next(id)));
      assert |payload| % 0xff_ffff == |rest| % 0xff_ffff;
      var stray := if |payload| % 0xff_ffff > 0xff_fffb then [[]] else [];
      assert [first] + (Protocol.Cut(rest) + stray) == ([first] + Protocol.Cut(rest)) + stray;
    }
  }

  lemma WrittenShort(payload: Buffer, id: Byte)
    requires |payload| < 0xff_ffff
    ensures Payloads(Written(payload, id)) == [payload] + if |payload| > 0xff_fffb then [[]] else []
  {
    PayloadsCons(Frame(id, [], payload), []);
    if |payload| > 0xff_fffb {
      assert payload[..|payload|] == payload && payload[|payload|..] == [];
      PayloadsCons(Frame(Next(id), [], []), []);
      PayloadsCons(Frame(id, [], payload), [Frame(Next(id), [], [])]);
      assert Written(payload, id) == [Frame(id, [], payload)] + [Frame(Next(id), [], [])];
    }
  }

  function Contents(packets: seq<Packet>): seq<Buffer> {
    if packets == [] then [] else Contents(packets[..|packets| - 1]) + [packets[|packets| - 1].content]
  }

  /** The parser puts frames together as the protocol does. */
  lemma {:induction false} PacketsAreAssembled(frames: seq<Frame>)
    requires forall f :: f in frames ==> f.extra == []
    ensures Protocol.Assembled(Payloads(frames)) == (Contents(Packets(frames)), Body(Open(frames)))
    ensures forall f :: f in Open(frames) ==> f.extra == []
  {
    hide Packets, Open, Body, Contents, Payloads, Protocol.Assembled;
    if frames == [] {
      NothingAssembled();
    } else {
      var init, last := frames[..|frames| - 1], frames[|frames| - 1];
      assert frames == init + [last];
      PacketsAreAssembled(init);
      OneMorePayload(init, last);
      OneMorePiece(Payloads(init), last.payload);
      assert Contents(Packets(init)) + [] == Contents(Packets(init));
    }
  }

  lemma NothingAssembled()
    ensures Packets([]) == [] && Open([]) == [] && Body([]) == [] && Payloads([]) == [] && Contents([]) == []
    ensures Protocol.Assembled([]) == ([], [])
  {
  }

  lemma OneMorePiece(pieces: seq<Buffer>, last: Buffer)
    ensures var (payloads, open) := Protocol.Assembled(pieces);
            Protocol.Assembled(pieces + [last]) ==
            if |last| < 0xff_ffff then (payloads + [open + last], []) else (payloads, open + last)
  {
    assert (pieces + [last])[..|pieces|] == pieces;
  }

  lemma OneMoreContent(packets: seq<Packet>, packet: Packet)
    ensures Contents(packets + [packet]) == Contents(packets) + [packet.content]
  {
    assert (packets + [packet])[..|packets|] == packets;
  }

  lemma OneMorePayload(init: seq<Frame>, last: Frame)
    requires last.extra == [] && forall f :: f in Open(init) ==> f.extra == []
    ensures Payloads(init + [last]) == Payloads(init) + [last.payload]
    ensures Contents(Packets(init + [last])) ==
            Contents(Packets(init)) + if |last.payload| < 0xff_ffff then [Body(Open(init)) + last.payload] else []
    ensures Body(Open(init + [last])) == if |last.payload| < 0xff_ffff then [] else Body(Open(init)) + last.payload
    ensures forall f :: f in Open(init + [last]) ==> f.extra == []
  {
    hide Packets, Open, Body, Contents;
    PacketsSnoc(init, last);
    assert (init + [last])[..|init|] == init;
    var run := Open(init) + [last];
    PacketsSnoc(Open(init), last);
    NoBody();
    if Short(last) {
      JoinedContent(run);
      OneMoreContent(Packets(init), Joined(run));
    } else {
      assert Packets(init) + [] == Packets(init);
      assert Contents(Packets(init)) + [] == Contents(Packets(init));
    }
  }

  lemma NoBody()
    ensures Body([]) == []
  {
  }

  lemma JoinedContent(frames: seq<Frame>)
    requires frames != [] && forall f :: f in frames ==> f.extra == []
    ensures Joined(frames).content == Body(frames)
  {
    assert frames[0] in frames;
    assert Body(frames[..0]) == [];
    assert [] + frames[0].payload == frames[0].payload;
    assert Zeros(0) + Body(frames) == Body(frames);
  }

  /** Nothing but full frames of one packet. */
  ghost predicate FullRun(run: seq<Frame>) {
    Packets(run) == [] && Open(run) == run && (run != [] ==> run[0].extra == [])
  }

  lemma FullRunSnoc(run: seq<Frame>, frame: Frame)
    requires FullRun(run) && !Short(frame) && frame.extra == []
    ensures FullRun(run + [frame])
  {
    PacketsSnoc(run, frame);
  }

  /** What a receiver makes of a list of frames of one packet and its payload. */
  function Received(id: Byte, numPackets: nat, payload: Buffer, stray: bool, lastId: Byte): seq<Packet> {
    [Packet(id, numPackets, payload)] + if stray then [Packet(lastId, 1, [])] else []
  }

  function FirstId(run: seq<Frame>, id: Byte): Byte {
    if run == [] then id else run[0].id
  }

  /** A short frame ends the packet of the full frames before it. */
  lemma LastFrame(run: seq<Frame>, frame: Frame)
    requires FullRun(run) && Short(frame) && frame.extra == []
    ensures Packets(run + [frame]) == [Packet(FirstId(run, frame.id), |run| + 1, Body(run) + frame.payload)]
    ensures Open(run + [frame]) == []
  {
    hide Packets, Open;
    PacketsSnoc(run, frame);
    var all := Body(run) + frame.payload;
    assert Zeros(0) + all == all;
    if run == [] {
      assert [] + [frame] == [frame] && [] + frame.payload == frame.payload;
    }
  }

  lemma JoinedAlone(frame: Frame)
    ensures Joined([frame]) == Packet(frame.id, 1, frame.extra + frame.payload)
  {
    hide Body;
  }

  lemma StrayFrame(run: seq<Frame>, frame: Frame, id: Byte)
    requires FullRun(run) && Short(frame) && frame.extra == []
    ensures Packets(run + [frame] + [Frame(id, [], [])]) == Packets(run + [frame]) + [Packet(id, 1, [])]
    ensures Open(run + [frame] + [Frame(id, [], [])]) == []
  {
    hide Packets, Open, Body, Joined, FullRun;
    var stray := Frame(id, [], []);
    LastFrame(run, frame);
    PacketsSnoc(run + [frame], stray);
    assert [] + [stray] == [stray] && stray.extra + stray.payload == [];
    JoinedAlone(stray);
  }

  lemma WrittenLast(run: seq<Frame>, payload: Buffer, id: Byte)
    requires FullRun(run) && |payload| < MAX_PACKET_LENGTH
    ensures Packets(run + Written(payload, id)) ==
            Received(FirstId(run, id), |run| + 1, Body(run) + payload, OneTooMany(|payload|), LastId(payload, id))
    ensures Open(run + Written(payload, id)) == []
  {
    hide Packets, Open, Body;
    var frame := Frame(id, [], payload);
    LastFrame(run, frame);
    if |payload| + 4 > MAX_PACKET_LENGTH {
      assert payload[..|payload|] == payload && payload[|payload|..] == [];
      assert run + Written(payload, id) == run + [frame] + [Frame(Next(id), [], [])];
      StrayFrame(run, frame, Next(id));
    }
  }

  lemma Regroup<T>(a: seq<T>, b: seq<T>, c: seq<T>)
    ensures a + (b + c) == (a + b) + c
  {
  }

  lemma NoFullFrames(n: nat)
    requires n < MAX_PACKET_LENGTH
    ensures FullFrames(n) == 0
  {
  }

  /** A full frame at the start of a long payload. */
  lemma WrittenStep(run: seq<Frame>, payload: Buffer, id: Byte)
    requires FullRun(run) && |payload| >= MAX_PACKET_LENGTH
    ensures var frame, rest := Frame(id, [], payload[..MAX_PACKET_LENGTH]), payload[MAX_PACKET_LENGTH..];
            && Written(payload, id) == [frame] + Written(rest, Next(id))
            && LastId(payload, id) == LastId(rest, Next(id)) && !Short(frame)
            && FullFrames(|payload|) == 1 + FullFrames(|rest|) && OneTooMany(|payload|) == OneTooMany(|rest|)
            && FirstId(run + [frame], Next(id)) == FirstId(run, id)
  {
  }

  /** What a receiver makes of a payload written after the full frames `run` of the same packet. */
  lemma {:induction false} WrittenPackets(run: seq<Frame>, payload: Buffer, id: Byte)
    requires FullRun(run)
    ensures Packets(run + Written(payload, id)) ==
            Received(FirstId(run, id), |run| + 1 + FullFrames(|payload|), Body(run) + payload,
                     OneTooMany(|payload|), LastId(payload, id))
    ensures Open(run + Written(payload, id)) == []
    decreases |payload|
  {
    hide Packets, Open, Body, Received, Written, LastId, FullFrames, OneTooMany, FullRun, FirstId, Next;
    if |payload| < MAX_PACKET_LENGTH {
      WrittenLast(run, payload, id);
      NoFullFrames(|payload|);
    } else {
      WrittenStep(run, payload, id);
      var frame, rest := Frame(id, [], payload[..MAX_PACKET_LENGTH]), payload[MAX_PACKET_LENGTH..];
      Regroup(run, [frame], Written(rest, Next(id)));
      Regroup(Body(run), frame.payload, rest);
      assert frame.payload + rest == payload;
      FullRunSnoc(run, frame);
      PacketsSnoc(run, frame);
      WrittenPackets(run + [frame], rest, Next(id));
    }
  }

  lemma NoFrames()
    ensures FullRun([]) && Body([]) == []
  {
  }

  lemma WrittenAlone(payload: Buffer, id: Byte)
    ensures Packets(Written(payload, id)) ==
            Received(id, |payload| / MAX_PACKET_LENGTH + 1, payload,
                     |payload| % MAX_PACKET_LENGTH > MAX_PACKET_LENGTH - 4, LastId(payload, id))
    ensures Open(Written(payload, id)) == []
  {
    NoFrames();
    hide Packets, Open, Body, Written, LastId, Received, FullFrames, OneTooMany;
    WrittenPackets([], payload, id);
    Residues(|payload|);
    assert [] + Written(payload, id) == Written(payload, id) && [] + payload == payload;
  }

  lemma {:induction false} WrittenIsWritable(payload: Buffer, id: Byte)
    ensures forall f :: f in Written(payload, id) ==> Writable(4, f)
    decreases |payload|
  {
    if |payload| + 4 > MAX_PACKET_LENGTH {
      WrittenIsWritable(payload[Min(MAX_PACKET_LENGTH, |payload|)..], Next(id));
    }
  }

  /** Framing round trip, with its exact boundary. */
  lemma RoundTrip(payload: Buffer, id: Byte)
    ensures var received := StreamPackets(4, Serialize(Written(payload, id)));
            && received != [] && received[0] == Packet(id, |payload| / MAX_PACKET_LENGTH + 1, payload)
            && (|received| == 1 <==> |payload| % MAX_PACKET_LENGTH <= MAX_PACKET_LENGTH - 4)
            && (|received| != 1 ==> received[1..] == [Packet(LastId(payload, id), 1, [])])
  {
    WrittenIsWritable(payload, id);
    SerializeRoundTrip(4, Written(payload, id));
    WrittenAlone(payload, id);
  }

  /** Such a payload, of 2^24-4 bytes: it is followed by an empty packet. */
  lemma StrayExample(id: Byte)
    ensures var payload := Zeros(0x100_0000 - 4);
            StreamPackets(4, Serialize(Written(payload, id))) == [Packet(id, 1, payload), Packet(Next(id), 1, [])]
  {
    hide StreamPackets, Serialize, Written, Zeros;
    var payload := Zeros(0x100_0000 - 4);
    RoundTrip(payload, id);
    WrittenIds(payload, id);
    ShortPayloadIds(payload, id);
    var received := StreamPackets(4, Serialize(Written(payload, id)));
    assert received == [received[0]] + received[1..];
  }

  lemma ShortPayloadIds(payload: Buffer, id: Byte)
    requires MAX_PACKET_LENGTH - 4 < |payload| < MAX_PACKET_LENGTH
    ensures LastId(payload, id) == Next(id) && |payload| / MAX_PACKET_LENGTH == 0
            && |payload| % MAX_PACKET_LENGTH == |payload|
  {
  }

  // ---------------------------------------------------------------- a whole connection

  /** The sequence id after writing a list of payloads. */
  function AllWritten(payloads: seq<Buffer>, id: Byte): seq<Frame> {
    if payloads == [] then []
    else Written(payloads[0], id) + AllWritten(payloads[1..], IdAfter(payloads[0], id))
  }

  /** Each payload under the id it was written with, and the stray empty packets. */
  function Expected(payloads: seq<Buffer>, id: Byte): seq<Packet> {
    if payloads == [] then []
    else
      var first := payloads[0];
      Received(id, |first| / MAX_PACKET_LENGTH + 1, first, |first| % MAX_PACKET_LENGTH > MAX_PACKET_LENGTH - 4,
               LastId(first, id))
      + Expected(payloads[1..], IdAfter(first, id))
  }

  lemma {:induction false} AllWrittenPackets(payloads: seq<Buffer>, id: Byte)
    ensures Packets(AllWritten(payloads, id)) == Expected(payloads, id)
    ensures forall f :: f in AllWritten(payloads, id) ==> Writable(4, f)
    decreases |payloads|
  {
    PacketsOfNone();
    hide Packets, Open, Written, IdAfter, LastId, Received, Writable;
    if payloads != [] {
      var first, next := payloads[0], IdAfter(payloads[0], id);
      AllWrittenPackets(payloads[1..], next);
      WrittenIsWritable(first, id);
      WrittenAlone(first, id);
      PacketsAppend(Written(first, id), AllWritten(payloads[1..], next));
      assert [] + AllWritten(payloads[1..], next) == AllWritten(payloads[1..], next);
    }
  }

  lemma PacketsOfNone()
    ensures Packets([]) == []
  {
  }

  /** The buffers passed on for a list of payloads. */
  function AllWrites(payloads: seq<Buffer>, id: Byte): seq<Buffer> {
    if payloads == [] then [] else Writes(payloads[0], id) + AllWrites(payloads[1..], IdAfter(payloads[0], id))
  }

  lemma {:induction false} AllWritesConcat(payloads: seq<Buffer>, id: Byte)
    ensures Concat(AllWrites(payloads, id)) == Serialize(AllWritten(payloads, id))
    decreases |payloads|
  {
    hide Writes, Written, IdAfter, FrameBytes;
    if payloads != [] {
      var next := IdAfter(payloads[0], id);
      AllWritesConcat(payloads[1..], next);
      WritesConcat(payloads[0], id);
      ConcatAppend(Writes(payloads[0], id), AllWrites(payloads[1..], next));
      SerializeAppend(Written(payloads[0], id), AllWritten(payloads[1..], next));
    }
  }

  /** Even passed on buffer by buffer, to a parser that sees the same buffers, the writes are harmless. */
  lemma {:induction false} AllWritesHarmless(sent: Buffer, payloads: seq<Buffer>, id: Byte)
    requires Frames(4, sent).1 == []
    ensures Harmless(4, sent, AllWrites(payloads, id))
    decreases |payloads|
  {
    hide Frames, Harmless, Writes, Written, IdAfter, Serialize;
    if payloads == [] {
      NothingHarmless(4, sent);
    } else {
      var writes, frames := Writes(payloads[0], id), Written(payloads[0], id);
      WritesHarmless(sent, payloads[0], id);
      WritesConcat(payloads[0], id);
      AllWritesHarmless(sent + Serialize(frames), payloads[1..], IdAfter(payloads[0], id));
      HarmlessAppend(4, sent, writes, AllWrites(payloads[1..], IdAfter(payloads[0], id)));
    }
  }

  lemma WritesHarmless(sent: Buffer, payload: Buffer, id: Byte)
    requires Frames(4, sent).1 == []
    ensures Harmless(4, sent, Writes(payload, id)) && Frames(4, sent + Serialize(Written(payload, id))).1 == []
  {
    hide Frames, InsideLength;
    WrittenIsWritable(payload, id);
    FrameWritesHarmless(sent, Written(payload, id));
  }

  method WriteAll(writer: PacketWriter, payloads: seq<Buffer>)
    modifies writer
    ensures writer.writes == old(writer.writes) + AllWrites(payloads, old(writer.sequenceId))
    decreases |payloads|
  {
    if payloads == [] {
      assert writer.writes + [] == writer.writes;
    } else {
      hide Writes, IdAfter;
      ghost var first := Writes(payloads[0], writer.sequenceId);
      ghost var others := AllWrites(payloads[1..], IdAfter(payloads[0], writer.sequenceId));
      assert (writer.writes + first) + others == writer.writes + (first + others);
      assert ([0, 0, 0, 0] + payloads[0])[4..] == payloads[0];
      writer.WritePacket([0, 0, 0, 0] + payloads[0]);
      WriteAll(writer, payloads[1..]);
    }
  }

  /** Payloads written one after the other, cut anywhere by the network, come out as they went in;
      only a payload that does not fit its frames is followed by an empty packet. */
  method Transmit(payloads: seq<Buffer>, chunks: seq<Buffer>) returns (writes: seq<Buffer>, packets: seq<Packet>)
    requires Concat(chunks) == Serialize(AllWritten(payloads, 0)) && Harmless(4, [], chunks)
    ensures Concat(writes) == Concat(chunks) && packets == Expected(payloads, 0)
  {
    hide Harmless, AllWrites, AllWritten, Expected, Serialize, HeardAll, Frames, Writable;
    var writer := new PacketWriter();
    WriteAll(writer, payloads);
    writes := writer.writes;
    assert writes == AllWrites(payloads, 0);
    AllWritesConcat(payloads, 0);
    var parser := new PacketParser(4);
    parser.ExecuteAll(chunks);
    HeardExactly(4, [], chunks);
    assert [] + Concat(chunks) == Concat(chunks);
    AllWrittenPackets(payloads, 0);
    SerializeRoundTrip(4, AllWritten(payloads, 0));
    packets := parser.emitted;
  }
}
