/** The compressed protocol of lib/compressed_protocol.js: frames go out and come in inline, or through
    a queue whose steps run on later ticks and on the completion of asynchronous zlib calls. */
module Compression {
  import opened Bytes
  import opened Framing
  import opened Maybes
  import Protocol

  const MIN_COMPRESS_LENGTH: nat := 50
  const MAX_SYNC_INFLATE_LENGTH: nat := 16384
  const MAX_SYNC_DEFLATE_LENGTH: nat := 4096
  const MAX_COMPRESSED_LENGTH: nat := 16777210

  // ---------------------------------------------------------------- a queue of asynchronous steps

  /** Where the queue is: nothing to do, a call of `_next` scheduled for the next tick, or a task started. */
  datatype Phase<T> = Idle | NextScheduled | Active(task: T)

  class TaskQueue<T> {
    var queue: seq<T>
    var running: bool
    var phase: Phase<T>

    /** `running` is false only when nothing is queued, scheduled or started: then, and only then,
        an inline step is in order. */
    ghost predicate Valid()
      reads this
    {
      && (running <==> !phase.Idle?)
      && (!running ==> queue == [])
    }

    /** The tasks that have not completed, oldest first. */
    ghost function Waiting(): seq<T>
      reads this
    {
      (if phase.Active? then [phase.task] else []) + queue
    }

    constructor ()
      ensures Valid() && !running && Waiting() == []
    {
      queue, running, phase := [], false, Idle;
    }

    method Push(task: T)
      requires Valid()
      modifies this
      ensures Valid() && running && Waiting() == old(Waiting()) + [task]
      ensures phase == if old(running) then old(phase) else NextScheduled
    {
      queue := queue + [task];
      if !running {
        running := true;
        phase := NextScheduled;
      }
    }

    /** The scheduled call of `_next`. */
    method Next()
      requires Valid() && phase.NextScheduled?
      modifies this
      ensures Valid() && Waiting() == old(Waiting()) && !phase.NextScheduled?
      ensures running <==> old(Waiting()) != []
    {
      if queue == [] {
        running := false;
        phase := Idle;
        return;
      }
      phase := Active(queue[0]);
      queue := queue[1..];
    }

    /** The started task calls `done`. */
    method Done()
      requires Valid() && phase.Active?
      modifies this
      ensures Valid() && phase.NextScheduled? && old(Waiting()) == [old(phase.task)] + Waiting()
    {
      phase := NextScheduled;
    }
  }

  // ---------------------------------------------------------------- writing

  /** A piece of a write with the compressed sequence id it was given. */
  datatype Job = Job(id: Byte, buffer: Buffer)

  /** Deflating makes the bytes fewer. */
  predicate Shrinks(deflate: Buffer -> Maybe<Buffer>, buffer: Buffer) {
    deflate(buffer).Just? && |deflate(buffer).value| < |buffer|
  }

  /** The frame carries the job's bytes: stored under the marker 0, or deflated and then shorter. From 50 bytes
      on it is deflated whenever that makes it shorter. */
  ghost predicate Carries(deflate: Buffer -> Maybe<Buffer>, frame: Frame, job: Job) {
    && frame.id == job.id
    && |frame.payload| <= |job.buffer| <= 16_777_210
    && (|job.buffer| >= 50 && Shrinks(deflate, job.buffer) ==> frame.extra == Le(|job.buffer|, 3))
    && (|| (frame.extra == Le(0, 3) && frame.payload == job.buffer)
        || (frame.extra == Le(|job.buffer|, 3) && deflate(job.buffer) == Just(frame.payload)
            && |frame.payload| < |job.buffer|))
  }

  function Pieces(buffer: Buffer): seq<Buffer> {
    if |buffer| <= MAX_COMPRESSED_LENGTH then [buffer]
    else [buffer[..MAX_COMPRESSED_LENGTH]] + Pieces(buffer[MAX_COMPRESSED_LENGTH..])
  }

  lemma {:induction false} PiecesConcat(buffer: Buffer)
    ensures Concat(Pieces(buffer)) == buffer
    ensures buffer != [] ==> forall p :: p in Pieces(buffer) ==> p != []
    decreases |buffer|
  {
    if |buffer| > MAX_COMPRESSED_LENGTH {
      var first, rest := buffer[..MAX_COMPRESSED_LENGTH], buffer[MAX_COMPRESSED_LENGTH..];
      PiecesConcat(rest);
      ConcatAppend([first], Pieces(rest));
      assert Concat([first]) == first + Concat([]);
    } else {
      assert Concat([buffer]) == buffer + Concat([]);
    }
  }

  /** All pieces but the last have the maximal length. */
  lemma {:induction false} PieceSizes(buffer: Buffer)
    ensures var pieces := Pieces(buffer);
            && pieces != [] && |pieces[|pieces| - 1]| <= 16_777_210
            && forall i :: 0 <= i < |pieces| - 1 ==> |pieces[i]| == 16_777_210
    decreases |buffer|
  {
    if |buffer| > MAX_COMPRESSED_LENGTH {
      PieceSizes(buffer[MAX_COMPRESSED_LENGTH..]);
    }
  }

  /** On the wire a frame is the protocol's compressed packet, which tells the length before compression: zero for
      a stored one. */
  lemma FrameIsCompressedPacket(deflate: Buffer -> Maybe<Buffer>, frame: Frame, job: Job)
    requires Carries(deflate, frame, job)
    ensures Protocol.IsCompressedPacket(FrameBytes(frame), frame.id, 0, job.buffer)
            || (deflate(job.buffer) == Just(frame.payload) &&
                Protocol.IsCompressedPacket(FrameBytes(frame), frame.id, |job.buffer|, frame.payload))
  {
    hide Le, Protocol.IsFixedLength, FrameBytes;
    CompressedPacketBytes(frame, if frame.extra == Le(0, 3) && frame.payload == job.buffer then 0 else |job.buffer|);
  }

  lemma CompressedPacketBytes(frame: Frame, n: nat)
    requires frame.extra == Le(n, 3) && n < 0x100_0000 && |frame.payload| < 0x100_0000
    ensures Protocol.IsCompressedPacket(FrameBytes(frame), frame.id, n, frame.payload)
  {
    hide Le, Protocol.IsFixedLength;
    LeIsThreeBytes(n);
    LeIsThreeBytes(|frame.payload|);
    var b := FrameBytes(frame);
    assert b[..3] == Le(|frame.payload|, 3) && b[4..7] == frame.extra && b[7..] == frame.payload;
  }

  lemma LeIsThreeBytes(n: nat)
    requires n < 0x100_0000
    ensures Protocol.IsFixedLength(Le(n, 3), n)
  {
    LengthBytes(n);
    assert n == n % 256 + 256 * (n / 256 % 256) + 65536 * (n / 65536);
  }

  function Issue(pieces: seq<Buffer>, id: Byte): seq<Job> {
    if pieces == [] then [] else [Job(id, pieces[0])] + Issue(pieces[1..], Next(id))
  }

  function IdPast(pieces: seq<Buffer>, id: Byte): Byte {
    if pieces == [] then id else IdPast(pieces[1..], Next(id))
  }

  /** Consecutive ids, modulo 256. */
  lemma {:induction false} IssueIds(pieces: seq<Buffer>, id: Byte)
    ensures var jobs := Issue(pieces, id);
            && |jobs| == |pieces| && (forall i :: 0 <= i < |jobs| ==> jobs[i] == Job(IdAt(id, i), pieces[i]))
            && IdPast(pieces, id) == IdAt(id, |pieces|)
    decreases |pieces|
  {
    IdAtNext(id);
    hide IdAt, Next;
    if pieces != [] {
      IssueIds(pieces[1..], Next(id));
    }
  }

  /** What can happen on the writing side: a write, the bumps and resets the rest of the connection
      makes to the shared id, the next tick, and the completion of the zlib call. */
  datatype WriteEvent = Write(buffer: Buffer) | Bump(numPackets: nat) | Reset | Tick | ZlibDone

  function IssuedBy(event: WriteEvent, id: Byte): (seq<Job>, Byte) {
    match event
    case Write(buffer) => (Issue(Pieces(buffer), id), IdPast(Pieces(buffer), id))
    case Bump(n) => ([], (id + n) % 256)
    case Reset => ([], 0)
    case _ => ([], id)
  }

  /** The jobs of a schedule in call order, with the ids current at the calls. */
  function Issued(schedule: seq<WriteEvent>, id: Byte): (seq<Job>, Byte) {
    if schedule == [] then ([], id)
    else
      var (jobs, now) := Issued(schedule[..|schedule| - 1], id);
      var (more, next) := IssuedBy(schedule[|schedule| - 1], now);
      (jobs + more, next)
  }

  /** While nothing else bumps or resets the id, the i-th frame of a schedule has the i-th id. */
  lemma {:induction false} IssuedIds(schedule: seq<WriteEvent>, id: Byte)
    requires forall e :: e in schedule ==> !e.Bump? && !e.Reset?
    ensures var (jobs, now) := Issued(schedule, id);
            (forall i :: 0 <= i < |jobs| ==> jobs[i].id == IdAt(id, i)) && now == IdAt(id, |jobs|)
  {
    hide Pieces, Issue, IdPast, IdAt;
    if schedule == [] {
      IdAtNext(id);
    } else {
      var init, last := schedule[..|schedule| - 1], schedule[|schedule| - 1];
      assert last in schedule && forall e :: e in init ==> e in schedule;
      IssuedIds(init, id);
      var (jobs, now) := Issued(init, id);
      if last.Write? {
        var more := Issue(Pieces(last.buffer), now);
        IssueIds(Pieces(last.buffer), now);
        IdsContinue(id, |jobs|);
        assert Issued(schedule, id).0 == jobs + more;
        forall i | 0 <= i < |jobs + more| ensures (jobs + more)[i].id == IdAt(id, i) {
          if i >= |jobs| {
            assert IdAt(IdAt(id, |jobs|), i - |jobs|) == IdAt(id, |jobs| + (i - |jobs|));
          }
        }
      } else {
        assert Issued(schedule, id) == (jobs + [], now) && jobs + [] == jobs;
      }
    }
  }

  lemma IdsContinue(id: Byte, n: nat)
    ensures forall i: nat :: IdAt(IdAt(id, n), i) == IdAt(id, n + i)
  {
  }

  class Deflater {
    const deflate: Buffer -> Maybe<Buffer>
    const tasks: TaskQueue<Job>
    var compressedSequenceId: Byte
    /** The frames passed to the socket so far. */
    var wire: seq<Frame>
    /** A deflate failed: writes only report errors from then on, and the step that failed never ends. */
    var failed: bool
    ghost var issued: seq<Job>

    /** The frames on the wire are those of the oldest calls, in call order; the queue holds the rest,
        unless a deflate has failed. */
    ghost predicate Valid()
      reads this, tasks
    {
      && tasks.Valid()
      && |wire| <= |issued| && (!failed ==> tasks.Waiting() == issued[|wire|..])
      && (forall i :: 0 <= i < |wire| ==> Carries(deflate, wire[i], issued[i]))
      && (forall j :: j in issued ==> |j.buffer| <= MAX_COMPRESSED_LENGTH)
      && (failed ==> exists j :: j in issued && deflate(j.buffer).Nothing?)
    }

    constructor (deflate: Buffer -> Maybe<Buffer>)
      ensures Valid() && fresh(tasks) && this.deflate == deflate
      ensures compressedSequenceId == 0 && issued == [] && !failed
    {
      this.deflate := deflate;
      tasks := new TaskQueue();
      compressedSequenceId, wire, issued, failed := 0, [], [], false;
    }

    method WriteCompressed(buffer: Buffer)
      requires Valid() && !failed
      modifies this, tasks
      ensures Valid()
      ensures issued == old(issued + Issue(Pieces(buffer), compressedSequenceId))
      ensures compressedSequenceId == old(IdPast(Pieces(buffer), compressedSequenceId))
      decreases |buffer|
    {
      if |buffer| > MAX_COMPRESSED_LENGTH {
        WritePieces(buffer);
      } else {
        WriteWhole(buffer);
        assert Issue([buffer], old(compressedSequenceId)) == [Job(old(compressedSequenceId), buffer)] + [];
        assert IdPast([buffer], old(compressedSequenceId)) == Next(old(compressedSequenceId));
      }
    }

    /** The first piece is queued, and so are those after it. */
    method WritePieces(buffer: Buffer)
      requires Valid() && !failed && |buffer| > MAX_COMPRESSED_LENGTH
      modifies this, tasks
      ensures Valid() && !failed
      ensures issued == old(issued + Issue(Pieces(buffer), compressedSequenceId))
      ensures compressedSequenceId == old(IdPast(Pieces(buffer), compressedSequenceId))
    {
      hide Carries, Pieces, Issue, IdPast;
      var start := 0;
      ghost var todo := Pieces(buffer);
      assert buffer[start..] == buffer;
      while start < |buffer|
        invariant 0 <= start && Valid() && !failed && (start == 0 || tasks.running)
        invariant todo == if start < |buffer| then Pieces(buffer[start..]) else []
        invariant issued + Issue(todo, compressedSequenceId) ==
                  old(issued + Issue(Pieces(buffer), compressedSequenceId))
        invariant IdPast(todo, compressedSequenceId) == old(IdPast(Pieces(buffer), compressedSequenceId))
      {
        NextPiece(buffer, start, todo, issued, compressedSequenceId);
        WriteWhole(buffer[start..Min(start + MAX_COMPRESSED_LENGTH, |buffer|)]);
        todo := todo[1..];
        start := start + MAX_COMPRESSED_LENGTH;
      }
      NoMorePieces(compressedSequenceId);
      assert issued + [] == issued;
    }

    /** A write that fits one compressed frame. */
    method WriteWhole(buffer: Buffer)
      requires Valid() && !failed && |buffer| <= MAX_COMPRESSED_LENGTH
      modifies this, tasks
      ensures Valid() && issued == old(issued) + [Job(old(compressedSequenceId), buffer)]
      ensures compressedSequenceId == Next(old(compressedSequenceId))
      ensures tasks.running <==> old(tasks.running) || |buffer| > 4096
      ensures failed ==> deflate(buffer).Nothing? && !tasks.running
      ensures !old(tasks.running) && |buffer| < 50 ==>
                !failed && wire == old(wire) + [Frame(old(compressedSequenceId), [0, 0, 0], buffer)]
    {
      hide Carries;
      var seqId := compressedSequenceId;
      compressedSequenceId := Next(compressedSequenceId);
      if !tasks.running && |buffer| <= MAX_SYNC_DEFLATE_LENGTH {
        WriteInline(seqId, buffer);
      } else {
        WriteQueued(seqId, buffer);
      }
    }

    /** A short write while the queue is not running: stored, or deflated at once. */
    method WriteInline(seqId: Byte, buffer: Buffer)
      requires Valid() && !failed && !tasks.running && |buffer| <= MAX_SYNC_DEFLATE_LENGTH
      modifies this`issued, this`wire, this`failed
      ensures Valid() && issued == old(issued) + [Job(seqId, buffer)]
      ensures failed ==> deflate(buffer).Nothing?
      ensures |buffer| < 50 ==> !failed && wire == old(wire) + [Frame(seqId, [0, 0, 0], buffer)]
    {
      hide Carries;
      ghost var was := issued;
      var packetLen := |buffer|;
      issued := issued + [Job(seqId, buffer)];
      var compressed := Nothing;
      if packetLen >= MIN_COMPRESS_LENGTH {
        compressed := deflate(buffer);
        if compressed.Nothing? {
          assert issued[|was|] == Job(seqId, buffer);
          failed := true;
          return;
        }
      }
      var shorter := compressed.Just? && |compressed.value| < packetLen;
      WriteCompressedFrame(seqId, packetLen, buffer, if shorter then compressed else Nothing);
    }

    /** A write that waits for its turn. */
    method WriteQueued(seqId: Byte, buffer: Buffer)
      requires Valid() && !failed && |buffer| <= MAX_COMPRESSED_LENGTH
      modifies this`issued, tasks
      ensures Valid() && issued == old(issued) + [Job(seqId, buffer)] && tasks.running
    {
      hide Carries;
      ghost var was := issued;
      issued := issued + [Job(seqId, buffer)];
      tasks.Push(Job(seqId, buffer));
      assert issued[|wire|..] == was[|wire|..] + [Job(seqId, buffer)];
    }

    /** Sends the frame of the oldest call that is not on the wire yet. */
    method WriteCompressedFrame(seqId: Byte, packetLen: nat, buffer: Buffer, compressed: Maybe<Buffer>)
      requires packetLen == |buffer| <= MAX_COMPRESSED_LENGTH
      requires compressed.Just? ==> compressed == deflate(buffer) && |compressed.value| < packetLen
      requires compressed.Nothing? ==> packetLen < 50 || !Shrinks(deflate, buffer)
      requires |wire| < |issued| && issued[|wire|] == Job(seqId, buffer)
      requires forall i :: 0 <= i < |wire| ==> Carries(deflate, wire[i], issued[i])
      modifies this`wire
      ensures |wire| == |old(wire)| + 1 && old(wire) <= wire
      ensures compressed.Nothing? ==> wire == old(wire) + [Frame(seqId, [0, 0, 0], buffer)]
      ensures forall i :: 0 <= i < |wire| ==> Carries(deflate, wire[i], issued[i])
    {
      var uncompressedLength := if compressed.Nothing? then 0 else packetLen;
      var frame := Frame(seqId, Le(uncompressedLength, 3), if compressed.Nothing? then buffer else compressed.value);
      LengthBytes(0);
      wire := wire + [frame];
    }

    /** The next tick, when the queue asked for one. */
    method OnTick()
      requires Valid()
      modifies tasks
      ensures Valid() && (old(tasks.phase.NextScheduled?) ==> !tasks.phase.NextScheduled?)
      ensures old(tasks.phase.NextScheduled?) && tasks.phase.Active? ==> |tasks.Waiting()| == |old(tasks.Waiting())|
      ensures !old(tasks.phase.NextScheduled?) ==> tasks.phase == old(tasks.phase)
    {
      if tasks.phase.NextScheduled? {
        tasks.Next();
      }
    }

    /** The asynchronous deflate call completes: it sends the oldest frame, or it fails. */
    method OnDeflated()
      requires Valid()
      modifies this, tasks
      ensures Valid() && issued == old(issued) && compressedSequenceId == old(compressedSequenceId)
      ensures old(tasks.phase.Active?) && !failed ==>
              tasks.phase.NextScheduled? && |tasks.Waiting()| < |old(tasks.Waiting())|
      ensures !old(tasks.phase.Active?) || failed ==> tasks.phase == old(tasks.phase) && wire == old(wire)
      ensures failed <==> old(failed) || (old(tasks.phase.Active?) && deflate(old(tasks.phase.task).buffer).Nothing?)
    {
      hide Carries;
      if tasks.phase.Active? && !failed {
        var job := tasks.phase.task;
        assert job == tasks.Waiting()[0];
        assert job in issued;
        var packetLen, compressed := |job.buffer|, deflate(job.buffer);
        if compressed.Nothing? {
          failed := true;
          return;
        }
        var shorter := |compressed.value| < packetLen;
        WriteCompressedFrame(job.id, packetLen, job.buffer, if shorter then compressed else Nothing);
        tasks.Done();
        assert tasks.Waiting() == issued[|wire| - 1..][1..];
      }
    }

    method Perform(event: WriteEvent)
      requires Valid()
      modifies this, tasks
      ensures Valid() && (old(failed) ==> failed && issued == old(issued) && wire == old(wire))
      ensures var (more, next) := IssuedBy(event, old(compressedSequenceId));
              !old(failed) ==> issued == old(issued) + more && compressedSequenceId == next
    {
      hide Carries, Issue, IdPast, Pieces;
      match event {
        case Write(buffer) =>
          if !failed {
            WriteCompressed(buffer);
          }
        case Bump(n) => compressedSequenceId := (compressedSequenceId + n) % 256;
        case Reset => compressedSequenceId := 0;
        case Tick => OnTick();
        case ZlibDone => OnDeflated();
      }
    }

    /** Order over all interleavings: under any schedule the wire carries the jobs in call order, up to a
        deflate that fails. */
    method Run(schedule: seq<WriteEvent>)
      requires Valid() && issued == [] && !failed
      modifies this, tasks
      ensures Valid() && issued <= Issued(schedule, old(compressedSequenceId)).0
      ensures !failed ==> (issued, compressedSequenceId) == Issued(schedule, old(compressedSequenceId))
    {
      hide Carries, Issue, IdPast, Pieces;
      for k := 0 to |schedule|
        invariant Valid() && issued <= Issued(schedule[..k], old(compressedSequenceId)).0
        invariant !failed ==> (issued, compressedSequenceId) == Issued(schedule[..k], old(compressedSequenceId))
      {
        assert schedule[..k + 1][..k] == schedule[..k];
        Perform(schedule[k]);
      }
      assert schedule[..|schedule|] == schedule;
    }

    /** Once writes stop, ticks and completions bring every frame onto the wire, unless a deflate fails. */
    method Drain()
      requires Valid()
      modifies this, tasks
      ensures Valid() && issued == old(issued)
      ensures !failed ==> !tasks.running && |wire| == |issued|
    {
      hide Carries;
      while tasks.running && !failed
        invariant Valid() && issued == old(issued)
        decreases !failed, |tasks.Waiting()|, tasks.phase.NextScheduled?, tasks.running
      {
        if tasks.phase.NextScheduled? {
          OnTick();
        } else {
          OnDeflated();
        }
      }
    }
  }

  lemma NextPiece(buffer: Buffer, start: nat, todo: seq<Buffer>, issued: seq<Job>, id: Byte)
    requires start < |buffer| && todo == Pieces(buffer[start..])
    ensures todo != [] && todo[0] == buffer[start..Min(start + MAX_COMPRESSED_LENGTH, |buffer|)]
    ensures todo[1..] ==
            if start + MAX_COMPRESSED_LENGTH < |buffer| then Pieces(buffer[start + MAX_COMPRESSED_LENGTH..]) else []
    ensures |todo[0]| <= MAX_COMPRESSED_LENGTH
    ensures issued + Issue(todo, id) == issued + [Job(id, todo[0])] + Issue(todo[1..], Next(id))
    ensures IdPast(todo, id) == IdPast(todo[1..], Next(id))
  {
    var rest := buffer[start..];
    if |rest| > MAX_COMPRESSED_LENGTH {
      assert rest[MAX_COMPRESSED_LENGTH..] == buffer[start + MAX_COMPRESSED_LENGTH..];
    }
  }

  lemma NoMorePieces(id: Byte)
    ensures Issue([], id) == [] && IdPast([], id) == id
  {
  }

  // ---------------------------------------------------------------- reading

  /** The bytes a compressed packet stands for, when inflating them succeeds. */
  function Data(inflate: (Buffer, nat) -> Maybe<Buffer>, packet: Packet): Maybe<Buffer>
    requires |packet.content| >= 3
  {
    var deflatedLength, body := FromLe(packet.content[..3]), packet.content[3..];
    if deflatedLength == 0 then Just(body) else inflate(body, deflatedLength)
  }

  lemma StoredData(inflate: (Buffer, nat) -> Maybe<Buffer>, packet: Packet)
    requires |packet.content| >= 3 && FromLe(packet.content[..3]) == 0
    ensures Data(inflate, packet) == Just(packet.content[3..])
  {
  }

  /** How many frames the packets came in. */
  function FrameCount(packets: seq<Packet>): nat {
    if packets == [] then 0 else FrameCount(packets[..|packets| - 1]) + packets[|packets| - 1].numPackets
  }

  lemma FrameCountSnoc(packets: seq<Packet>, packet: Packet)
    ensures (FrameCount(packets) % 256 + packet.numPackets) % 256 == FrameCount(packets + [packet]) % 256
  {
    assert (packets + [packet])[..|packets|] == packets;
  }

  datatype ReadEvent = Arrive | ReadTick | Inflated

  class Inflater {
    const inflate: (Buffer, nat) -> Maybe<Buffer>
    const tasks: TaskQueue<Packet>
    /** The parser of the inner, uncompressed stream. */
    const inner: PacketParser
    var compressedSequenceId: Byte
    /** A network error was raised. */
    var failed: bool
    ghost var arrived: seq<Packet>
    /** The packets that arrived, but for those whose inline inflate failed. */
    ghost var kept: seq<Packet>
    ghost var delivered: nat
    /** The started task's inflate failed; its callback never calls `done`. */
    var stalled: bool

    /** The inner parser has got the data of the oldest kept packets, in arrival order; the queue
        holds the rest. */
    ghost predicate Valid()
      reads this, tasks, inner
    {
      && tasks.Valid() && inner.Valid()
      && Whole(kept) && delivered <= |kept| && tasks.Waiting() == kept[delivered..]
      && Delivers(kept[..delivered])
      && (stalled ==> tasks.phase.Active? && |tasks.phase.task.content| >= 3)
      && (stalled ==> Data(inflate, tasks.phase.task).Nothing?)
      && (Inflates(inflate, arrived) ==> kept == arrived && !failed && !stalled)
    }

    /** The packet was counted as arrived, and nothing is queued before it. */
    ghost predicate InlineIsInOrder(packet: Packet)
      reads this, tasks, inner
    {
      && tasks.Valid() && !tasks.running && inner.Valid() && !stalled
      && |packet.content| >= 3 && Whole(kept) && Whole(kept + [packet])
      && delivered == |kept| && Delivers(kept)
      && (Inflates(inflate, arrived) ==> kept + [packet] == arrived && !failed && Data(inflate, packet).Just?)
    }

    /** The inner parser has been given the data of these packets, one by one, and their frames are counted. */
    ghost predicate Delivers(packets: seq<Packet>)
      reads this`compressedSequenceId, inner
    {
      && Inflates(inflate, packets)
      && inner.packetHeaderLength == 4 && inner.received == HeardAll(4, [], Datas(inflate, packets))
      && compressedSequenceId == FrameCount(packets) % 256
    }

    constructor (inflate: (Buffer, nat) -> Maybe<Buffer>)
      ensures Valid() && fresh(tasks) && fresh(inner) && this.inflate == inflate
      ensures arrived == [] && !failed && inner.packetHeaderLength == 4
    {
      this.inflate := inflate;
      tasks := new TaskQueue();
      inner := new PacketParser(4);
      compressedSequenceId, failed, stalled := 0, false, false;
      arrived, kept, delivered := [], [], 0;
    }

    method BumpCompressedSequenceId(numPackets: nat)
      modifies this`compressedSequenceId
      ensures compressedSequenceId == (old(compressedSequenceId) + numPackets) % 256
    {
      compressedSequenceId := (compressedSequenceId + numPackets) % 256;
    }

    /** Hands the data of the oldest undelivered packet to the inner parser. */
    method Deliver(packet: Packet, data: Buffer)
      requires inner.Valid() && delivered < |kept| && kept[delivered] == packet && |packet.content| >= 3
      requires Data(inflate, packet) == Just(data) && Delivers(kept[..delivered])
      modifies this`compressedSequenceId, this`delivered, inner
      ensures inner.Valid() && delivered == old(delivered) + 1 && Delivers(kept[..delivered])
    {
      hide Data, Heard, HeardAll, Datas, Inflates, PacketParser.Valid, FrameCount;
      BumpCompressedSequenceId(packet.numPackets);
      DatasSnoc(inflate, kept[..delivered], packet);
      HeardSnoc(Datas(inflate, kept[..delivered]), data);
      FrameCountSnoc(kept[..delivered], packet);
      assert kept[..delivered + 1] == kept[..delivered] + [packet];
      inner.Execute(data);
      delivered := delivered + 1;
    }

    method HandleCompressedPacket(packet: Packet)
      requires Valid() && |packet.content| >= 3
      modifies this, tasks, inner
      ensures Valid() && arrived == old(arrived) + [packet]
      ensures tasks.running <==> old(tasks.running) || FromLe(packet.content[..3]) > 16384
    {
      hide FromLe, Delivers, Data, Inflates, Whole, PacketParser.Valid;
      var deflatedLength, body := FromLe(packet.content[..3]), packet.content[3..];
      InflatesSnoc(inflate, arrived, packet);
      WholeSnoc(kept, packet);
      if !tasks.running && deflatedLength <= MAX_SYNC_INFLATE_LENGTH {
        assert kept[..delivered] == kept;
        arrived := arrived + [packet];
        HandleInline(packet, deflatedLength, body);
      } else {
        Enqueue(packet);
      }
    }

    method Enqueue(packet: Packet)
      requires Valid() && |packet.content| >= 3
      modifies this`arrived, this`kept, tasks
      ensures Valid() && arrived == old(arrived) + [packet] && tasks.running
    {
      hide FromLe, Delivers, Data, Inflates, Whole, PacketParser.Valid;
      InflatesSnoc(inflate, arrived, packet);
      WholeSnoc(kept, packet);
      arrived, kept := arrived + [packet], kept + [packet];
      assert kept[..delivered] == old(kept)[..delivered];
      assert kept[delivered..] == old(kept)[delivered..] + [packet];
      tasks.Push(packet);
    }

    /** Nothing is queued, so this packet's data are the next for the inner parser. */
    method HandleInline(packet: Packet, deflatedLength: nat, body: Buffer)
      requires InlineIsInOrder(packet) && deflatedLength == FromLe(packet.content[..3]) && body == packet.content[3..]
      modifies this`failed, this`kept, this`delivered, this`compressedSequenceId, inner
      ensures Valid()
    {
      hide FromLe, Delivers, Data, Inflates, Whole, PacketParser.Valid;
      if deflatedLength == 0 {
        StoredData(inflate, packet);
        DeliverInline(packet, body);
      } else {
        DeflatedData(inflate, packet);
        var data := inflate(body, deflatedLength);
        if data.Nothing? {
          DropInline(packet);
        } else {
          DeliverInline(packet, data.value);
        }
      }
    }

    method DropInline(packet: Packet)
      requires InlineIsInOrder(packet) && Data(inflate, packet).Nothing?
      modifies this`failed
      ensures Valid()
    {
      hide Delivers, Data, Inflates, Whole, PacketParser.Valid;
      assert kept[..delivered] == kept;
      failed := true;
    }

    method DeliverInline(packet: Packet, data: Buffer)
      requires InlineIsInOrder(packet) && Data(inflate, packet) == Just(data)
      modifies this`kept, this`delivered, this`compressedSequenceId, inner
      ensures Valid()
    {
      hide Delivers, Data, Inflates, Whole, PacketParser.Valid;
      kept := kept + [packet];
      assert kept[..delivered] == old(kept);
      Deliver(packet, data);
      assert kept[delivered..] == [];
    }

    method OnTick()
      requires Valid()
      modifies tasks
      ensures Valid() && |tasks.Waiting()| == |old(tasks.Waiting())|
      ensures if old(tasks.phase.NextScheduled?) then !tasks.phase.NextScheduled? else tasks.phase == old(tasks.phase)
    {
      hide Data, Delivers, Inflates;
      if tasks.phase.NextScheduled? {
        tasks.Next();
      }
    }

    /** The started task's callback. */
    method OnInflated()
      requires Valid()
      modifies this, tasks, inner
      ensures Valid() && arrived == old(arrived)
      ensures old(tasks.phase.Active?) && !stalled ==> |tasks.Waiting()| < |old(tasks.Waiting())|
    {
      hide FromLe, Delivers, Data, Inflates, Whole, PacketParser.Valid;
      if tasks.phase.Active? && !stalled {
        var packet := tasks.phase.task;
        NextKept(packet);
        var deflatedLength, body := FromLe(packet.content[..3]), packet.content[3..];
        if deflatedLength != 0 {
          DeflatedData(inflate, packet);
          var data := inflate(body, deflatedLength);
          if data.Nothing? {
            FailureRefutes(inflate, kept, packet);
            failed, stalled := true, true;
            return;
          }
          Deliver(packet, data.value);
        } else {
          StoredData(inflate, packet);
          Deliver(packet, body);
        }
        tasks.Done();
        assert tasks.Waiting() == kept[delivered - 1..][1..];
      }
    }

    lemma NextKept(packet: Packet)
      requires Valid() && tasks.phase == Active(packet)
      ensures delivered < |kept| && packet == kept[delivered] && packet in kept
      ensures |packet.content| >= 3
    {
      hide Data, Delivers, Inflates;
      assert packet == tasks.Waiting()[0];
    }

    /** Packets arrive in order, in any interleaving with ticks and completions; then the queue empties. */
    method Run(packets: seq<Packet>, schedule: seq<ReadEvent>)
      requires Valid() && arrived == [] && Whole(packets)
      requires Inflates(inflate, packets)
      modifies this, tasks, inner
      ensures Valid() && !failed && inner.packetHeaderLength == 4
              && inner.received == HeardAll(4, [], Datas(inflate, packets))
              && compressedSequenceId == FrameCount(packets) % 256
    {
      hide Data, Datas, Delivers, Inflates, Whole, Heard;
      var next := 0;
      for k := 0 to |schedule|
        invariant Valid() && 0 <= next <= |packets| && arrived == packets[..next]
      {
        match schedule[k] {
          case Arrive =>
            if next < |packets| {
              next := ArriveNext(packets, next);
            }
          case ReadTick => OnTick();
          case Inflated => OnInflated();
        }
      }
      while next < |packets|
        invariant Valid() && 0 <= next <= |packets| && arrived == packets[..next]
      {
        next := ArriveNext(packets, next);
      }
      assert arrived == packets;
      Settle(packets);
      AllDelivered();
    }

    /** Ticks and completions until the queue stops. */
    method Settle(packets: seq<Packet>)
      requires Valid() && arrived == packets && Inflates(inflate, packets)
      modifies this, tasks, inner
      ensures Valid() && arrived == packets && !tasks.running
    {
      hide Data, Datas, Delivers, Inflates, Whole, Heard;
      while tasks.running
        invariant Valid() && arrived == packets
        decreases |tasks.Waiting()|, tasks.phase.NextScheduled?, tasks.running
      {
        if tasks.phase.NextScheduled? {
          OnTick();
        } else {
          OnInflated();
        }
      }
    }

    method ArriveNext(packets: seq<Packet>, next: nat) returns (after: nat)
      requires Valid() && Whole(packets) && next < |packets| && arrived == packets[..next]
      modifies this, tasks, inner
      ensures Valid() && after == next + 1 && arrived == packets[..after]
    {
      hide Delivers, Inflates;
      HandleCompressedPacket(packets[next]);
      after := next + 1;
    }

    ghost method AllDelivered()
      requires Valid() && !tasks.running && Inflates(inflate, arrived)
      ensures inner.packetHeaderLength == 4 && inner.received == HeardAll(4, [], Datas(inflate, arrived))
      ensures compressedSequenceId == FrameCount(arrived) % 256
    {
      hide Data, Datas, Heard, FrameCount;
      assert kept[..delivered] == kept;
    }
  }

  /** Every packet carries the three bytes of the uncompressed length. */
  predicate Whole(packets: seq<Packet>) {
    forall p :: p in packets ==> |p.content| >= 3
  }

  predicate Inflates(inflate: (Buffer, nat) -> Maybe<Buffer>, packets: seq<Packet>) {
    Whole(packets) && forall p :: p in packets ==> Data(inflate, p).Just?
  }

  lemma WholeSnoc(packets: seq<Packet>, packet: Packet)
    requires Whole(packets) && |packet.content| >= 3
    ensures Whole(packets + [packet]) && |packet.content| >= 3
  {
  }

  lemma InflatesSnoc(inflate: (Buffer, nat) -> Maybe<Buffer>, packets: seq<Packet>, packet: Packet)
    requires |packet.content| >= 3
    ensures Inflates(inflate, packets + [packet]) <==> Inflates(inflate, packets) && Data(inflate, packet).Just?
  {
    hide Data;
    assert packet in packets + [packet];
    if Inflates(inflate, packets + [packet]) {
      assert forall p :: p in packets ==> p in packets + [packet];
    }
  }

  lemma FailureRefutes(inflate: (Buffer, nat) -> Maybe<Buffer>, packets: seq<Packet>, packet: Packet)
    requires packet in packets && |packet.content| >= 3 && Data(inflate, packet).Nothing?
    ensures !Inflates(inflate, packets)
  {
  }

  lemma DeflatedData(inflate: (Buffer, nat) -> Maybe<Buffer>, packet: Packet)
    requires |packet.content| >= 3
    ensures |packet.content| >= 3
    ensures FromLe(packet.content[..3]) > 0 ==>
            Data(inflate, packet) == inflate(packet.content[3..], FromLe(packet.content[..3]))
  {
  }

  /** The data of the packets, one by one. */
  function Datas(inflate: (Buffer, nat) -> Maybe<Buffer>, packets: seq<Packet>): seq<Buffer>
    requires Inflates(inflate, packets)
  {
    if packets == [] then []
    else Datas(inflate, packets[..|packets| - 1]) + [Data(inflate, packets[|packets| - 1]).value]
  }

  lemma DatasSnoc(inflate: (Buffer, nat) -> Maybe<Buffer>, packets: seq<Packet>, packet: Packet)
    requires Inflates(inflate, packets) && |packet.content| >= 3 && Data(inflate, packet).Just?
    ensures Inflates(inflate, packets + [packet])
    ensures Datas(inflate, packets + [packet]) == Datas(inflate, packets) + [Data(inflate, packet).value]
  {
    hide Data;
    InflatesSnoc(inflate, packets, packet);
    assert (packets + [packet])[..|packets|] == packets;
  }

  lemma HeardSnoc(chunks: seq<Buffer>, chunk: Buffer)
    ensures HeardAll(4, [], chunks + [chunk]) == Heard(4, HeardAll(4, [], chunks), chunk)
  {
    hide Heard;
    assert (chunks + [chunk])[..|chunks|] == chunks;
  }

  // ---------------------------------------------------------------- round trip

  /** The one assumption about zlib, which may be told the length to expect. */
  ghost predicate Undoes(inflate: (Buffer, nat) -> Maybe<Buffer>, deflate: Buffer -> Maybe<Buffer>) {
    forall b :: deflate(b).Just? ==> inflate(deflate(b).value, |b|) == Just(b)
  }

  ghost predicate NeverFails(deflate: Buffer -> Maybe<Buffer>) {
    forall b :: deflate(b).Just?
  }

  /** A frame on the wire: its lengths fit their 24 bits, the stored marker 0 appears only on stored
      bytes, and its data are the bytes of its job. */
  lemma CarriedData(deflate: Buffer -> Maybe<Buffer>, inflate: (Buffer, nat) -> Maybe<Buffer>, frame: Frame, job: Job)
    requires Carries(deflate, frame, job) && Undoes(inflate, deflate)
    ensures Writable(7, frame) && Short(frame) && |frame.extra| == 3
    ensures FromLe(frame.extra) == 0 ==> frame.payload == job.buffer
    ensures FromLe(frame.extra) in {0, |job.buffer|}
    ensures Data(inflate, Packet(frame.id, 1, frame.extra + frame.payload)) == Just(job.buffer)
  {
    assert Pow256(3) == 16777216;
    LeRoundTrip(0, 3);
    LeRoundTrip(|job.buffer|, 3);
    hide Le, FromLe;
    var content := frame.extra + frame.payload;
    assert content[..3] == frame.extra && content[3..] == frame.payload;
  }

  function JobBuffers(jobs: seq<Job>): seq<Buffer> {
    if jobs == [] then [] else JobBuffers(jobs[..|jobs| - 1]) + [jobs[|jobs| - 1].buffer]
  }

  lemma {:induction false} JobBuffersAppend(a: seq<Job>, b: seq<Job>)
    ensures JobBuffers(a + b) == JobBuffers(a) + JobBuffers(b)
    decreases |b|
  {
    if b == [] {
      assert a + b == a && JobBuffers(a) + [] == JobBuffers(a);
    } else {
      JobBuffersAppend(a, b[..|b| - 1]);
      assert (a + b)[..|a + b| - 1] == a + b[..|b| - 1];
    }
  }

  lemma {:induction false} IssueBuffers(pieces: seq<Buffer>, id: Byte)
    ensures JobBuffers(Issue(pieces, id)) == pieces
    decreases |pieces|
  {
    if pieces != [] {
      var first := Job(id, pieces[0]);
      IssueBuffers(pieces[1..], Next(id));
      JobBuffersAppend([first], Issue(pieces[1..], Next(id)));
      assert [first][..0] == [] && JobBuffers([first]) == [pieces[0]];
    }
  }

  /** The buffers a schedule writes, in call order. */
  function WritesOf(schedule: seq<WriteEvent>): seq<Buffer> {
    if schedule == [] then []
    else
      var last := schedule[|schedule| - 1];
      WritesOf(schedule[..|schedule| - 1]) + if last.Write? then [last.buffer] else []
  }

  /** The pieces of all of them. */
  function AllPieces(writes: seq<Buffer>): seq<Buffer> {
    if writes == [] then [] else AllPieces(writes[..|writes| - 1]) + Pieces(writes[|writes| - 1])
  }

  lemma {:induction false} IssuedBuffers(schedule: seq<WriteEvent>, id: Byte)
    ensures JobBuffers(Issued(schedule, id).0) == AllPieces(WritesOf(schedule))
  {
    hide Pieces, Issue, IdPast;
    if schedule != [] {
      var init, last := schedule[..|schedule| - 1], schedule[|schedule| - 1];
      IssuedBuffers(init, id);
      if last.Write? {
        var (jobs, now) := Issued(init, id);
        IssueBuffers(Pieces(last.buffer), now);
        JobBuffersAppend(jobs, Issue(Pieces(last.buffer), now));
        assert WritesOf(schedule)[..|WritesOf(schedule)| - 1] == WritesOf(init);
      } else {
        assert WritesOf(init) + [] == WritesOf(init);
        assert Issued(schedule, id).0 == Issued(init, id).0;
      }
    }
  }

  lemma {:induction false} AllPiecesConcat(writes: seq<Buffer>)
    ensures Concat(AllPieces(writes)) == Concat(writes)
  {
    hide Pieces;
    if writes != [] {
      var init, last := writes[..|writes| - 1], writes[|writes| - 1];
      AllPiecesConcat(init);
      PiecesConcat(last);
      ConcatAppend(AllPieces(init), Pieces(last));
      ConcatSnoc(init, last);
      assert writes == init + [last];
    }
  }

  /** Cutting writes into pieces makes no empty chunk that was not a write. */
  lemma {:induction false} AllPiecesHarmless(writes: seq<Buffer>)
    requires Harmless(4, [], writes)
    ensures Harmless(4, [], AllPieces(writes))
  {
    hide Harmless, Pieces, InsideLength;
    if writes == [] {
      NothingHarmless(4, []);
    } else {
      var init, last := writes[..|writes| - 1], writes[|writes| - 1];
      assert writes == init + [last];
      HarmlessSnoc(4, [], init, last);
      AllPiecesHarmless(init);
      AllPiecesConcat(init);
      HarmlessAppend(4, [], AllPieces(init), Pieces(last));
      LastPieces([] + Concat(init), last);
    }
  }

  lemma LastPieces(sent: Buffer, last: Buffer)
    requires !(last == [] && InsideLength(4, sent))
    ensures Harmless(4, sent, Pieces(last))
  {
    hide InsideLength;
    PiecesConcat(last);
    if last == [] {
      assert Pieces(last) == [[]] && Concat(Pieces(last)[..0]) == [];
      assert sent + [] == sent;
    } else {
      assert forall i :: 0 <= i < |Pieces(last)| ==> Pieces(last)[i] in Pieces(last);
    }
  }

  /** Frames that carry jobs, seen through the 7-byte parser and inflated, give back the jobs' buffers. */
  lemma {:induction false} WireStream(deflate: Buffer -> Maybe<Buffer>, inflate: (Buffer, nat) -> Maybe<Buffer>,
                                      wire: seq<Frame>, jobs: seq<Job>)
    requires |wire| == |jobs| && Undoes(inflate, deflate)
    requires forall i :: 0 <= i < |wire| ==> Carries(deflate, wire[i], jobs[i])
    ensures forall f :: f in wire ==> Writable(7, f)
    ensures Open(wire) == [] && Inflates(inflate, Packets(wire))
    ensures Datas(inflate, Packets(wire)) == JobBuffers(jobs)
  {
    hide Carries, Undoes, Packets, Open, Datas, JobBuffers, Inflates, Writable;
    if wire == [] {
      NothingOnWire(inflate);
    } else {
      var n := |wire| - 1;
      WireStream(deflate, inflate, wire[..n], jobs[..n]);
      OneMoreFrame(deflate, inflate, wire[..n], wire[n], jobs[..n], jobs[n]);
      assert wire == wire[..n] + [wire[n]] && jobs == jobs[..n] + [jobs[n]];
    }
  }

  lemma OneMoreFrame(deflate: Buffer -> Maybe<Buffer>, inflate: (Buffer, nat) -> Maybe<Buffer>,
                     wire: seq<Frame>, frame: Frame, jobs: seq<Job>, job: Job)
    requires Carries(deflate, frame, job) && Undoes(inflate, deflate)
    requires Open(wire) == [] && Inflates(inflate, Packets(wire)) && Datas(inflate, Packets(wire)) == JobBuffers(jobs)
    ensures Writable(7, frame)
    ensures Open(wire + [frame]) == [] && Inflates(inflate, Packets(wire + [frame]))
    ensures Datas(inflate, Packets(wire + [frame])) == JobBuffers(jobs + [job])
  {
    hide Carries, Data, Undoes, Packets, Open, Body, Joined, Datas, JobBuffers, Inflates, Writable, Short;
    CarriedData(deflate, inflate, frame, job);
    PacketsSnoc(wire, frame);
    assert [] + [frame] == [frame];
    JoinedAlone(frame);
    JobBuffersAppend(jobs, [job]);
    OneJob(job);
    DatasSnoc(inflate, Packets(wire), Packet(frame.id, 1, frame.extra + frame.payload));
  }

  lemma NothingOnWire(inflate: (Buffer, nat) -> Maybe<Buffer>)
    ensures Packets([]) == [] && Open([]) == [] && JobBuffers([]) == [] && Inflates(inflate, [])
    ensures Datas(inflate, []) == []
  {
  }

  lemma OneJob(job: Job)
    ensures JobBuffers([job]) == [job.buffer]
  {
    assert [job][..0] == [] && JobBuffers([]) == [];
  }

  /** Everything a schedule of writes puts on the wire, once the queue has emptied. */
  method Send(deflate: Buffer -> Maybe<Buffer>, ghost inflate: (Buffer, nat) -> Maybe<Buffer>, writing: seq<WriteEvent>)
    returns (wire: seq<Frame>)
    requires Undoes(inflate, deflate) && NeverFails(deflate)
    ensures forall f :: f in wire ==> Writable(7, f)
    ensures Inflates(inflate, Packets(wire)) && Datas(inflate, Packets(wire)) == AllPieces(WritesOf(writing))
  {
    hide Undoes, Datas, Data, WritesOf, Issued, JobBuffers, Inflates, Packets, Carries, Writable;
    var writer := new Deflater(deflate);
    writer.Run(writing);
    writer.Drain();
    wire := writer.wire;
    IssuedBuffers(writing, 0);
    WireStream(deflate, inflate, wire, writer.issued);
  }

  /** Compressed round trip: whatever is written under whatever schedule, however the network cuts it and
      however the reading side is scheduled, the inner parser gets the pieces of the writes. As long as no
      empty write falls inside length bytes of the inner stream, that is the stream. */
  method RoundTrip(deflate: Buffer -> Maybe<Buffer>, inflate: (Buffer, nat) -> Maybe<Buffer>,
                   cut: Buffer -> seq<Buffer>,
                   writing: seq<WriteEvent>, reading: seq<ReadEvent>)
    returns (packets: seq<Packet>)
    requires Undoes(inflate, deflate) && NeverFails(deflate)
    requires forall b :: Concat(cut(b)) == b && Harmless(7, [], cut(b))
    ensures packets == StreamPackets(4, HeardAll(4, [], AllPieces(WritesOf(writing))))
    ensures Harmless(4, [], WritesOf(writing)) ==> packets == StreamPackets(4, Concat(WritesOf(writing)))
  {
    hide Undoes, NeverFails, Datas, Data, WritesOf, Whole, Packets, Frames, Serialize, Writable, Harmless, HeardAll;
    var wire := Send(deflate, inflate, writing);
    SerializeRoundTrip(7, wire);
    var bytes := Serialize(wire);
    var outer := ParseCompressed(cut(bytes));
    var reader := new Inflater(inflate);
    reader.Run(outer, reading);
    packets := reader.inner.emitted;
    Emitted(reader.inner);
    ghost var writes := WritesOf(writing);
    if Harmless(4, [], writes) {
      AllPiecesHarmless(writes);
      HeardExactly(4, [], AllPieces(writes));
      AllPiecesConcat(writes);
      assert [] + Concat(writes) == Concat(writes);
    }
  }

  method ParseCompressed(chunks: seq<Buffer>) returns (packets: seq<Packet>)
    requires Harmless(7, [], chunks)
    ensures packets == StreamPackets(7, Concat(chunks))
  {
    hide Harmless;
    var outer := new PacketParser(7);
    outer.ExecuteAll(chunks);
    HeardExactly(7, [], chunks);
    assert [] + Concat(chunks) == Concat(chunks);
    packets := outer.emitted;
  }

  lemma Emitted(parser: PacketParser)
    requires parser.Valid()
    ensures parser.emitted == StreamPackets(parser.packetHeaderLength, parser.received)
  {
  }

  /** The whole path: payloads through `writePacket`, the compressed protocol under any schedule, a network
      that cuts the bytes anywhere, and both parsers. They come out as they went in, with an empty packet
      after each payload that does not fit its frames. */
  method TransmitCompressed(deflate: Buffer -> Maybe<Buffer>, inflate: (Buffer, nat) -> Maybe<Buffer>,
                            cut: Buffer -> seq<Buffer>,
                            payloads: seq<Buffer>, writing: seq<WriteEvent>, reading: seq<ReadEvent>)
    returns (packets: seq<Packet>)
    requires Undoes(inflate, deflate) && NeverFails(deflate)
    requires forall b :: Concat(cut(b)) == b && Harmless(7, [], cut(b))
    requires WritesOf(writing) == AllWrites(payloads, 0)
    ensures packets == Expected(payloads, 0)
  {
    hide Undoes, NeverFails, WritesOf, Harmless, AllWrites, AllWritten, Expected, Serialize, HeardAll, Frames, Writable;
    var writer := new PacketWriter();
    WriteAll(writer, payloads);
    assert writer.writes == WritesOf(writing);
    NothingReceived();
    AllWritesHarmless([], payloads, 0);
    packets := RoundTrip(deflate, inflate, cut, writing, reading);
    AllWritesConcat(payloads, 0);
    AllWrittenPackets(payloads, 0);
    SerializeRoundTrip(4, AllWritten(payloads, 0));
  }

  lemma NothingReceived()
    ensures Frames(4, []) == ([], [])
  {
  }
}
