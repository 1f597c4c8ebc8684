/** The DMA streamer of axi_adc.c: one reader thread serving two channels, one sender thread per
    channel, the DMA engine that fills each channel's ring, and the trigger, as one interleaved
    transition system. A step is one access to shared state: a critical section on `readEnd`, one
    byte written by the DMA engine, one byte copied by the reader, one byte taken by a sender. */
module AxiStreaming {
  import opened CircularBuffer

  const TWO_TO_THE_32 := 0x1_0000_0000

  /** The configuration constants; lengths in samples (two bytes each), block and ring sizes in bytes. */
  datatype Config = Config(acquisition: nat, preTrigger: nat, margin: nat, readBlock: nat, sendBlock: nat,
                           ringSize: nat) {
    function Total(): nat { 2 * acquisition }

    function Pre(): nat { 2 * preTrigger }

    /** Bytes the DMA engine still writes after the trigger. */
    function Post(): int { 2 * (acquisition - preTrigger + margin) }

    ghost predicate Valid() {
      && 0 < acquisition && preTrigger <= acquisition
      && 0 < readBlock && 0 < sendBlock
      && Total() + 2 * margin < ringSize < TWO_TO_THE_32
      && Total() + readBlock < TWO_TO_THE_32
    }
  }

  const SHIPPED := Config(200000, 40000, 64, 16384, 17752, 0x0100_0000)

  datatype Option<+T> = None | Some(value: T)

  datatype ChannelId = A | B

  /** One channel's ring. `stream` is the ring content at arming, oldest byte first, followed by every
      byte written since; `trigger` is a position in it. `recordings` holds, for each arming, what was
      recorded from preTrigger samples before the trigger on. */
  datatype Dma = Dma(ring: seq<Byte>, base: nat, stream: seq<Byte>, trigger: Option<nat>,
                     recordings: seq<seq<Byte>>)

  /** What the reader is doing for one channel within a pass of its inner loop. */
  datatype Stage = Idle | GotEnd | GotCurr | Copying(copied: nat) | Copied

  /** The reader's locals for one channel; `currAbs` is the stream position `currPos` was read at. */
  datatype Reader = Reader(first: bool, ready: bool, startPos: int, currPos: int, readPos: nat, stage: Stage,
                           currAbs: nat)

  datatype Queue = Queue(readEnd: nat, buf: seq<Byte>)

  datatype SenderPc = AtLock | Sending(staged: seq<Byte>) | SenderExited

  /** `sent` is what was transmitted since the last reset of `readEnd`, `wire` what was before each. */
  datatype Sender = Sender(pc: SenderPc, sendPos: nat, length: nat, wire: seq<seq<Byte>>, sent: seq<Byte>)

  datatype Channel = Channel(dma: Dma, rd: Reader, q: Queue, snd: Sender)

  datatype ReaderPc = Arm | AwaitTrigger | FetchEnd(c: ChannelId) | FetchCurr(c: ChannelId)
                    | Serve(c: ChannelId) | PassEnd | ReaderExited

  datatype State = State(a: Channel, b: Channel, pc: ReaderPc) {
    function Get(c: ChannelId): Channel {
      if c == A then a else b
    }

    function With(c: ChannelId, ch: Channel): State {
      if c == A then this.(a := ch) else this.(b := ch)
    }
  }

  /** One step of a thread or of the hardware, with the values the environment chooses. */
  datatype Action =
    | WriteByte(c: ChannelId, byte: Byte)
    | TriggerFires
    | SenderLock(c: ChannelId)
    | SendByte(c: ChannelId)
    | SendReturns(c: ChannelId)
    | SenderStops(c: ChannelId)
    | ReaderStep(baseA: nat, baseB: nat)
    | ReaderStops

  // ---------------------------------------------------------------- steps of one channel

  function Min(x: int, y: int): int {
    if x <= y then x else y
  }

  /** Unsigned 32-bit subtraction. */
  function Sub32(x: nat, y: nat): int {
    if x >= y then x - y else x - y + TWO_TO_THE_32
  }

  function BlockLength(cfg: Config, readPos: nat): int {
    if readPos + cfg.readBlock <= cfg.Total() then cfg.readBlock else Sub32(cfg.Total(), readPos)
  }

  function At<T>(s: seq<T>, i: int, default: T): T {
    if 0 <= i < |s| then s[i] else default
  }

  function Put<T>(s: seq<T>, i: int, x: T): seq<T> {
    if 0 <= i < |s| then s[i := x] else s
  }

  /** Ring offset of a stream position. */
  function Offset(cfg: Config, base: nat, pos: int): int
    requires cfg.Valid()
  {
    (base + pos) % cfg.ringSize
  }

  /** The ring unrolled from `base`: what lies before the write pointer, oldest byte first. */
  function Unroll(ring: seq<Byte>, base: nat): seq<Byte>
    requires base <= |ring|
  {
    ring[base..] + ring[..base]
  }

  /** The DMA engine stops once it has written Post() bytes after the trigger. */
  predicate Recording(cfg: Config, dma: Dma) {
    dma.trigger.None? || |dma.stream| < dma.trigger.value + cfg.Post()
  }

  function AfterWrite(cfg: Config, dma: Dma, byte: Byte): Dma
    requires cfg.Valid()
  {
    var last := |dma.recordings| - 1;
    dma.(ring := Put(dma.ring, Offset(cfg, dma.base, |dma.stream|), byte),
         stream := dma.stream + [byte],
         recordings := if dma.trigger.Some? && 0 <= last then dma.recordings[last := dma.recordings[last] + [byte]]
         else dma.recordings)
  }

  function AfterTrigger(cfg: Config, dma: Dma): Dma {
    var t := |dma.stream|;
    var last := |dma.recordings| - 1;
    dma.(trigger := Some(t),
         recordings := if 0 <= last && cfg.Pre() <= t then dma.recordings[last := dma.stream[t - cfg.Pre()..]]
         else dma.recordings)
  }

  function AfterArm(dma: Dma, base: nat): Dma
    requires base <= |dma.ring|
  {
    dma.(trigger := None, base := base, stream := Unroll(dma.ring, base), recordings := dma.recordings + [[]])
  }

  function AfterTriggerSeen(cfg: Config, dma: Dma, rd: Reader): Reader
    requires cfg.Valid() && dma.trigger.Some?
  {
    rd.(startPos := CircularSub(Offset(cfg, dma.base, dma.trigger.value), cfg.Pre(), cfg.ringSize))
  }

  function AfterFetchEnd(q: Queue, rd: Reader): Reader {
    rd.(readPos := q.readEnd, stage := GotEnd)
  }

  function AfterFetchCurr(cfg: Config, dma: Dma, rd: Reader): Reader
    requires cfg.Valid()
  {
    var claim := rd.first && rd.readPos == 0;
    rd.(first := rd.first && !claim, ready := rd.ready || claim,
        currPos := Offset(cfg, dma.base, |dma.stream|), currAbs := |dma.stream|, stage := GotCurr)
  }

  /** Channel A copies when the distance is at least a block, channel B only when it is more. */
  predicate BlockAvailable(cfg: Config, rd: Reader, strict: bool) {
    var dist := CircularDist(rd.startPos, rd.currPos, cfg.ringSize);
    var len := BlockLength(cfg, rd.readPos);
    rd.ready && if strict then dist > len else dist >= len
  }

  /** One byte of CIRCULARSRC_MEMCPY. */
  function AfterCopyByte(cfg: Config, ch: Channel, j: nat): Channel {
    var len := BlockLength(cfg, ch.rd.readPos);
    var src := if 0 <= ch.rd.startPos && 0 <= len then SourceIndex(ch.rd.startPos, len, cfg.ringSize, j) else 0;
    ch.(q := ch.q.(buf := Put(ch.q.buf, ch.rd.readPos + j, At(ch.dma.ring, src, 0))),
        rd := ch.rd.(stage := Copying(j + 1)))
  }

  function AfterCopy(cfg: Config, rd: Reader): Reader
    requires cfg.Valid()
  {
    var len := BlockLength(cfg, rd.readPos);
    rd.(startPos := if 0 <= rd.startPos && 0 <= len then CircularAdd(rd.startPos, len, cfg.ringSize) else 0,
        ready := rd.ready && rd.readPos + len < cfg.Total(), stage := Copied)
  }

  function AfterCommit(cfg: Config, ch: Channel): Channel {
    var len := BlockLength(cfg, ch.rd.readPos);
    if ch.q.readEnd == ch.rd.readPos && 0 <= len then
      ch.(q := ch.q.(readEnd := ch.q.readEnd + len), rd := ch.rd.(stage := Idle))
    else
      ch.(rd := ch.rd.(ready := false, stage := Idle))
  }

  /** Test whether a block is available, copy it byte by byte, then commit it under the lock. */
  function AfterServe(cfg: Config, ch: Channel, strict: bool): Channel
    requires cfg.Valid()
  {
    match ch.rd.stage
    case GotCurr => ch.(rd := ch.rd.(stage := if BlockAvailable(cfg, ch.rd, strict) then Copying(0) else Idle))
    case Copying(j) =>
      if j < BlockLength(cfg, ch.rd.readPos) then AfterCopyByte(cfg, ch, j)
      else ch.(rd := AfterCopy(cfg, ch.rd))
    case Copied => AfterCommit(cfg, ch)
    case Idle => ch
    case GotEnd => ch
  }

  function AfterSenderLock(cfg: Config, q: Queue, snd: Sender): (Queue, Sender) {
    var reset := q.readEnd >= cfg.Total() && snd.sendPos >= cfg.Total();
    var readEnd := if reset then 0 else q.readEnd;
    var sendPos := if reset then 0 else snd.sendPos;
    var length := Sub32(readEnd, sendPos);
    (q.(readEnd := readEnd),
     Sender(if length > 0 then Sending([]) else AtLock, sendPos, if length >= 0 then length else 0,
            if reset then snd.wire + [snd.sent] else snd.wire,
            if reset then [] else snd.sent))
  }

  /** send() takes one more byte of the block it was asked to transmit. */
  predicate CanSendByte(cfg: Config, snd: Sender) {
    snd.pc.Sending? && |snd.pc.staged| < Min(snd.length, cfg.sendBlock)
  }

  function AfterSendByte(q: Queue, snd: Sender): Sender
    requires snd.pc.Sending?
  {
    snd.(pc := Sending(snd.pc.staged + [At(q.buf, snd.sendPos + |snd.pc.staged|, 0)]))
  }

  /** send() returns having transmitted the bytes taken so far, possibly fewer than asked, possibly none. */
  function AfterSendReturns(snd: Sender): Sender
    requires snd.pc.Sending?
  {
    var n := |snd.pc.staged|;
    var left := if n <= snd.length then snd.length - n else 0;
    snd.(sendPos := snd.sendPos + n, length := left, sent := snd.sent + snd.pc.staged,
         pc := if left > 0 then Sending([]) else AtLock)
  }

  // ---------------------------------------------------------------- the whole system

  predicate Armed(s: State) {
    s.a.dma.recordings != [] && s.b.dma.recordings != []
  }

  ghost predicate Enabled(cfg: Config, s: State, act: Action) {
    match act
    case WriteByte(c, _) => Armed(s) && Recording(cfg, s.Get(c).dma)
    case TriggerFires => s.pc.AwaitTrigger? && s.a.dma.trigger.None? && s.b.dma.trigger.None?
    case SenderLock(c) => s.Get(c).snd.pc.AtLock?
    case SendByte(c) => CanSendByte(cfg, s.Get(c).snd)
    case SendReturns(c) => s.Get(c).snd.pc.Sending?
    case SenderStops(c) => !s.Get(c).snd.pc.SenderExited?
    case ReaderStep(baseA, baseB) =>
      && !s.pc.ReaderExited?
      && (s.pc.Arm? ==> baseA < |s.a.dma.ring| && baseB < |s.b.dma.ring|)
      && (s.pc.AwaitTrigger? ==> s.a.dma.trigger.Some? && s.b.dma.trigger.Some?)
    case ReaderStops => !s.pc.ReaderExited?
  }

  function ArmChannel(ch: Channel, base: nat): Channel
    requires base <= |ch.dma.ring|
  {
    ch.(dma := AfterArm(ch.dma, base), rd := ch.rd.(first := true, ready := false))
  }

  ghost function AfterReader(cfg: Config, s: State, baseA: nat, baseB: nat): State
    requires cfg.Valid() && Enabled(cfg, s, ReaderStep(baseA, baseB))
  {
    match s.pc
    case Arm => State(ArmChannel(s.a, baseA), ArmChannel(s.b, baseB), AwaitTrigger)
    case AwaitTrigger =>
      State(s.a.(rd := AfterTriggerSeen(cfg, s.a.dma, s.a.rd)), s.b.(rd := AfterTriggerSeen(cfg, s.b.dma, s.b.rd)),
            FetchEnd(A))
    case FetchEnd(c) =>
      var ch := s.Get(c);
      s.With(c, ch.(rd := AfterFetchEnd(ch.q, ch.rd))).(pc := if c == A then FetchEnd(B) else FetchCurr(A))
    case FetchCurr(c) =>
      var ch := s.Get(c);
      s.With(c, ch.(rd := AfterFetchCurr(cfg, ch.dma, ch.rd))).(pc := if c == A then FetchCurr(B) else Serve(A))
    case Serve(c) =>
      var ch := AfterServe(cfg, s.Get(c), c == B);
      s.With(c, ch).(pc := if ch.rd.stage.Idle? then (if c == A then Serve(B) else PassEnd) else s.pc)
    case PassEnd => s.(pc := if s.a.rd.first || s.a.rd.ready || s.b.rd.first || s.b.rd.ready then FetchEnd(A) else Arm)
  }

  ghost function Apply(cfg: Config, s: State, act: Action): State
    requires cfg.Valid() && Enabled(cfg, s, act)
  {
    match act
    case WriteByte(c, byte) => s.With(c, s.Get(c).(dma := AfterWrite(cfg, s.Get(c).dma, byte)))
    case TriggerFires => s.(a := s.a.(dma := AfterTrigger(cfg, s.a.dma)), b := s.b.(dma := AfterTrigger(cfg, s.b.dma)))
    case SenderLock(c) =>
      var (q, snd) := AfterSenderLock(cfg, s.Get(c).q, s.Get(c).snd);
      s.With(c, s.Get(c).(q := q, snd := snd))
    case SendByte(c) => s.With(c, s.Get(c).(snd := AfterSendByte(s.Get(c).q, s.Get(c).snd)))
    case SendReturns(c) => s.With(c, s.Get(c).(snd := AfterSendReturns(s.Get(c).snd)))
    case SenderStops(c) => s.With(c, s.Get(c).(snd := s.Get(c).snd.(pc := SenderExited)))
    case ReaderStep(baseA, baseB) => AfterReader(cfg, s, baseA, baseB)
    case ReaderStops => s.(pc := ReaderExited)
  }

  /** Before the first arming: empty queues, idle threads, arbitrary memory contents. */
  predicate InitialChannel(cfg: Config, ch: Channel) {
    && |ch.dma.ring| == cfg.ringSize && ch.dma.base < cfg.ringSize
    && ch.dma.stream == Unroll(ch.dma.ring, ch.dma.base) && ch.dma.trigger.None? && ch.dma.recordings == []
    && !ch.rd.first && !ch.rd.ready && ch.rd.stage.Idle? && ch.rd.readPos == 0
    && ch.q.readEnd == 0 && |ch.q.buf| == cfg.Total()
    && ch.snd.pc.AtLock? && ch.snd.sendPos == 0 && ch.snd.wire == [] && ch.snd.sent == []
  }

  predicate Initial(cfg: Config, s: State) {
    InitialChannel(cfg, s.a) && InitialChannel(cfg, s.b) && s.pc.Arm?
  }

  /** `states` is what happens when `acts` are performed one after another. */
  ghost predicate IsExecution(cfg: Config, states: seq<State>, acts: seq<Action>)
    requires cfg.Valid()
  {
    && |states| == |acts| + 1
    && forall i :: 0 <= i < |acts| ==>
      Enabled(cfg, states[i], acts[i]) && states[i + 1] == Apply(cfg, states[i], acts[i])
  }

  // ---------------------------------------------------------------- invariant

  ghost predicate MirrorsAt(cfg: Config, ring: seq<Byte>, base: nat, stream: seq<Byte>, k: int)
    requires cfg.Valid() && 0 <= k < |stream|
  {
    At(ring, Offset(cfg, base, k), 0) == stream[k]
  }

  /** The ring holds the most recent ringSize bytes of the stream. */
  ghost predicate Mirrors(cfg: Config, ring: seq<Byte>, base: nat, stream: seq<Byte>)
    requires cfg.Valid()
  {
    && |ring| == cfg.ringSize <= |stream| && base < cfg.ringSize
    && forall k :: |stream| - cfg.ringSize <= k < |stream| ==> MirrorsAt(cfg, ring, base, stream, k)
  }

  /** Position in the stream of the first byte to transmit. */
  ghost function Start(cfg: Config, dma: Dma): int
    requires dma.trigger.Some?
  {
    dma.trigger.value - cfg.Pre()
  }

  /** The recording that began with the last arming. */
  ghost function Current(dma: Dma): seq<Byte> {
    if dma.recordings == [] then [] else dma.recordings[|dma.recordings| - 1]
  }

  /** The current recording is the stream from preTrigger samples before the trigger on, and not longer than
      what is recorded after the trigger allows. */
  ghost predicate RecordingInv(cfg: Config, stream: seq<Byte>, trigger: Option<nat>, current: seq<Byte>) {
    if trigger.Some? then
      && cfg.ringSize <= trigger.value <= |stream| <= trigger.value + cfg.Post()
      && 0 <= trigger.value - cfg.Pre() && current == stream[trigger.value - cfg.Pre()..]
    else current == []
  }

  ghost predicate DmaInv(cfg: Config, dma: Dma)
    requires cfg.Valid()
  {
    && Mirrors(cfg, dma.ring, dma.base, dma.stream)
    && (dma.trigger.Some? ==> dma.recordings != [])
    && RecordingInv(cfg, dma.stream, dma.trigger, Current(dma))
  }

  /** `buf[..upTo]` is the beginning of recording i. */
  ghost predicate Holds(recordings: seq<seq<Byte>>, buf: seq<Byte>, i: nat, upTo: nat) {
    && upTo <= |buf|
    && (upTo > 0 ==> i < |recordings| && buf[..upTo] <= recordings[i])
  }

  ghost predicate SenderInv(cfg: Config, recordings: seq<seq<Byte>>, q: Queue, snd: Sender) {
    && |q.buf| == cfg.Total()
    && snd.sendPos <= q.readEnd <= cfg.Total()
    && Holds(recordings, q.buf, |snd.wire|, q.readEnd)
    && snd.sent == q.buf[..snd.sendPos]
    && (snd.pc.Sending? ==> (
        && 0 < snd.length && snd.sendPos + snd.length <= q.readEnd
        && |snd.pc.staged| <= Min(snd.length, cfg.sendBlock)
        && snd.pc.staged == q.buf[snd.sendPos..snd.sendPos + |snd.pc.staged|]))
  }

  ghost predicate WireInv(cfg: Config, recordings: seq<seq<Byte>>, wire: seq<seq<Byte>>) {
    forall i :: 0 <= i < |wire| ==>
      i < |recordings| && cfg.Total() <= |recordings[i]| && wire[i] == recordings[i][..cfg.Total()]
  }

  /** `startPos` is the ring offset of byte `done` of the current recording, and all before is recorded. */
  ghost predicate Located(cfg: Config, dma: Dma, startPos: int, done: int)
    requires cfg.Valid()
  {
    && dma.trigger.Some?
    && Start(cfg, dma) + done <= |dma.stream|
    && startPos == Offset(cfg, dma.base, Start(cfg, dma) + done)
  }

  /** Either the sender still holds the whole of recording n - 1, or it has reset the queue after it. */
  ghost predicate Handover(cfg: Config, q: Queue, wires: nat, n: int) {
    || (q.readEnd == cfg.Total() && wires == n - 1)
    || (q.readEnd == 0 && wires == n)
  }

  /** The queue is being filled with the current recording and the sender has not reset it. */
  ghost predicate Filling(cfg: Config, dma: Dma, q: Queue, wires: nat) {
    wires == |dma.recordings| - 1 && q.readEnd < cfg.Total()
  }

  ghost predicate PhaseInv(cfg: Config, dma: Dma, rd: Reader, q: Queue, wires: nat, seen: bool)
    requires cfg.Valid()
  {
    && (rd.first ==> !rd.ready && dma.recordings != [] && Handover(cfg, q, wires, |dma.recordings| - 1))
    && (rd.first && seen ==> Located(cfg, dma, rd.startPos, 0))
    && (rd.ready && !rd.stage.Copied? ==> Filling(cfg, dma, q, wires) && Located(cfg, dma, rd.startPos, q.readEnd))
    && (!rd.first && !rd.ready && !rd.stage.Copied? ==> Handover(cfg, q, wires, |dma.recordings|))
  }

  /** The first j bytes of the block being copied are in place. */
  ghost predicate BlockHeld(recording: seq<Byte>, buf: seq<Byte>, readPos: nat, j: int) {
    && 0 <= j && readPos + j <= |buf| && readPos + j <= |recording|
    && buf[readPos..readPos + j] == recording[readPos..readPos + j]
  }

  ghost predicate StageInv(cfg: Config, dma: Dma, rd: Reader, q: Queue, wires: nat)
    requires cfg.Valid()
  {
    var len := BlockLength(cfg, rd.readPos);
    && rd.readPos <= cfg.Total()
    && match rd.stage
       case Idle => true
       case GotEnd =>
         && (rd.ready ==> rd.readPos == q.readEnd)
         && (rd.first && rd.readPos == 0 ==> q.readEnd == 0)
       case GotCurr =>
         rd.ready ==> (
           && rd.readPos == q.readEnd && dma.trigger.Some?
           && Start(cfg, dma) + q.readEnd <= rd.currAbs <= |dma.stream|
           && rd.currPos == Offset(cfg, dma.base, rd.currAbs))
       case Copying(j) => (
         && rd.ready && rd.readPos == q.readEnd && dma.trigger.Some?
         && j <= len && Start(cfg, dma) + q.readEnd + len <= |dma.stream|
         && BlockHeld(Current(dma), q.buf, rd.readPos, j))
       case Copied => (
         && !rd.first && rd.readPos == q.readEnd && Filling(cfg, dma, q, wires)
         && Located(cfg, dma, rd.startPos, q.readEnd + len) && BlockHeld(Current(dma), q.buf, rd.readPos, len)
         && (rd.ready <==> rd.readPos + len < cfg.Total()))
  }

  ghost predicate ChannelInv(cfg: Config, ch: Channel, seen: bool)
    requires cfg.Valid()
  {
    && DmaInv(cfg, ch.dma)
    && SenderInv(cfg, ch.dma.recordings, ch.q, ch.snd)
    && WireInv(cfg, ch.dma.recordings, ch.snd.wire)
    && PhaseInv(cfg, ch.dma, ch.rd, ch.q, |ch.snd.wire|, seen)
    && StageInv(cfg, ch.dma, ch.rd, ch.q, |ch.snd.wire|)
    && (seen ==> ch.dma.trigger.Some?)
  }

  /** How the reader's program counter determines the stage of each channel. */
  ghost predicate StagesMatch(pc: ReaderPc, a: Reader, b: Reader) {
    match pc
    case Arm => a.stage.Idle? && b.stage.Idle? && !a.first && !a.ready && !b.first && !b.ready
    case AwaitTrigger => a.stage.Idle? && b.stage.Idle? && a.first && b.first
    case PassEnd => a.stage.Idle? && b.stage.Idle?
    case FetchEnd(c) => (if c == A then a.stage.Idle? else a.stage.GotEnd?) && b.stage.Idle?
    case FetchCurr(c) => (if c == A then a.stage.GotEnd? else a.stage.GotCurr?) && b.stage.GotEnd?
    case Serve(c) =>
      if c == A then InService(a.stage) && b.stage.GotCurr? else a.stage.Idle? && InService(b.stage)
    case ReaderExited => true
  }

  ghost predicate InService(stage: Stage) {
    stage.GotCurr? || stage.Copying? || stage.Copied?
  }

  ghost predicate TriggerSeen(pc: ReaderPc) {
    !pc.Arm? && !pc.AwaitTrigger? && !pc.ReaderExited?
  }

  ghost predicate Inv(cfg: Config, s: State)
    requires cfg.Valid()
  {
    && ChannelInv(cfg, s.a, TriggerSeen(s.pc)) && ChannelInv(cfg, s.b, TriggerSeen(s.pc))
    && StagesMatch(s.pc, s.a.rd, s.b.rd)
    && |s.a.dma.recordings| == |s.b.dma.recordings|
  }

  // ---------------------------------------------------------------- ring and stream

  lemma WriteMirrors(cfg: Config, ring: seq<Byte>, base: nat, stream: seq<Byte>, byte: Byte)
    requires cfg.Valid() && Mirrors(cfg, ring, base, stream)
    ensures Mirrors(cfg, Put(ring, Offset(cfg, base, |stream|), byte), base, stream + [byte])
  {
    var n := |stream|;
    var ring' := Put(ring, Offset(cfg, base, n), byte);
    forall k | n + 1 - cfg.ringSize <= k < n + 1
      ensures MirrorsAt(cfg, ring', base, stream + [byte], k)
    {
      if k < n {
        assert MirrorsAt(cfg, ring, base, stream, k);
        if Offset(cfg, base, k) == Offset(cfg, base, n) {
          SameOffset(base + k, base + n, cfg.ringSize);
        }
      }
    }
  }

  lemma UnrollMirrors(cfg: Config, ring: seq<Byte>, base: nat)
    requires cfg.Valid() && |ring| == cfg.ringSize && base < cfg.ringSize
    ensures Mirrors(cfg, ring, base, Unroll(ring, base))
  {
    forall k | 0 <= k < cfg.ringSize
      ensures MirrorsAt(cfg, ring, base, Unroll(ring, base), k)
    {
      ModUnique(base + k, cfg.ringSize, if base + k < cfg.ringSize then 0 else 1,
                if base + k < cfg.ringSize then base + k else base + k - cfg.ringSize);
    }
  }

  /** The DMA engine never laps the reader: what the reader fetches is still the recorded byte. */
  lemma FetchedByte(cfg: Config, dma: Dma, startPos: int, done: nat, len: nat, j: nat)
    requires cfg.Valid() && DmaInv(cfg, dma) && Located(cfg, dma, startPos, done)
    requires Start(cfg, dma) + done + len <= |dma.stream| && j < len <= cfg.Total()
    ensures 0 <= startPos < cfg.ringSize
    ensures 0 <= SourceIndex(startPos, len, cfg.ringSize, j) < |dma.ring|
    ensures done + j < |Current(dma)|
    ensures At(dma.ring, SourceIndex(startPos, len, cfg.ringSize, j), 0) == Current(dma)[done + j]
  {
    var pos := Start(cfg, dma) + done;
    StillInRing(cfg, dma, pos + j);
    FetchedFromRing(cfg, dma.ring, dma.base, dma.stream, startPos, pos, len, j);
    RecordedByte(dma.stream, Start(cfg, dma), done + j);
  }

  lemma FetchedFromRing(cfg: Config, ring: seq<Byte>, base: nat, stream: seq<Byte>, startPos: int, pos: nat, len: nat, j: nat)
    requires cfg.Valid() && Mirrors(cfg, ring, base, stream) && startPos == Offset(cfg, base, pos)
    requires j < len <= cfg.ringSize && |stream| - cfg.ringSize <= pos + j < |stream|
    ensures 0 <= startPos < cfg.ringSize
    ensures 0 <= SourceIndex(startPos, len, cfg.ringSize, j) < |ring|
    ensures At(ring, SourceIndex(startPos, len, cfg.ringSize, j), 0) == stream[pos + j]
  {
    SourceOffset(cfg, base, pos, len, j);
    MirroredByte(cfg, ring, base, stream, pos + j);
  }

  /** Nothing recorded since preTrigger samples before the trigger has left the ring. */
  lemma StillInRing(cfg: Config, dma: Dma, pos: int)
    requires cfg.Valid() && dma.trigger.Some? && RecordingInv(cfg, dma.stream, dma.trigger, Current(dma))
    requires Start(cfg, dma) <= pos
    ensures |dma.stream| - cfg.ringSize <= pos
  {
  }

  lemma MirroredByte(cfg: Config, ring: seq<Byte>, base: nat, stream: seq<Byte>, k: int)
    requires cfg.Valid() && Mirrors(cfg, ring, base, stream) && |stream| - cfg.ringSize <= k < |stream|
    requires 0 <= k
    ensures 0 <= Offset(cfg, base, k) < |ring| && At(ring, Offset(cfg, base, k), 0) == stream[k]
  {
    assert MirrorsAt(cfg, ring, base, stream, k);
  }

  lemma RecordedByte(stream: seq<Byte>, from: nat, i: nat)
    requires from + i < |stream|
    ensures |stream[from..]| == |stream| - from && stream[from..][i] == stream[from + i]
  {
  }

  lemma SourceOffset(cfg: Config, base: nat, pos: int, len: nat, j: nat)
    requires cfg.Valid() && j < len <= cfg.ringSize
    ensures 0 <= Offset(cfg, base, pos) < cfg.ringSize
    ensures 0 <= Offset(cfg, base, pos + j) < cfg.ringSize
    ensures SourceIndex(Offset(cfg, base, pos), len, cfg.ringSize, j) == Offset(cfg, base, pos + j)
  {
    SourceOfReduced(base + pos, cfg.ringSize, len, j);
  }

  lemma AdvanceLocated(cfg: Config, dma: Dma, startPos: int, done: nat, len: nat)
    requires cfg.Valid() && Located(cfg, dma, startPos, done)
    requires Start(cfg, dma) + done + len <= |dma.stream|
    ensures 0 <= startPos && Located(cfg, dma, CircularAdd(startPos, len, cfg.ringSize), done + len)
  {
    var pos := dma.base + Start(cfg, dma) + done;
    AddReduced(pos, len, cfg.ringSize);
    assert startPos == pos % cfg.ringSize;
    assert CircularAdd(startPos, len, cfg.ringSize) == (pos + len) % cfg.ringSize;
  }

  // ---------------------------------------------------------------- each step keeps the invariant

  lemma SenderLockKeepsQueue(cfg: Config, recordings: seq<seq<Byte>>, q: Queue, snd: Sender)
    requires cfg.Valid() && SenderInv(cfg, recordings, q, snd) && WireInv(cfg, recordings, snd.wire) && snd.pc.AtLock?
    ensures
      var (q', snd') := AfterSenderLock(cfg, q, snd);
      SenderInv(cfg, recordings, q', snd') && WireInv(cfg, recordings, snd'.wire)
  {
  }

  lemma SenderLockKeepsReader(cfg: Config, dma: Dma, rd: Reader, q: Queue, snd: Sender, seen: bool)
    requires cfg.Valid() && SenderInv(cfg, dma.recordings, q, snd) && snd.pc.AtLock?
    requires PhaseInv(cfg, dma, rd, q, |snd.wire|, seen) && StageInv(cfg, dma, rd, q, |snd.wire|)
    ensures
      var (q', snd') := AfterSenderLock(cfg, q, snd);
      PhaseInv(cfg, dma, rd, q', |snd'.wire|, seen) && StageInv(cfg, dma, rd, q', |snd'.wire|)
  {
  }

  lemma SenderLockKeeps(cfg: Config, ch: Channel, seen: bool)
    requires cfg.Valid() && ChannelInv(cfg, ch, seen) && ch.snd.pc.AtLock?
    ensures
      var (q, snd) := AfterSenderLock(cfg, ch.q, ch.snd);
      ChannelInv(cfg, ch.(q := q, snd := snd), seen)
  {
    SenderLockKeepsQueue(cfg, ch.dma.recordings, ch.q, ch.snd);
    SenderLockKeepsReader(cfg, ch.dma, ch.rd, ch.q, ch.snd, seen);
  }

  lemma SendByteKeeps(cfg: Config, ch: Channel, seen: bool)
    requires cfg.Valid() && ChannelInv(cfg, ch, seen) && CanSendByte(cfg, ch.snd)
    ensures ChannelInv(cfg, ch.(snd := AfterSendByte(ch.q, ch.snd)), seen)
  {
  }

  lemma SenderStopsKeeps(cfg: Config, ch: Channel, seen: bool)
    requires cfg.Valid() && ChannelInv(cfg, ch, seen)
    ensures ChannelInv(cfg, ch.(snd := ch.snd.(pc := SenderExited)), seen)
  {
  }

  lemma SendReturnsKeepsSender(cfg: Config, recordings: seq<seq<Byte>>, q: Queue, snd: Sender)
    requires SenderInv(cfg, recordings, q, snd) && snd.pc.Sending?
    ensures SenderInv(cfg, recordings, q, AfterSendReturns(snd)) && AfterSendReturns(snd).wire == snd.wire
  {
  }

  lemma SendReturnsKeeps(cfg: Config, ch: Channel, seen: bool)
    requires cfg.Valid() && ChannelInv(cfg, ch, seen) && ch.snd.pc.Sending?
    ensures ChannelInv(cfg, ch.(snd := AfterSendReturns(ch.snd)), seen)
  {
    SendReturnsKeepsSender(cfg, ch.dma.recordings, ch.q, ch.snd);
  }

  /** Recordings only ever grow at the end. */
  ghost predicate Extends(old_: seq<seq<Byte>>, new_: seq<seq<Byte>>) {
    |old_| <= |new_| && forall i :: 0 <= i < |old_| ==> old_[i] <= new_[i]
  }

  lemma WriteKeepsDma(cfg: Config, dma: Dma, byte: Byte)
    requires cfg.Valid() && DmaInv(cfg, dma) && Recording(cfg, dma) && dma.recordings != []
    ensures DmaInv(cfg, AfterWrite(cfg, dma, byte))
    ensures Extends(dma.recordings, AfterWrite(cfg, dma, byte).recordings)
  {
    WriteMirrors(cfg, dma.ring, dma.base, dma.stream, byte);
    WriteRecords(cfg, dma, byte);
    RecordingGrows(cfg, dma.stream, dma.trigger, Current(dma), byte);
  }

  lemma RecordingGrows(cfg: Config, stream: seq<Byte>, trigger: Option<nat>, current: seq<Byte>, byte: Byte)
    requires RecordingInv(cfg, stream, trigger, current)
    requires trigger.None? || |stream| < trigger.value + cfg.Post()
    ensures RecordingInv(cfg, stream + [byte], trigger, current + if trigger.Some? then [byte] else [])
  {
    if trigger.Some? {
      var from := trigger.value - cfg.Pre();
      assert (stream + [byte])[from..] == stream[from..] + [byte];
    }
  }

  /** A byte written after the trigger is appended to the current recording; one before it is not recorded. */
  lemma WriteRecords(cfg: Config, dma: Dma, byte: Byte)
    requires cfg.Valid() && dma.recordings != []
    ensures
      var dma' := AfterWrite(cfg, dma, byte);
      && Current(dma') == Current(dma) + (if dma.trigger.Some? then [byte] else [])
      && dma'.recordings != [] && Extends(dma.recordings, dma'.recordings)
  {
  }

  lemma ExtendsKeepsSender(cfg: Config, recs: seq<seq<Byte>>, recs': seq<seq<Byte>>, q: Queue, snd: Sender)
    requires Extends(recs, recs') && SenderInv(cfg, recs, q, snd) && WireInv(cfg, recs, snd.wire)
    ensures SenderInv(cfg, recs', q, snd) && WireInv(cfg, recs', snd.wire)
  {
    forall i | 0 <= i < |snd.wire|
      ensures
        i < |recs'| && cfg.Total() <= |recs'[i]| && snd.wire[i] == recs'[i][..cfg.Total()]
    {
      var w := snd.wire[i];
      assert i < |recs| && w == recs[i][..cfg.Total()];
      assert recs[i] <= recs'[i];
    }
    if q.readEnd > 0 {
      assert recs[|snd.wire|] <= recs'[|snd.wire|];
    }
  }

  lemma WriteKeepsStage(cfg: Config, dma: Dma, rd: Reader, q: Queue, wires: nat, byte: Byte)
    requires cfg.Valid() && StageInv(cfg, dma, rd, q, wires)
    ensures StageInv(cfg, AfterWrite(cfg, dma, byte), rd, q, wires)
  {
    var dma' := AfterWrite(cfg, dma, byte);
    match rd.stage
    case Copying(j) => LongerRecording(Current(dma), Current(dma'), q.buf, rd.readPos, j);
    case Copied => LongerRecording(Current(dma), Current(dma'), q.buf, rd.readPos, BlockLength(cfg, rd.readPos));
    case _ =>
  }

  lemma LongerRecording(recording: seq<Byte>, recording': seq<Byte>, buf: seq<Byte>, readPos: nat, j: int)
    requires BlockHeld(recording, buf, readPos, j) && recording <= recording'
    ensures BlockHeld(recording', buf, readPos, j)
  {
  }

  lemma WriteKeepsPhase(cfg: Config, dma: Dma, rd: Reader, q: Queue, wires: nat, byte: Byte, seen: bool)
    requires cfg.Valid() && PhaseInv(cfg, dma, rd, q, wires, seen)
    ensures PhaseInv(cfg, AfterWrite(cfg, dma, byte), rd, q, wires, seen)
  {
  }

  lemma WriteKeeps(cfg: Config, ch: Channel, byte: Byte, seen: bool)
    requires cfg.Valid() && ChannelInv(cfg, ch, seen) && Recording(cfg, ch.dma) && ch.dma.recordings != []
    ensures ChannelInv(cfg, ch.(dma := AfterWrite(cfg, ch.dma, byte)), seen)
  {
    var dma' := AfterWrite(cfg, ch.dma, byte);
    WriteKeepsDma(cfg, ch.dma, byte);
    ExtendsKeepsSender(cfg, ch.dma.recordings, dma'.recordings, ch.q, ch.snd);
    WriteKeepsPhase(cfg, ch.dma, ch.rd, ch.q, |ch.snd.wire|, byte, seen);
    WriteKeepsStage(cfg, ch.dma, ch.rd, ch.q, |ch.snd.wire|, byte);
  }

  lemma TriggerKeeps(cfg: Config, ch: Channel)
    requires cfg.Valid() && ChannelInv(cfg, ch, false) && ch.dma.trigger.None? && ch.dma.recordings != []
    requires ch.rd.stage.Idle? && ch.rd.first
    ensures ChannelInv(cfg, ch.(dma := AfterTrigger(cfg, ch.dma)), false)
  {
  }

  lemma ArmKeeps(cfg: Config, ch: Channel, base: nat)
    requires cfg.Valid() && ChannelInv(cfg, ch, false) && base < |ch.dma.ring|
    requires ch.rd.stage.Idle? && !ch.rd.first && !ch.rd.ready
    ensures ChannelInv(cfg, ArmChannel(ch, base), false)
  {
    UnrollMirrors(cfg, ch.dma.ring, base);
    assert DmaInv(cfg, AfterArm(ch.dma, base));
  }

  lemma TriggerSeenKeeps(cfg: Config, ch: Channel)
    requires cfg.Valid() && ChannelInv(cfg, ch, false) && ch.dma.trigger.Some? && ch.rd.stage.Idle? && ch.rd.first
    ensures ChannelInv(cfg, ch.(rd := AfterTriggerSeen(cfg, ch.dma, ch.rd)), true)
  {
    SubReduced(ch.dma.base + ch.dma.trigger.value, cfg.Pre(), cfg.ringSize);
  }

  lemma FetchEndKeeps(cfg: Config, ch: Channel)
    requires cfg.Valid() && ChannelInv(cfg, ch, true) && ch.rd.stage.Idle?
    ensures ChannelInv(cfg, ch.(rd := AfterFetchEnd(ch.q, ch.rd)), true)
  {
  }

  lemma FetchCurrKeeps(cfg: Config, ch: Channel)
    requires cfg.Valid() && ChannelInv(cfg, ch, true) && ch.rd.stage.GotEnd?
    ensures ChannelInv(cfg, ch.(rd := AfterFetchCurr(cfg, ch.dma, ch.rd)), true)
  {
  }

  /** The distance tested is the number of bytes recorded but not copied yet. */
  lemma DistanceIsLeft(cfg: Config, dma: Dma, rd: Reader, q: Queue)
    requires cfg.Valid() && DmaInv(cfg, dma) && Located(cfg, dma, rd.startPos, q.readEnd)
    requires Start(cfg, dma) + q.readEnd <= rd.currAbs <= |dma.stream| && rd.currPos == Offset(cfg, dma.base, rd.currAbs)
    ensures CircularDist(rd.startPos, rd.currPos, cfg.ringSize) == rd.currAbs - (Start(cfg, dma) + q.readEnd)
  {
    DistReduced(dma.base + Start(cfg, dma) + q.readEnd, dma.base + rd.currAbs, cfg.ringSize);
  }

  /** A block that is found available has been recorded. */
  lemma AvailableIsRecorded(cfg: Config, dma: Dma, rd: Reader, q: Queue, strict: bool)
    requires cfg.Valid() && DmaInv(cfg, dma) && rd.ready && rd.readPos == q.readEnd && q.readEnd < cfg.Total()
    requires Located(cfg, dma, rd.startPos, q.readEnd) && BlockAvailable(cfg, rd, strict)
    requires Start(cfg, dma) + q.readEnd <= rd.currAbs <= |dma.stream| && rd.currPos == Offset(cfg, dma.base, rd.currAbs)
    ensures Start(cfg, dma) + q.readEnd + BlockLength(cfg, rd.readPos) <= |dma.stream|
  {
    DistanceIsLeft(cfg, dma, rd, q);
  }

  lemma TestKeeps(cfg: Config, ch: Channel, strict: bool)
    requires cfg.Valid() && ChannelInv(cfg, ch, true) && ch.rd.stage.GotCurr?
    ensures ChannelInv(cfg, AfterServe(cfg, ch, strict), true)
  {
    if BlockAvailable(cfg, ch.rd, strict) {
      AvailableIsRecorded(cfg, ch.dma, ch.rd, ch.q, strict);
      NothingCopied(Current(ch.dma), ch.q.buf, ch.rd.readPos);
    }
  }

  lemma NothingCopied(recording: seq<Byte>, buf: seq<Byte>, readPos: nat)
    requires readPos <= |buf| && readPos <= |recording|
    ensures BlockHeld(recording, buf, readPos, 0)
  {
  }

  /** Sender and reader work on disjoint parts of the buffer. */
  lemma PutKeepsSender(cfg: Config, recs: seq<seq<Byte>>, q: Queue, snd: Sender, at: nat, byte: Byte)
    requires SenderInv(cfg, recs, q, snd) && q.readEnd <= at < |q.buf|
    ensures SenderInv(cfg, recs, q.(buf := q.buf[at := byte]), snd)
  {
    var buf' := q.buf[at := byte];
    assert buf'[..q.readEnd] == q.buf[..q.readEnd];
    assert buf'[..snd.sendPos] == q.buf[..snd.sendPos];
  }

  lemma ExtendBlock(recording: seq<Byte>, buf: seq<Byte>, readPos: nat, j: nat)
    requires BlockHeld(recording, buf, readPos, j) && readPos + j < |buf| && readPos + j < |recording|
    ensures BlockHeld(recording, buf[readPos + j := recording[readPos + j]], readPos, j + 1)
  {
    var buf' := buf[readPos + j := recording[readPos + j]];
    assert buf'[readPos..readPos + j + 1] == buf[readPos..readPos + j] + [recording[readPos + j]];
    assert recording[readPos..readPos + j + 1] == recording[readPos..readPos + j] + [recording[readPos + j]];
  }

  /** A channel whose queue and reader have moved on. */
  lemma Reassembled(cfg: Config, ch: Channel, q: Queue, rd: Reader)
    requires cfg.Valid() && ChannelInv(cfg, ch, true) && SenderInv(cfg, ch.dma.recordings, q, ch.snd)
    requires PhaseInv(cfg, ch.dma, rd, q, |ch.snd.wire|, true) && StageInv(cfg, ch.dma, rd, q, |ch.snd.wire|)
    ensures ChannelInv(cfg, ch.(q := q, rd := rd), true)
  {
  }

  lemma CopyByteKeeps(cfg: Config, ch: Channel, j: nat)
    requires cfg.Valid() && ChannelInv(cfg, ch, true) && ch.rd.stage == Copying(j)
    requires j < BlockLength(cfg, ch.rd.readPos)
    ensures ChannelInv(cfg, AfterCopyByte(cfg, ch, j), true)
  {
    var q, rd := CopyByteStep(cfg, ch.dma, ch.rd, ch.q, ch.snd, j);
    CopyByteIs(cfg, ch, j, q, rd);
    Reassembled(cfg, ch, q, rd);
  }

  /** The byte that the reader fetches for position j of the block. */
  function Fetched(cfg: Config, dma: Dma, rd: Reader, j: nat): Byte
    requires 0 <= rd.startPos && 0 <= BlockLength(cfg, rd.readPos)
  {
    At(dma.ring, SourceIndex(rd.startPos, BlockLength(cfg, rd.readPos), cfg.ringSize, j), 0)
  }

  lemma CopyByteStep(cfg: Config, dma: Dma, rd: Reader, q: Queue, snd: Sender, j: nat) returns (q': Queue, rd': Reader)
    requires cfg.Valid() && DmaInv(cfg, dma) && SenderInv(cfg, dma.recordings, q, snd)
    requires PhaseInv(cfg, dma, rd, q, |snd.wire|, true) && StageInv(cfg, dma, rd, q, |snd.wire|)
    requires rd.stage == Copying(j) && j < BlockLength(cfg, rd.readPos)
    ensures 0 <= rd.startPos && rd.readPos + j < |q.buf|
    ensures q' == q.(buf := q.buf[rd.readPos + j := Fetched(cfg, dma, rd, j)]) && rd' == rd.(stage := Copying(j + 1))
    ensures SenderInv(cfg, dma.recordings, q', snd)
    ensures PhaseInv(cfg, dma, rd', q', |snd.wire|, true) && StageInv(cfg, dma, rd', q', |snd.wire|)
  {
    WhileCopying(cfg, dma, rd, q, |snd.wire|);
    CopiedByte(cfg, dma, rd, j);
    StageAfterByte(cfg, dma, rd, q, |snd.wire|, j);
    q', rd' := CopyByteParts(cfg, dma, rd, q, snd, j, Fetched(cfg, dma, rd, j));
  }

  lemma CopyByteParts(cfg: Config, dma: Dma, rd: Reader, q: Queue, snd: Sender, j: nat, byte: Byte)
    returns (q': Queue, rd': Reader)
    requires cfg.Valid() && SenderInv(cfg, dma.recordings, q, snd) && PhaseInv(cfg, dma, rd, q, |snd.wire|, true)
    requires rd.stage == Copying(j) && q.readEnd <= rd.readPos + j < |q.buf|
    requires StageInv(cfg, dma, rd.(stage := Copying(j + 1)), q.(buf := q.buf[rd.readPos + j := byte]), |snd.wire|)
    ensures q' == q.(buf := q.buf[rd.readPos + j := byte]) && rd' == rd.(stage := Copying(j + 1))
    ensures SenderInv(cfg, dma.recordings, q', snd)
    ensures PhaseInv(cfg, dma, rd', q', |snd.wire|, true) && StageInv(cfg, dma, rd', q', |snd.wire|)
  {
    q', rd' := q.(buf := q.buf[rd.readPos + j := byte]), rd.(stage := Copying(j + 1));
    PutKeepsSender(cfg, dma.recordings, q, snd, rd.readPos + j, byte);
    PhaseIgnoresCopying(cfg, dma, rd, q, |snd.wire|, j + 1, q'.buf);
  }

  lemma CopyByteIs(cfg: Config, ch: Channel, j: nat, q: Queue, rd: Reader)
    requires 0 <= ch.rd.startPos && 0 <= BlockLength(cfg, ch.rd.readPos) && ch.rd.readPos + j < |ch.q.buf|
    requires q == ch.q.(buf := ch.q.buf[ch.rd.readPos + j := Fetched(cfg, ch.dma, ch.rd, j)])
    requires rd == ch.rd.(stage := Copying(j + 1))
    ensures AfterCopyByte(cfg, ch, j) == ch.(q := q, rd := rd)
  {
  }

  lemma PhaseIgnoresCopying(cfg: Config, dma: Dma, rd: Reader, q: Queue, wires: nat, j: nat, buf: seq<Byte>)
    requires cfg.Valid() && PhaseInv(cfg, dma, rd, q, wires, true) && rd.stage.Copying?
    ensures PhaseInv(cfg, dma, rd.(stage := Copying(j)), q.(buf := buf), wires, true)
  {
  }

  /** What is known while a block is being copied. */
  lemma WhileCopying(cfg: Config, dma: Dma, rd: Reader, q: Queue, wires: nat)
    requires cfg.Valid() && rd.stage.Copying?
    requires PhaseInv(cfg, dma, rd, q, wires, true) && StageInv(cfg, dma, rd, q, wires)
    ensures q.readEnd == rd.readPos && Located(cfg, dma, rd.startPos, rd.readPos)
    ensures 0 <= BlockLength(cfg, rd.readPos) && rd.readPos + BlockLength(cfg, rd.readPos) <= cfg.Total()
    ensures Start(cfg, dma) + rd.readPos + BlockLength(cfg, rd.readPos) <= |dma.stream|
  {
  }

  /** The byte fetched is the next byte of the recording. */
  lemma CopiedByte(cfg: Config, dma: Dma, rd: Reader, j: nat)
    requires cfg.Valid() && DmaInv(cfg, dma) && Located(cfg, dma, rd.startPos, rd.readPos)
    requires j < BlockLength(cfg, rd.readPos) && rd.readPos + BlockLength(cfg, rd.readPos) <= cfg.Total()
    requires Start(cfg, dma) + rd.readPos + BlockLength(cfg, rd.readPos) <= |dma.stream|
    ensures 0 <= rd.startPos && rd.readPos + j < |Current(dma)|
    ensures Fetched(cfg, dma, rd, j) == Current(dma)[rd.readPos + j]
  {
    FetchedByte(cfg, dma, rd.startPos, rd.readPos, BlockLength(cfg, rd.readPos), j);
  }

  lemma StageAfterByte(cfg: Config, dma: Dma, rd: Reader, q: Queue, wires: nat, j: nat)
    requires cfg.Valid() && StageInv(cfg, dma, rd, q, wires) && rd.stage == Copying(j) && j < BlockLength(cfg, rd.readPos)
    requires rd.readPos + j < |q.buf| && rd.readPos + j < |Current(dma)|
    ensures
      var byte := Current(dma)[rd.readPos + j];
      StageInv(cfg, dma, rd.(stage := Copying(j + 1)), q.(buf := q.buf[rd.readPos + j := byte]), wires)
  {
    ExtendBlock(Current(dma), q.buf, rd.readPos, j);
  }

  lemma CopyDoneKeeps(cfg: Config, ch: Channel)
    requires cfg.Valid() && ChannelInv(cfg, ch, true) && ch.rd.stage.Copying?
    requires ch.rd.stage.copied >= BlockLength(cfg, ch.rd.readPos)
    ensures ChannelInv(cfg, ch.(rd := AfterCopy(cfg, ch.rd)), true)
  {
    BlockCopied(cfg, ch.dma, ch.rd, ch.q, |ch.snd.wire|);
  }

  lemma BlockCopied(cfg: Config, dma: Dma, rd: Reader, q: Queue, wires: nat)
    requires cfg.Valid() && |q.buf| == cfg.Total()
    requires PhaseInv(cfg, dma, rd, q, wires, true) && StageInv(cfg, dma, rd, q, wires)
    requires rd.stage.Copying? && rd.stage.copied >= BlockLength(cfg, rd.readPos)
    ensures PhaseInv(cfg, dma, AfterCopy(cfg, rd), q, wires, true)
    ensures StageInv(cfg, dma, AfterCopy(cfg, rd), q, wires)
  {
    AdvanceLocated(cfg, dma, rd.startPos, q.readEnd, BlockLength(cfg, rd.readPos));
  }

  lemma GrowQueue(cfg: Config, recs: seq<seq<Byte>>, q: Queue, snd: Sender, len: nat)
    requires SenderInv(cfg, recs, q, snd) && |snd.wire| < |recs|
    requires BlockHeld(recs[|snd.wire|], q.buf, q.readEnd, len)
    ensures SenderInv(cfg, recs, q.(readEnd := q.readEnd + len), snd)
  {
    var upTo := q.readEnd + len;
    assert q.buf[..upTo] == q.buf[..q.readEnd] + q.buf[q.readEnd..upTo];
  }

  lemma CommitKeeps(cfg: Config, ch: Channel)
    requires cfg.Valid() && ChannelInv(cfg, ch, true) && ch.rd.stage.Copied?
    ensures ChannelInv(cfg, AfterCommit(cfg, ch), true)
  {
    var q, rd := CommitParts(cfg, ch.dma, ch.rd, ch.q, ch.snd);
    assert AfterCommit(cfg, ch) == ch.(q := q, rd := rd);
    Reassembled(cfg, ch, q, rd);
  }

  lemma CommitParts(cfg: Config, dma: Dma, rd: Reader, q: Queue, snd: Sender) returns (q': Queue, rd': Reader)
    requires cfg.Valid() && SenderInv(cfg, dma.recordings, q, snd) && rd.stage.Copied?
    requires PhaseInv(cfg, dma, rd, q, |snd.wire|, true) && StageInv(cfg, dma, rd, q, |snd.wire|)
    ensures q.readEnd == rd.readPos && 0 <= BlockLength(cfg, rd.readPos)
    ensures q' == q.(readEnd := q.readEnd + BlockLength(cfg, rd.readPos)) && rd' == rd.(stage := Idle)
    ensures SenderInv(cfg, dma.recordings, q', snd)
    ensures PhaseInv(cfg, dma, rd', q', |snd.wire|, true) && StageInv(cfg, dma, rd', q', |snd.wire|)
  {
    var len := BlockLength(cfg, rd.readPos);
    CommitIs(cfg, dma, rd, q, |snd.wire|);
    q', rd' := q.(readEnd := q.readEnd + len), rd.(stage := Idle);
    GrowQueue(cfg, dma.recordings, q, snd, len);
    CommitPhase(cfg, dma, rd, q, |snd.wire|);
  }

  /** The commit finds `readEnd` where the reader left it. */
  lemma CommitIs(cfg: Config, dma: Dma, rd: Reader, q: Queue, wires: nat)
    requires cfg.Valid() && rd.stage.Copied? && StageInv(cfg, dma, rd, q, wires)
    ensures q.readEnd == rd.readPos && 0 <= BlockLength(cfg, rd.readPos) && wires < |dma.recordings|
    ensures BlockHeld(dma.recordings[wires], q.buf, q.readEnd, BlockLength(cfg, rd.readPos))
    ensures StageInv(cfg, dma, rd.(stage := Idle), q.(readEnd := q.readEnd + BlockLength(cfg, rd.readPos)), wires)
  {
  }

  lemma CommitPhase(cfg: Config, dma: Dma, rd: Reader, q: Queue, wires: nat)
    requires cfg.Valid() && rd.stage.Copied? && PhaseInv(cfg, dma, rd, q, wires, true) && StageInv(cfg, dma, rd, q, wires)
    requires |q.buf| == cfg.Total()
    ensures PhaseInv(cfg, dma, rd.(stage := Idle), q.(readEnd := q.readEnd + BlockLength(cfg, rd.readPos)), wires, true)
  {
  }

  /** Serving a channel stays within its block of code, or leaves it idle. */
  lemma ServeShape(cfg: Config, ch: Channel, strict: bool)
    requires cfg.Valid() && InService(ch.rd.stage)
    ensures AfterServe(cfg, ch, strict).rd.stage.Idle? || InService(AfterServe(cfg, ch, strict).rd.stage)
    ensures AfterServe(cfg, ch, strict).dma == ch.dma
  {
  }

  lemma ServeKeeps(cfg: Config, ch: Channel, strict: bool)
    requires cfg.Valid() && ChannelInv(cfg, ch, true) && InService(ch.rd.stage)
    ensures ChannelInv(cfg, AfterServe(cfg, ch, strict), true)
  {
    match ch.rd.stage
    case GotCurr => TestKeeps(cfg, ch, strict);
    case Copying(j) =>
      if j < BlockLength(cfg, ch.rd.readPos) {
        CopyByteKeeps(cfg, ch, j);
      } else {
        CopyDoneKeeps(cfg, ch);
      }
    case Copied => CommitKeeps(cfg, ch);
  }

  // ---------------------------------------------------------------- whole runs

  lemma InitialInv(cfg: Config, s: State)
    requires cfg.Valid() && Initial(cfg, s)
    ensures Inv(cfg, s)
  {
    UnrollMirrors(cfg, s.a.dma.ring, s.a.dma.base);
    UnrollMirrors(cfg, s.b.dma.ring, s.b.dma.base);
  }

  /** Replacing one channel by one that satisfies its invariant, its reader's locals unchanged. */
  lemma ReplaceKeeps(cfg: Config, s: State, c: ChannelId, ch: Channel)
    requires cfg.Valid() && Inv(cfg, s) && ChannelInv(cfg, ch, TriggerSeen(s.pc))
    requires ch.rd == s.Get(c).rd && |ch.dma.recordings| == |s.Get(c).dma.recordings|
    ensures Inv(cfg, s.With(c, ch))
  {
  }

  /** The same when the reader, past the trigger, moves on with its locals for channel c. */
  lemma ReaderReplaceKeeps(cfg: Config, s: State, c: ChannelId, ch: Channel, pc: ReaderPc)
    requires cfg.Valid() && Inv(cfg, s) && TriggerSeen(s.pc) && TriggerSeen(pc) && ChannelInv(cfg, ch, true)
    requires |ch.dma.recordings| == |s.Get(c).dma.recordings|
    requires StagesMatch(pc, s.With(c, ch).a.rd, s.With(c, ch).b.rd)
    ensures Inv(cfg, s.With(c, ch).(pc := pc))
  {
  }

  lemma UnseenKeeps(cfg: Config, ch: Channel, seen: bool)
    requires cfg.Valid() && ChannelInv(cfg, ch, seen)
    ensures ChannelInv(cfg, ch, false)
  {
  }

  lemma ReaderServeKeeps(cfg: Config, s: State)
    requires cfg.Valid() && Inv(cfg, s) && s.pc.Serve?
    ensures Inv(cfg, AfterReader(cfg, s, 0, 0))
  {
    var c := s.pc.c;
    ServeKeeps(cfg, s.Get(c), c == B);
    ServeShape(cfg, s.Get(c), c == B);
    ReaderServed(cfg, s, AfterServe(cfg, s.Get(c), c == B));
  }

  lemma ReaderServed(cfg: Config, s: State, ch: Channel)
    requires cfg.Valid() && Inv(cfg, s) && s.pc.Serve? && ChannelInv(cfg, ch, true)
    requires ch.rd.stage.Idle? || InService(ch.rd.stage)
    requires ch.dma == s.Get(s.pc.c).dma
    ensures Inv(cfg, s.With(s.pc.c, ch).(
      pc := if ch.rd.stage.Idle? then (if s.pc.c == A then Serve(B) else PassEnd) else s.pc))
  {
  }

  lemma ReaderFetchEndKeeps(cfg: Config, s: State)
    requires cfg.Valid() && Inv(cfg, s) && s.pc.FetchEnd?
    ensures Inv(cfg, AfterReader(cfg, s, 0, 0))
  {
    var c := s.pc.c;
    var ch := s.Get(c);
    FetchEndKeeps(cfg, ch);
    ReaderReplaceKeeps(cfg, s, c, ch.(rd := AfterFetchEnd(ch.q, ch.rd)), if c == A then FetchEnd(B) else FetchCurr(A));
  }

  lemma ReaderFetchCurrKeeps(cfg: Config, s: State)
    requires cfg.Valid() && Inv(cfg, s) && s.pc.FetchCurr?
    ensures Inv(cfg, AfterReader(cfg, s, 0, 0))
  {
    var c := s.pc.c;
    var ch := s.Get(c);
    FetchCurrKeeps(cfg, ch);
    ReaderReplaceKeeps(cfg, s, c, ch.(rd := AfterFetchCurr(cfg, ch.dma, ch.rd)), if c == A then FetchCurr(B) else Serve(A));
  }

  lemma ReaderOuterKeeps(cfg: Config, s: State, baseA: nat, baseB: nat)
    requires cfg.Valid() && Inv(cfg, s) && Enabled(cfg, s, ReaderStep(baseA, baseB))
    requires s.pc.Arm? || s.pc.AwaitTrigger?
    ensures Inv(cfg, AfterReader(cfg, s, baseA, baseB))
  {
    if s.pc.Arm? {
      ArmKeeps(cfg, s.a, baseA);
      ArmKeeps(cfg, s.b, baseB);
    } else {
      TriggerSeenKeeps(cfg, s.a);
      TriggerSeenKeeps(cfg, s.b);
    }
  }

  lemma ReaderPassEndKeeps(cfg: Config, s: State)
    requires cfg.Valid() && Inv(cfg, s) && s.pc.PassEnd?
    ensures Inv(cfg, AfterReader(cfg, s, 0, 0))
  {
    UnseenKeeps(cfg, s.a, true);
    UnseenKeeps(cfg, s.b, true);
  }

  lemma TriggerFiresKeeps(cfg: Config, s: State)
    requires cfg.Valid() && Inv(cfg, s) && Enabled(cfg, s, TriggerFires)
    ensures Inv(cfg, Apply(cfg, s, TriggerFires))
  {
    TriggerKeeps(cfg, s.a);
    TriggerKeeps(cfg, s.b);
  }

  lemma ReaderStopsKeeps(cfg: Config, s: State)
    requires cfg.Valid() && Inv(cfg, s)
    ensures Inv(cfg, s.(pc := ReaderExited))
  {
    UnseenKeeps(cfg, s.a, TriggerSeen(s.pc));
    UnseenKeeps(cfg, s.b, TriggerSeen(s.pc));
  }

  lemma DmaStepKeeps(cfg: Config, s: State, c: ChannelId, byte: Byte)
    requires cfg.Valid() && Inv(cfg, s) && Enabled(cfg, s, WriteByte(c, byte))
    ensures Inv(cfg, Apply(cfg, s, WriteByte(c, byte)))
  {
    var ch := s.Get(c);
    WriteKeeps(cfg, ch, byte, TriggerSeen(s.pc));
    ReplaceKeeps(cfg, s, c, ch.(dma := AfterWrite(cfg, ch.dma, byte)));
  }

  lemma LockStepKeeps(cfg: Config, s: State, c: ChannelId)
    requires cfg.Valid() && Inv(cfg, s) && Enabled(cfg, s, SenderLock(c))
    ensures Inv(cfg, Apply(cfg, s, SenderLock(c)))
  {
    var ch := s.Get(c);
    var (q, snd) := AfterSenderLock(cfg, ch.q, ch.snd);
    SenderLockKeeps(cfg, ch, TriggerSeen(s.pc));
    ReplaceKeeps(cfg, s, c, ch.(q := q, snd := snd));
  }

  lemma SendByteStepKeeps(cfg: Config, s: State, c: ChannelId)
    requires cfg.Valid() && Inv(cfg, s) && Enabled(cfg, s, SendByte(c))
    ensures Inv(cfg, Apply(cfg, s, SendByte(c)))
  {
    var ch := s.Get(c);
    SendByteKeeps(cfg, ch, TriggerSeen(s.pc));
    ReplaceKeeps(cfg, s, c, ch.(snd := AfterSendByte(ch.q, ch.snd)));
  }

  lemma SendReturnsStepKeeps(cfg: Config, s: State, c: ChannelId)
    requires cfg.Valid() && Inv(cfg, s) && Enabled(cfg, s, SendReturns(c))
    ensures Inv(cfg, Apply(cfg, s, SendReturns(c)))
  {
    var ch := s.Get(c);
    SendReturnsKeeps(cfg, ch, TriggerSeen(s.pc));
    ReplaceKeeps(cfg, s, c, ch.(snd := AfterSendReturns(ch.snd)));
  }

  lemma SenderStopsStepKeeps(cfg: Config, s: State, c: ChannelId)
    requires cfg.Valid() && Inv(cfg, s) && Enabled(cfg, s, SenderStops(c))
    ensures Inv(cfg, Apply(cfg, s, SenderStops(c)))
  {
    var ch := s.Get(c);
    SenderStopsKeeps(cfg, ch, TriggerSeen(s.pc));
    ReplaceKeeps(cfg, s, c, ch.(snd := ch.snd.(pc := SenderExited)));
  }

  lemma ReaderStepKeeps(cfg: Config, s: State, baseA: nat, baseB: nat)
    requires cfg.Valid() && Inv(cfg, s) && Enabled(cfg, s, ReaderStep(baseA, baseB))
    ensures Inv(cfg, AfterReader(cfg, s, baseA, baseB))
  {
    match s.pc
    case Serve(_) => ReaderServeKeeps(cfg, s);
    case PassEnd => ReaderPassEndKeeps(cfg, s);
    case FetchEnd(_) => ReaderFetchEndKeeps(cfg, s);
    case FetchCurr(_) => ReaderFetchCurrKeeps(cfg, s);
    case Arm => ReaderOuterKeeps(cfg, s, baseA, baseB);
    case AwaitTrigger => ReaderOuterKeeps(cfg, s, baseA, baseB);
  }

  lemma SenderStepKeeps(cfg: Config, s: State, act: Action)
    requires cfg.Valid() && Inv(cfg, s) && Enabled(cfg, s, act)
    requires act.SenderLock? || act.SendByte? || act.SendReturns? || act.SenderStops?
    ensures Inv(cfg, Apply(cfg, s, act))
  {
    match act
    case SenderLock(c) => LockStepKeeps(cfg, s, c);
    case SendByte(c) => SendByteStepKeeps(cfg, s, c);
    case SendReturns(c) => SendReturnsStepKeeps(cfg, s, c);
    case SenderStops(c) => SenderStopsStepKeeps(cfg, s, c);
  }

  lemma StepKeeps(cfg: Config, s: State, act: Action)
    requires cfg.Valid() && Inv(cfg, s) && Enabled(cfg, s, act)
    ensures Inv(cfg, Apply(cfg, s, act))
  {
    match act
    case WriteByte(c, byte) => DmaStepKeeps(cfg, s, c, byte);
    case TriggerFires => TriggerFiresKeeps(cfg, s);
    case ReaderStep(baseA, baseB) => ReaderStepKeeps(cfg, s, baseA, baseB);
    case ReaderStops => ReaderStopsKeeps(cfg, s);
    case _ => SenderStepKeeps(cfg, s, act);
  }

  lemma {:induction false} RunKeeps(cfg: Config, states: seq<State>, acts: seq<Action>, n: nat)
    requires cfg.Valid() && IsExecution(cfg, states, acts) && Inv(cfg, states[0]) && n < |states|
    ensures Inv(cfg, states[n])
  {
    if n > 0 {
      RunKeeps(cfg, states, acts, n - 1);
      StepKeeps(cfg, states[n - 1], acts[n - 1]);
    }
  }

  lemma ReachableChannel(cfg: Config, states: seq<State>, acts: seq<Action>, n: nat, c: ChannelId)
    requires cfg.Valid() && IsExecution(cfg, states, acts) && Initial(cfg, states[0]) && n < |states|
    ensures ChannelInv(cfg, states[n].Get(c), TriggerSeen(states[n].pc))
  {
    InitialInv(cfg, states[0]);
    RunKeeps(cfg, states, acts, n);
  }

  /** Every complete transmission is the first Total() bytes of the recording of the same acquisition,
      and the one under way is a prefix of its recording. */
  ghost predicate Faithful(cfg: Config, recordings: seq<seq<Byte>>, snd: Sender) {
    && |snd.wire| <= |recordings|
    && (forall i :: 0 <= i < |snd.wire| ==>
          cfg.Total() <= |recordings[i]| && snd.wire[i] == recordings[i][..cfg.Total()])
    && (snd.sent != [] ==> |snd.wire| < |recordings| && snd.sent <= recordings[|snd.wire|])
  }

  lemma InvIsFaithful(cfg: Config, recordings: seq<seq<Byte>>, q: Queue, snd: Sender)
    requires SenderInv(cfg, recordings, q, snd) && WireInv(cfg, recordings, snd.wire)
    ensures Faithful(cfg, recordings, snd)
  {
    if snd.wire != [] {
      assert snd.wire[|snd.wire| - 1] == recordings[|snd.wire| - 1][..cfg.Total()];
    }
  }

  /** In every interleaving, on both channels, across ring wrap-around, short sends and re-arming. */
  lemma TransmissionsAreRecordings(cfg: Config, states: seq<State>, acts: seq<Action>, n: nat, c: ChannelId)
    requires cfg.Valid() && IsExecution(cfg, states, acts) && Initial(cfg, states[0]) && n < |states|
    ensures Faithful(cfg, states[n].Get(c).dma.recordings, states[n].Get(c).snd)
  {
    ReachableChannel(cfg, states, acts, n, c);
    InvIsFaithful(cfg, states[n].Get(c).dma.recordings, states[n].Get(c).q, states[n].Get(c).snd);
  }

  /** What the current recording is: the ring's byte stream from preTrigger samples before the trigger,
      the newest ringSize bytes of which are still in the ring. */
  lemma CurrentRecording(cfg: Config, states: seq<State>, acts: seq<Action>, n: nat, c: ChannelId)
    requires cfg.Valid() && IsExecution(cfg, states, acts) && Initial(cfg, states[0]) && n < |states|
    requires states[n].Get(c).dma.trigger.Some?
    ensures
      var dma := states[n].Get(c).dma;
      && 0 <= Start(cfg, dma) <= |dma.stream|
      && Current(dma) == dma.stream[Start(cfg, dma)..]
      && |Current(dma)| <= cfg.Total() + 2 * cfg.margin < cfg.ringSize
      && Mirrors(cfg, dma.ring, dma.base, dma.stream)
  {
    ReachableChannel(cfg, states, acts, n, c);
  }

  /** The positions are ordered; the region the reader fills lies inside the buffer and above everything
      the sender may read; what the reader still has to fetch has not been overwritten in the ring; and
      `readEnd` is where the reader left it. */
  ghost predicate Disjoint(cfg: Config, ch: Channel) {
    && ch.snd.sendPos <= ch.q.readEnd <= cfg.Total() == |ch.q.buf|
    && (ch.snd.pc.Sending? ==>
          ch.snd.sendPos + |ch.snd.pc.staged| <= ch.snd.sendPos + ch.snd.length <= ch.q.readEnd)
    && (ch.rd.stage.Copying? || ch.rd.stage.Copied? ==> (
          && ch.q.readEnd == ch.rd.readPos
          && 0 < BlockLength(cfg, ch.rd.readPos) <= cfg.Total() - ch.rd.readPos))
    && (ch.rd.stage.Copying? ==>
          ch.dma.trigger.Some? && |ch.dma.stream| - cfg.ringSize <= Start(cfg, ch.dma) + ch.rd.readPos)
  }

  lemma InvIsDisjoint(cfg: Config, ch: Channel, seen: bool)
    requires cfg.Valid() && ChannelInv(cfg, ch, seen)
    ensures Disjoint(cfg, ch)
  {
  }

  /** In every reachable state; hence a commit never takes the "sender resetted" branch. */
  lemma RegionsAreDisjoint(cfg: Config, states: seq<State>, acts: seq<Action>, n: nat, c: ChannelId)
    requires cfg.Valid() && IsExecution(cfg, states, acts) && Initial(cfg, states[0]) && n < |states|
    ensures Disjoint(cfg, states[n].Get(c))
  {
    ReachableChannel(cfg, states, acts, n, c);
    InvIsDisjoint(cfg, states[n].Get(c), TriggerSeen(states[n].pc));
  }

  ghost predicate Grows(s: State, s': State, c: ChannelId) {
    Extends(s.Get(c).dma.recordings, s'.Get(c).dma.recordings) && s.Get(c).snd.wire <= s'.Get(c).snd.wire
  }

  /** What has been recorded or transmitted is never rewritten later in the run. */
  lemma HistoryGrows(cfg: Config, states: seq<State>, acts: seq<Action>, m: nat, n: nat, c: ChannelId)
    requires cfg.Valid() && IsExecution(cfg, states, acts) && Initial(cfg, states[0]) && m <= n < |states|
    ensures Grows(states[m], states[n], c)
  {
    InitialInv(cfg, states[0]);
    forall i | 0 <= i < |acts|
      ensures Grows(states[i], states[i + 1], c)
    {
      NothingBeforeTrigger(cfg, states, acts, i, c);
      StepGrows(cfg, states[i], acts[i], c);
    }
    GrowsThroughout(states, m, n, c);
  }

  lemma {:induction false} GrowsThroughout(states: seq<State>, m: nat, n: nat, c: ChannelId)
    requires m <= n < |states|
    requires forall i :: 0 <= i < |states| - 1 ==> Grows(states[i], states[i + 1], c)
    ensures Grows(states[m], states[n], c)
  {
    if m < n {
      GrowsThroughout(states, m, n - 1, c);
      assert Grows(states[n - 1], states[n - 1 + 1], c);
      ExtendsTransitive(states[m].Get(c).dma.recordings, states[n - 1].Get(c).dma.recordings,
                        states[n].Get(c).dma.recordings);
    }
  }

  lemma ExtendsTransitive(r0: seq<seq<Byte>>, r1: seq<seq<Byte>>, r2: seq<seq<Byte>>)
    requires Extends(r0, r1) && Extends(r1, r2)
    ensures Extends(r0, r2)
  {
    forall i | 0 <= i < |r0|
      ensures r0[i] <= r2[i]
    {
      assert r0[i] <= r1[i] <= r2[i];
    }
  }

  lemma NothingBeforeTrigger(cfg: Config, states: seq<State>, acts: seq<Action>, n: nat, c: ChannelId)
    requires cfg.Valid() && IsExecution(cfg, states, acts) && Inv(cfg, states[0]) && n < |states|
    ensures states[n].Get(c).dma.trigger.None? ==> Current(states[n].Get(c).dma) == []
  {
    RunKeeps(cfg, states, acts, n);
    assert DmaInv(cfg, states[n].Get(c).dma);
  }

  lemma WriteGrows(cfg: Config, dma: Dma, byte: Byte)
    requires cfg.Valid()
    ensures Extends(dma.recordings, AfterWrite(cfg, dma, byte).recordings)
  {
  }

  lemma TriggerGrows(cfg: Config, dma: Dma)
    requires Current(dma) == []
    ensures Extends(dma.recordings, AfterTrigger(cfg, dma).recordings)
  {
  }

  lemma ExtendsItself(recs: seq<seq<Byte>>)
    ensures Extends(recs, recs)
  {
  }

  lemma ReaderGrows(cfg: Config, s: State, baseA: nat, baseB: nat, c: ChannelId)
    requires cfg.Valid() && Enabled(cfg, s, ReaderStep(baseA, baseB))
    ensures Grows(s, AfterReader(cfg, s, baseA, baseB), c)
  {
    if s.pc.Serve? {
      ServeKeepsHistory(cfg, s.Get(s.pc.c), s.pc.c == B);
    }
  }

  lemma SenderGrows(cfg: Config, s: State, act: Action, c: ChannelId)
    requires cfg.Valid() && Enabled(cfg, s, act)
    requires act.SenderLock? || act.SendByte? || act.SendReturns? || act.SenderStops?
    ensures Grows(s, Apply(cfg, s, act), c)
  {
  }

  lemma StepGrows(cfg: Config, s: State, act: Action, c: ChannelId)
    requires cfg.Valid() && Enabled(cfg, s, act)
    requires s.Get(c).dma.trigger.None? ==> Current(s.Get(c).dma) == []
    ensures Grows(s, Apply(cfg, s, act), c)
  {
    ExtendsItself(s.Get(c).dma.recordings);
    match act
    case WriteByte(_, byte) => WriteGrows(cfg, s.Get(c).dma, byte);
    case TriggerFires => TriggerGrows(cfg, s.Get(c).dma);
    case ReaderStep(baseA, baseB) => ReaderGrows(cfg, s, baseA, baseB, c);
    case ReaderStops =>
    case _ => SenderGrows(cfg, s, act, c);
  }

  lemma ServeKeepsHistory(cfg: Config, ch: Channel, strict: bool)
    requires cfg.Valid()
    ensures AfterServe(cfg, ch, strict).dma == ch.dma && AfterServe(cfg, ch, strict).snd == ch.snd
  {
  }

  // ---------------------------------------------------------------- progress once recording has stopped

  ghost predicate Stopped(cfg: Config, dma: Dma) {
    dma.trigger.Some? && |dma.stream| == dma.trigger.value + cfg.Post()
  }

  /** Recording has stopped, the sender has reset the queue before the reader looks at it for the first
      time, and the reader has not sampled a write pointer from before the stop. */
  ghost predicate Settled(cfg: Config, ch: Channel) {
    && Stopped(cfg, ch.dma)
    && (ch.rd.first ==>
          ch.q.readEnd == 0 && (ch.rd.stage.Idle? || (ch.rd.stage.GotEnd? && ch.rd.readPos == 0)))
    && (ch.rd.ready && ch.rd.stage.GotCurr? ==> ch.rd.currAbs == |ch.dma.stream|)
  }

  /** Bytes of the current recording that the reader has put into the queue. */
  ghost function Progress(cfg: Config, ch: Channel): int {
    if ch.rd.first || ch.rd.ready || ch.rd.stage.Copied? then ch.q.readEnd else cfg.Total()
  }

  /** With recording stopped a full block is always available. For the strict test this needs the
      samples recorded beyond the acquisition length: without them it fails on the last block. */
  lemma BlockIsAvailable(cfg: Config, ch: Channel, strict: bool)
    requires cfg.Valid() && ChannelInv(cfg, ch, true) && Settled(cfg, ch)
    requires ch.rd.stage.GotCurr? && ch.rd.ready
    ensures BlockAvailable(cfg, ch.rd, strict) <==>
      !strict || cfg.margin > 0 || ch.rd.readPos + BlockLength(cfg, ch.rd.readPos) < cfg.Total()
  {
    DistanceIsLeft(cfg, ch.dma, ch.rd, ch.q);
  }

  /** A pass over an unfinished channel ends only by committing a block. */
  lemma ServeProgress(cfg: Config, ch: Channel, strict: bool)
    requires cfg.Valid() && ChannelInv(cfg, ch, true) && Settled(cfg, ch) && InService(ch.rd.stage)
    requires strict ==> cfg.margin > 0
    ensures
      var ch' := AfterServe(cfg, ch, strict);
      && Settled(cfg, ch')
      && Progress(cfg, ch') ==
        if ch'.rd.stage.Idle? then Min(Progress(cfg, ch) + cfg.readBlock, cfg.Total()) else Progress(cfg, ch)
  {
    if ch.rd.stage.GotCurr? && ch.rd.ready {
      BlockIsAvailable(cfg, ch, strict);
    }
  }

  lemma LockProgress(cfg: Config, ch: Channel)
    requires cfg.Valid() && ChannelInv(cfg, ch, true) && Settled(cfg, ch)
    ensures
      var (q, snd) := AfterSenderLock(cfg, ch.q, ch.snd);
      var ch' := ch.(q := q, snd := snd);
      Settled(cfg, ch') && Progress(cfg, ch') == Progress(cfg, ch)
  {
  }

  lemma FetchProgress(cfg: Config, ch: Channel)
    requires cfg.Valid() && ChannelInv(cfg, ch, true) && Settled(cfg, ch)
    ensures ch.rd.stage.Idle? ==>
      var ch' := ch.(rd := AfterFetchEnd(ch.q, ch.rd));
      Settled(cfg, ch') && Progress(cfg, ch') == Progress(cfg, ch)
    ensures ch.rd.stage.GotEnd? ==>
      var ch' := ch.(rd := AfterFetchCurr(cfg, ch.dma, ch.rd));
      Settled(cfg, ch') && Progress(cfg, ch') == Progress(cfg, ch)
  {
  }

  ghost predicate PassEnds(s: State, s': State, c: ChannelId) {
    s.pc == Serve(c) && s'.pc != Serve(c)
  }

  /** What one step of the run does to the progress of channel c. */
  ghost predicate Progresses(cfg: Config, s: State, s': State, c: ChannelId) {
    && Settled(cfg, s'.Get(c))
    && Progress(cfg, s'.Get(c)) ==
      if PassEnds(s, s', c) then Min(Progress(cfg, s.Get(c)) + cfg.readBlock, cfg.Total())
      else Progress(cfg, s.Get(c))
  }

  lemma ReaderProgress(cfg: Config, s: State, c: ChannelId)
    requires cfg.Valid() && ChannelInv(cfg, s.Get(c), true) && StagesMatch(s.pc, s.a.rd, s.b.rd)
    requires Settled(cfg, s.Get(c)) && TriggerSeen(s.pc) && (c == B ==> cfg.margin > 0)
    ensures Progresses(cfg, s, AfterReader(cfg, s, 0, 0), c)
  {
    if s.pc.Serve? && s.pc.c == c {
      ServeProgress(cfg, s.Get(c), c == B);
    } else if s.pc.FetchEnd? || s.pc.FetchCurr? {
      FetchProgress(cfg, s.Get(c));
    }
  }

  /** A step that leaves the reader and the queue of channel c alone. */
  lemma QuietStep(cfg: Config, s: State, s': State, c: ChannelId)
    requires Settled(cfg, s.Get(c)) && s'.pc == s.pc
    requires s'.Get(c).dma == s.Get(c).dma && s'.Get(c).rd == s.Get(c).rd && s'.Get(c).q == s.Get(c).q
    ensures Progresses(cfg, s, s', c)
  {
  }

  lemma SenderProgress(cfg: Config, s: State, act: Action, c: ChannelId)
    requires cfg.Valid() && ChannelInv(cfg, s.Get(c), true) && Settled(cfg, s.Get(c)) && Enabled(cfg, s, act)
    requires act.SenderLock? || act.SendByte? || act.SendReturns? || act.SenderStops?
    ensures Progresses(cfg, s, Apply(cfg, s, act), c)
  {
    if act.c == c && act.SenderLock? {
      LockProgress(cfg, s.Get(c));
    } else {
      QuietStep(cfg, s, Apply(cfg, s, act), c);
    }
  }

  /** One step of anyone, within one acquisition. */
  lemma StepProgress(cfg: Config, s: State, act: Action, c: ChannelId)
    requires cfg.Valid() && ChannelInv(cfg, s.Get(c), true) && StagesMatch(s.pc, s.a.rd, s.b.rd)
    requires Settled(cfg, s.Get(c)) && Enabled(cfg, s, act) && (c == B ==> cfg.margin > 0)
    requires TriggerSeen(s.pc) && TriggerSeen(Apply(cfg, s, act).pc)
    ensures Progresses(cfg, s, Apply(cfg, s, act), c)
  {
    match act
    case WriteByte(_, _) => QuietStep(cfg, s, Apply(cfg, s, act), c);
    case ReaderStep(_, _) => ReaderProgress(cfg, s, c);
    case TriggerFires =>
    case ReaderStops =>
    case _ => SenderProgress(cfg, s, act, c);
  }

  /** Passes of the reader's inner loop over channel c that end between states m and n. */
  ghost function Passes(states: seq<State>, m: nat, n: nat, c: ChannelId): nat
    requires m <= n < |states|
  {
    if m == n then 0
    else Passes(states, m, n - 1, c) + if PassEnds(states[n - 1], states[n], c) then 1 else 0
  }

  /** `passes` full blocks further than `from`, but never beyond the end. */
  ghost function Advanced(cfg: Config, from: int, passes: nat): int {
    Min(from + passes * cfg.readBlock, cfg.Total())
  }

  lemma {:induction false} ProgressThroughout(cfg: Config, states: seq<State>, m: nat, n: nat, c: ChannelId)
    requires cfg.Valid() && m <= n < |states|
    requires Settled(cfg, states[m].Get(c)) && Progress(cfg, states[m].Get(c)) <= cfg.Total()
    requires forall i :: m <= i < n && Settled(cfg, states[i].Get(c)) ==> Progresses(cfg, states[i], states[i + 1], c)
    ensures Settled(cfg, states[n].Get(c))
    ensures Progress(cfg, states[n].Get(c)) ==
      Advanced(cfg, Progress(cfg, states[m].Get(c)), Passes(states, m, n, c))
  {
    if m == n {
      OneMorePass(cfg, Progress(cfg, states[m].Get(c)), 0);
    } else {
      ProgressThroughout(cfg, states, m, n - 1, c);
      assert Progresses(cfg, states[n - 1], states[n - 1 + 1], c);
      OneMorePass(cfg, Progress(cfg, states[m].Get(c)), Passes(states, m, n - 1, c));
    }
  }

  lemma OneMorePass(cfg: Config, from: int, passes: nat)
    requires from <= cfg.Total()
    ensures Advanced(cfg, from, 0) == from
    ensures Advanced(cfg, from, passes + 1) == Min(Advanced(cfg, from, passes) + cfg.readBlock, cfg.Total())
  {
    assert (passes + 1) * cfg.readBlock == passes * cfg.readBlock + cfg.readBlock;
  }

  /** Once recording has stopped and the sender has reset, every pass of the reader, on either channel and
      whatever the other threads do, copies one block until exactly Total() bytes are copied, and the
      channel is then finished. */
  lemma EveryPassCopies(cfg: Config, states: seq<State>, acts: seq<Action>, m: nat, n: nat, c: ChannelId)
    requires cfg.Valid() && IsExecution(cfg, states, acts) && Initial(cfg, states[0]) && m <= n < |states|
    requires forall i :: m <= i <= n ==> TriggerSeen(states[i].pc)
    requires c == B ==> cfg.margin > 0
    requires states[m].pc == FetchEnd(A) && Stopped(cfg, states[m].Get(c).dma)
    requires states[m].Get(c).rd.first ==> states[m].Get(c).q.readEnd == 0
    ensures
      var copied := Advanced(cfg, Progress(cfg, states[m].Get(c)), Passes(states, m, n, c));
      var ch := states[n].Get(c);
      && Progress(cfg, ch) == copied
      && (copied == cfg.Total() <==> !ch.rd.first && !ch.rd.ready && !ch.rd.stage.Copied?)
  {
    forall i | m <= i < n && Settled(cfg, states[i].Get(c))
      ensures Progresses(cfg, states[i], states[i + 1], c)
    {
      ReachableStepProgresses(cfg, states, acts, i, c);
    }
    StartsSettled(cfg, states, acts, m, c);
    ProgressThroughout(cfg, states, m, n, c);
    ReachableBounds(cfg, states, acts, n, c);
  }

  lemma ReachableBounds(cfg: Config, states: seq<State>, acts: seq<Action>, n: nat, c: ChannelId)
    requires cfg.Valid() && IsExecution(cfg, states, acts) && Initial(cfg, states[0]) && n < |states|
    ensures Progress(cfg, states[n].Get(c)) <= cfg.Total()
    ensures states[n].Get(c).rd.ready || states[n].Get(c).rd.stage.Copied? ==> Progress(cfg, states[n].Get(c)) < cfg.Total()
  {
    ReachableChannel(cfg, states, acts, n, c);
    InvBoundsProgress(cfg, states[n].Get(c), TriggerSeen(states[n].pc));
  }

  lemma ReachableStepProgresses(cfg: Config, states: seq<State>, acts: seq<Action>, i: nat, c: ChannelId)
    requires cfg.Valid() && IsExecution(cfg, states, acts) && Initial(cfg, states[0]) && i < |acts|
    requires c == B ==> cfg.margin > 0
    requires TriggerSeen(states[i].pc) && TriggerSeen(states[i + 1].pc) && Settled(cfg, states[i].Get(c))
    ensures Progresses(cfg, states[i], states[i + 1], c)
  {
    InitialInv(cfg, states[0]);
    RunKeeps(cfg, states, acts, i);
    StepProgress(cfg, states[i], acts[i], c);
  }

  lemma StartsSettled(cfg: Config, states: seq<State>, acts: seq<Action>, m: nat, c: ChannelId)
    requires cfg.Valid() && IsExecution(cfg, states, acts) && Initial(cfg, states[0]) && m < |states|
    requires states[m].pc == FetchEnd(A) && Stopped(cfg, states[m].Get(c).dma)
    requires states[m].Get(c).rd.first ==> states[m].Get(c).q.readEnd == 0
    ensures Settled(cfg, states[m].Get(c)) && Progress(cfg, states[m].Get(c)) <= cfg.Total()
  {
    InitialInv(cfg, states[0]);
    RunKeeps(cfg, states, acts, m);
    ReachableBounds(cfg, states, acts, m, c);
  }

  lemma InvBoundsProgress(cfg: Config, ch: Channel, seen: bool)
    requires cfg.Valid() && ChannelInv(cfg, ch, seen)
    ensures Progress(cfg, ch) <= cfg.Total()
    ensures ch.rd.ready || ch.rd.stage.Copied? ==> Progress(cfg, ch) < cfg.Total()
  {
  }

  // ---------------------------------------------------------------- every pass ends

  /** The most steps that serving a channel may still take. */
  function ServiceLeft(cfg: Config, stage: Stage): int {
    match stage
    case GotCurr => cfg.readBlock + 3
    case Copying(j) => cfg.readBlock - j + 2
    case Copied => 1
    case Idle => 0
    case GotEnd => 0
  }

  /** The most steps that the reader may still take in a pass. */
  ghost function PassLeft(cfg: Config, s: State): int {
    match s.pc
    case FetchEnd(c) => 2 * (cfg.readBlock + 3) + if c == A then 4 else 3
    case FetchCurr(c) => 2 * (cfg.readBlock + 3) + if c == A then 2 else 1
    case Serve(c) => if c == A then ServiceLeft(cfg, s.a.rd.stage) + cfg.readBlock + 3 else ServiceLeft(cfg, s.b.rd.stage)
    case _ => 0
  }

  lemma BlockIsShort(cfg: Config, dma: Dma, rd: Reader, q: Queue, wires: nat)
    requires cfg.Valid() && StageInv(cfg, dma, rd, q, wires)
    ensures 0 <= BlockLength(cfg, rd.readPos) <= cfg.readBlock
    ensures InService(rd.stage) ==> ServiceLeft(cfg, rd.stage) >= 1
  {
  }

  lemma ServiceEnds(cfg: Config, ch: Channel, strict: bool)
    requires cfg.Valid() && ChannelInv(cfg, ch, true) && InService(ch.rd.stage)
    ensures 0 <= ServiceLeft(cfg, AfterServe(cfg, ch, strict).rd.stage) < ServiceLeft(cfg, ch.rd.stage)
  {
    BlockIsShort(cfg, ch.dma, ch.rd, ch.q, |ch.snd.wire|);
  }

  lemma ServeNearsEnd(cfg: Config, s: State)
    requires cfg.Valid() && Inv(cfg, s) && s.pc.Serve?
    ensures 0 <= PassLeft(cfg, AfterReader(cfg, s, 0, 0)) < PassLeft(cfg, s)
  {
    var c := s.pc.c;
    var ch := AfterServe(cfg, s.Get(c), c == B);
    ServiceEnds(cfg, s.Get(c), c == B);
    LeftAfterServe(cfg, s, ch);
  }

  lemma LeftAfterServe(cfg: Config, s: State, ch: Channel)
    requires s.pc.Serve? && StagesMatch(s.pc, s.a.rd, s.b.rd)
    requires 0 <= ServiceLeft(cfg, ch.rd.stage) < ServiceLeft(cfg, s.Get(s.pc.c).rd.stage)
    ensures
      var s' := s.With(s.pc.c, ch).(
        pc := if ch.rd.stage.Idle? then (if s.pc.c == A then Serve(B) else PassEnd) else s.pc);
      0 <= PassLeft(cfg, s') < PassLeft(cfg, s)
  {
  }

  lemma ReaderNearsEnd(cfg: Config, s: State)
    requires cfg.Valid() && Inv(cfg, s) && TriggerSeen(s.pc) && !s.pc.PassEnd?
    ensures 0 <= PassLeft(cfg, AfterReader(cfg, s, 0, 0)) < PassLeft(cfg, s)
  {
    if s.pc.Serve? {
      ServeNearsEnd(cfg, s);
    } else {
      FetchNearsEnd(cfg, s);
    }
  }

  lemma FetchNearsEnd(cfg: Config, s: State)
    requires cfg.Valid() && StagesMatch(s.pc, s.a.rd, s.b.rd) && (s.pc.FetchEnd? || s.pc.FetchCurr?)
    ensures 0 <= PassLeft(cfg, AfterReader(cfg, s, 0, 0)) < PassLeft(cfg, s)
  {
  }

  lemma StepNearsEnd(cfg: Config, s: State, act: Action)
    requires cfg.Valid() && Inv(cfg, s) && Enabled(cfg, s, act) && TriggerSeen(s.pc) && !s.pc.PassEnd?
    requires !act.ReaderStops?
    ensures PassLeft(cfg, Apply(cfg, s, act)) <= PassLeft(cfg, s) - if act.ReaderStep? then 1 else 0
  {
    if act.ReaderStep? {
      ReaderNearsEnd(cfg, s);
    } else {
      OthersLeaveReader(cfg, s, act);
    }
  }

  lemma OthersLeaveReader(cfg: Config, s: State, act: Action)
    requires cfg.Valid() && Enabled(cfg, s, act) && !act.ReaderStep? && !act.ReaderStops?
    ensures
      var s' := Apply(cfg, s, act);
      s'.pc == s.pc && s'.a.rd == s.a.rd && s'.b.rd == s.b.rd
  {
  }

  /** Steps that the reader takes between states m and n. */
  function ReaderSteps(acts: seq<Action>, m: nat, n: nat): nat
    requires m <= n <= |acts|
  {
    if m == n then 0 else ReaderSteps(acts, m, n - 1) + if acts[n - 1].ReaderStep? then 1 else 0
  }

  lemma PassNearsEnd(cfg: Config, states: seq<State>, acts: seq<Action>, i: nat)
    requires cfg.Valid() && IsExecution(cfg, states, acts) && Initial(cfg, states[0]) && i < |acts|
    requires TriggerSeen(states[i].pc) && !states[i].pc.PassEnd? && TriggerSeen(states[i + 1].pc)
    ensures PassLeft(cfg, states[i + 1]) <= PassLeft(cfg, states[i]) - if acts[i].ReaderStep? then 1 else 0
  {
    InitialInv(cfg, states[0]);
    RunKeeps(cfg, states, acts, i);
    StepNearsEnd(cfg, states[i], acts[i]);
  }

  lemma {:induction false} CountDown(acts: seq<Action>, left: seq<int>, m: nat, n: nat)
    requires m <= n <= |acts| && |left| == |acts| + 1
    requires forall i :: m <= i < n ==> left[i + 1] <= left[i] - if acts[i].ReaderStep? then 1 else 0
    ensures ReaderSteps(acts, m, n) + left[n] <= left[m]
  {
    if m < n {
      CountDown(acts, left, m, n - 1);
      assert left[n - 1 + 1] <= left[n - 1] - if acts[n - 1].ReaderStep? then 1 else 0;
    }
  }

  lemma StepsLeft(cfg: Config, states: seq<State>, acts: seq<Action>, m: nat, n: nat)
    requires cfg.Valid() && IsExecution(cfg, states, acts) && Initial(cfg, states[0]) && m <= n < |states|
    requires forall i :: m <= i <= n ==> TriggerSeen(states[i].pc) && !states[i].pc.PassEnd?
    ensures ReaderSteps(acts, m, n) + PassLeft(cfg, states[n]) <= PassLeft(cfg, states[m])
  {
    var left := seq(|states|, i requires 0 <= i < |states| => PassLeft(cfg, states[i]));
    forall i | m <= i < n
      ensures left[i + 1] <= left[i] - if acts[i].ReaderStep? then 1 else 0
    {
      PassNearsEnd(cfg, states, acts, i);
    }
    CountDown(acts, left, m, n);
  }

  lemma PassLeftBounds(cfg: Config, s: State)
    requires cfg.Valid() && Inv(cfg, s)
    ensures 0 <= PassLeft(cfg, s) <= 2 * cfg.readBlock + 10
  {
    BlockIsShort(cfg, s.a.dma, s.a.rd, s.a.q, |s.a.snd.wire|);
    BlockIsShort(cfg, s.b.dma, s.b.rd, s.b.q, |s.b.snd.wire|);
  }

  /** Within so many steps of its own the reader ends a pass over both channels, whatever it finds: neither a channel
      without a block to copy nor a finished one holds up the other. */
  lemma PassesEnd(cfg: Config, states: seq<State>, acts: seq<Action>, m: nat, n: nat)
    requires cfg.Valid() && IsExecution(cfg, states, acts) && Initial(cfg, states[0]) && m <= n < |states|
    requires forall i :: m <= i <= n ==> TriggerSeen(states[i].pc) && !states[i].pc.PassEnd?
    ensures ReaderSteps(acts, m, n) <= 2 * cfg.readBlock + 10
  {
    InitialInv(cfg, states[0]);
    RunKeeps(cfg, states, acts, m);
    RunKeeps(cfg, states, acts, n);
    PassLeftBounds(cfg, states[m]);
    PassLeftBounds(cfg, states[n]);
    StepsLeft(cfg, states, acts, m, n);
  }

  // ---------------------------------------------------------------- the sender

  /** What the sender's critical section does to a channel: a queue that was filled and sent completely is reset,
      and its contents count as transmitted; anything else stays; then the sender sends what there is, if any. */
  ghost predicate LockedBySender(cfg: Config, ch: Channel, ch': Channel) {
    && ch'.dma == ch.dma && ch'.rd == ch.rd && ch'.q.buf == ch.q.buf && |ch.q.buf| == cfg.Total()
    && (if ch.q.readEnd == cfg.Total() == ch.snd.sendPos then
          && ch'.q.readEnd == 0 && ch'.snd.sendPos == 0
          && ch'.snd.wire == ch.snd.wire + [ch.q.buf[..cfg.Total()]] && ch'.snd.sent == []
        else
          && ch'.q == ch.q && ch'.snd.sendPos == ch.snd.sendPos
          && ch'.snd.wire == ch.snd.wire && ch'.snd.sent == ch.snd.sent)
    && (if ch'.snd.sendPos < ch'.q.readEnd then
          ch'.snd.pc == Sending([]) && ch'.snd.length == ch'.q.readEnd - ch'.snd.sendPos
        else
          ch'.snd.pc == AtLock)
  }

  lemma LockIsReset(cfg: Config, ch: Channel)
    requires cfg.Valid() && SenderInv(cfg, ch.dma.recordings, ch.q, ch.snd) && ch.snd.pc.AtLock?
    ensures
      var (q, snd) := AfterSenderLock(cfg, ch.q, ch.snd);
      LockedBySender(cfg, ch, ch.(q := q, snd := snd))
  {
  }

  /** In every run. */
  lemma SenderResets(cfg: Config, states: seq<State>, acts: seq<Action>, n: nat, c: ChannelId)
    requires cfg.Valid() && IsExecution(cfg, states, acts) && Initial(cfg, states[0])
    requires n < |acts| && acts[n] == SenderLock(c)
    ensures LockedBySender(cfg, states[n].Get(c), states[n + 1].Get(c))
  {
    ReachableChannel(cfg, states, acts, n, c);
    LockIsReset(cfg, states[n].Get(c));
  }

  /** The sender is transmitting, or has transmitted, `block`, which is what was in the queue at its last lock
      and still is, since the reader only adds behind it. */
  ghost predicate Draining(block: seq<Byte>, wire: seq<seq<Byte>>, q: Queue, snd: Sender) {
    && block <= q.buf && |block| <= q.readEnd && snd.wire == wire
    && match snd.pc
       case AtLock => snd.sendPos == |block|
       case Sending(_) => snd.sendPos + snd.length == |block|
       case SenderExited => false
  }

  /** Nothing that the sender may read is changed. */
  ghost predicate OnlyAdds(q: Queue, q': Queue) {
    q.readEnd <= q'.readEnd && q.readEnd <= |q.buf| && q.buf[..q.readEnd] <= q'.buf
  }

  /** Neither another lock of this sender nor its end. */
  predicate GoesOn(act: Action, c: ChannelId) {
    act != SenderLock(c) && act != SenderStops(c)
  }

  lemma DrainsFromLock(cfg: Config, ch: Channel, ch': Channel)
    requires LockedBySender(cfg, ch, ch') && ch'.snd.sendPos <= ch'.q.readEnd <= cfg.Total()
    ensures Draining(ch'.q.buf[..ch'.q.readEnd], ch'.snd.wire, ch'.q, ch'.snd)
  {
  }

  lemma SendReturnsDrains(cfg: Config, recs: seq<seq<Byte>>, block: seq<Byte>, wire: seq<seq<Byte>>, q: Queue, snd: Sender)
    requires SenderInv(cfg, recs, q, snd) && Draining(block, wire, q, snd) && snd.pc.Sending?
    ensures Draining(block, wire, q, AfterSendReturns(snd))
  {
  }

  lemma AddingDrains(block: seq<Byte>, wire: seq<seq<Byte>>, q: Queue, q': Queue, snd: Sender)
    requires OnlyAdds(q, q') && Draining(block, wire, q, snd)
    ensures Draining(block, wire, q', snd)
  {
    assert block <= q.buf[..q.readEnd];
  }

  lemma PutAdds(q: Queue, at: nat, byte: Byte)
    requires q.readEnd <= at < |q.buf|
    ensures OnlyAdds(q, q.(buf := q.buf[at := byte]))
  {
  }

  lemma CopyByteAdds(cfg: Config, ch: Channel, j: nat)
    requires cfg.Valid() && ChannelInv(cfg, ch, true) && ch.rd.stage == Copying(j) && j < BlockLength(cfg, ch.rd.readPos)
    ensures OnlyAdds(ch.q, AfterCopyByte(cfg, ch, j).q)
  {
    var q, rd := CopyByteStep(cfg, ch.dma, ch.rd, ch.q, ch.snd, j);
    CopyByteIs(cfg, ch, j, q, rd);
    WhileCopying(cfg, ch.dma, ch.rd, ch.q, |ch.snd.wire|);
    PutAdds(ch.q, ch.rd.readPos + j, Fetched(cfg, ch.dma, ch.rd, j));
  }

  lemma CommitAdds(cfg: Config, q: Queue, rd: Reader, snd: Sender, recs: seq<seq<Byte>>)
    requires SenderInv(cfg, recs, q, snd) && 0 <= BlockLength(cfg, rd.readPos)
    ensures OnlyAdds(q, q.(readEnd := q.readEnd + BlockLength(cfg, rd.readPos))) && OnlyAdds(q, q)
  {
  }

  /** The reader writes only beyond what the sender may read. */
  lemma ServeAdds(cfg: Config, ch: Channel, strict: bool)
    requires cfg.Valid() && ChannelInv(cfg, ch, true)
    ensures OnlyAdds(ch.q, AfterServe(cfg, ch, strict).q)
  {
    match ch.rd.stage
    case Copying(j) =>
      if j < BlockLength(cfg, ch.rd.readPos) {
        CopyByteAdds(cfg, ch, j);
      }
    case Copied =>
      CommitIs(cfg, ch.dma, ch.rd, ch.q, |ch.snd.wire|);
      CommitAdds(cfg, ch.q, ch.rd, ch.snd, ch.dma.recordings);
    case _ =>
  }

  /** What a step that is neither the sender's lock nor its end does to queue and sender of channel c. */
  ghost predicate SenderGoesOn(cfg: Config, ch: Channel, ch': Channel) {
    || (ch'.snd == ch.snd && OnlyAdds(ch.q, ch'.q))
    || (ch'.q == ch.q && ch.snd.pc.Sending? && ch'.snd == AfterSendReturns(ch.snd))
    || (ch'.q == ch.q && CanSendByte(cfg, ch.snd) && ch'.snd == AfterSendByte(ch.q, ch.snd))
  }

  lemma ServeGoesOn(cfg: Config, s: State, c: ChannelId)
    requires cfg.Valid() && Inv(cfg, s) && s.pc.Serve?
    ensures SenderGoesOn(cfg, s.Get(c), AfterReader(cfg, s, 0, 0).Get(c))
  {
    if s.pc.c == c {
      ServeAdds(cfg, s.Get(c), c == B);
      ServeKeepsHistory(cfg, s.Get(c), c == B);
    }
  }

  lemma ReaderGoesOn(cfg: Config, s: State, baseA: nat, baseB: nat, c: ChannelId)
    requires cfg.Valid() && Inv(cfg, s) && Enabled(cfg, s, ReaderStep(baseA, baseB))
    ensures SenderGoesOn(cfg, s.Get(c), AfterReader(cfg, s, baseA, baseB).Get(c))
  {
    if s.pc.Serve? {
      ServeGoesOn(cfg, s, c);
    }
  }

  lemma QuietGoesOn(cfg: Config, ch: Channel, ch': Channel, recs: seq<seq<Byte>>)
    requires SenderInv(cfg, recs, ch.q, ch.snd) && ch'.snd == ch.snd && ch'.q == ch.q
    ensures SenderGoesOn(cfg, ch, ch')
  {
  }

  lemma OtherGoesOn(cfg: Config, s: State, act: Action, c: ChannelId)
    requires cfg.Valid() && Inv(cfg, s) && Enabled(cfg, s, act) && GoesOn(act, c)
    requires act.WriteByte? || act.TriggerFires? || act.ReaderStops?
    ensures SenderGoesOn(cfg, s.Get(c), Apply(cfg, s, act).Get(c))
  {
    QuietGoesOn(cfg, s.Get(c), Apply(cfg, s, act).Get(c), s.Get(c).dma.recordings);
  }

  lemma SendersGoOn(cfg: Config, s: State, act: Action, c: ChannelId)
    requires cfg.Valid() && Inv(cfg, s) && Enabled(cfg, s, act) && GoesOn(act, c)
    requires act.SenderLock? || act.SendByte? || act.SendReturns? || act.SenderStops?
    ensures SenderGoesOn(cfg, s.Get(c), Apply(cfg, s, act).Get(c))
  {
    if act.c != c {
      QuietGoesOn(cfg, s.Get(c), Apply(cfg, s, act).Get(c), s.Get(c).dma.recordings);
    }
  }

  lemma StepGoesOn(cfg: Config, s: State, act: Action, c: ChannelId)
    requires cfg.Valid() && Inv(cfg, s) && Enabled(cfg, s, act) && GoesOn(act, c)
    ensures SenderGoesOn(cfg, s.Get(c), Apply(cfg, s, act).Get(c))
  {
    match act
    case ReaderStep(baseA, baseB) => ReaderGoesOn(cfg, s, baseA, baseB, c);
    case WriteByte(_, _) => OtherGoesOn(cfg, s, act, c);
    case TriggerFires => OtherGoesOn(cfg, s, act, c);
    case ReaderStops => OtherGoesOn(cfg, s, act, c);
    case _ => SendersGoOn(cfg, s, act, c);
  }

  lemma GoingOnDrains(cfg: Config, block: seq<Byte>, wire: seq<seq<Byte>>, ch: Channel, ch': Channel)
    requires SenderInv(cfg, ch.dma.recordings, ch.q, ch.snd) && SenderGoesOn(cfg, ch, ch')
    requires Draining(block, wire, ch.q, ch.snd)
    ensures Draining(block, wire, ch'.q, ch'.snd)
  {
    if ch'.snd == ch.snd && OnlyAdds(ch.q, ch'.q) {
      AddingDrains(block, wire, ch.q, ch'.q, ch.snd);
    }
    if ch.snd.pc.Sending? {
      SendReturnsDrains(cfg, ch.dma.recordings, block, wire, ch.q, ch.snd);
    }
  }

  lemma ReachableGoesOn(cfg: Config, states: seq<State>, acts: seq<Action>, i: nat, c: ChannelId)
    requires cfg.Valid() && IsExecution(cfg, states, acts) && Initial(cfg, states[0]) && i < |acts|
    requires GoesOn(acts[i], c)
    ensures SenderInv(cfg, states[i].Get(c).dma.recordings, states[i].Get(c).q, states[i].Get(c).snd)
    ensures SenderGoesOn(cfg, states[i].Get(c), states[i + 1].Get(c))
  {
    InitialInv(cfg, states[0]);
    RunKeeps(cfg, states, acts, i);
    StepGoesOn(cfg, states[i], acts[i], c);
  }

  ghost predicate KeepsDraining(block: seq<Byte>, wire: seq<seq<Byte>>, ch: Channel, ch': Channel) {
    Draining(block, wire, ch.q, ch.snd) ==> Draining(block, wire, ch'.q, ch'.snd)
  }

  lemma {:induction false} DrainsThroughout(states: seq<State>, m: nat, n: nat, c: ChannelId, block: seq<Byte>,
                                            wire: seq<seq<Byte>>)
    requires m <= n < |states| && Draining(block, wire, states[m].Get(c).q, states[m].Get(c).snd)
    requires forall i :: m <= i < n ==> KeepsDraining(block, wire, states[i].Get(c), states[i + 1].Get(c))
    ensures Draining(block, wire, states[n].Get(c).q, states[n].Get(c).snd)
  {
    if m < n {
      DrainsThroughout(states, m, n - 1, c, block, wire);
      assert KeepsDraining(block, wire, states[n - 1].Get(c), states[n - 1 + 1].Get(c));
    }
  }

  lemma StepDrains(cfg: Config, states: seq<State>, acts: seq<Action>, i: nat, c: ChannelId, block: seq<Byte>,
                   wire: seq<seq<Byte>>)
    requires cfg.Valid() && IsExecution(cfg, states, acts) && Initial(cfg, states[0]) && i < |acts|
    requires GoesOn(acts[i], c)
    ensures KeepsDraining(block, wire, states[i].Get(c), states[i + 1].Get(c))
  {
    if Draining(block, wire, states[i].Get(c).q, states[i].Get(c).snd) {
      ReachableGoesOn(cfg, states, acts, i, c);
      GoingOnDrains(cfg, block, wire, states[i].Get(c), states[i + 1].Get(c));
    }
  }

  lemma RunDrains(cfg: Config, states: seq<State>, acts: seq<Action>, m: nat, n: nat, c: ChannelId, block: seq<Byte>,
                  wire: seq<seq<Byte>>)
    requires cfg.Valid() && IsExecution(cfg, states, acts) && Initial(cfg, states[0]) && m <= n < |states|
    requires forall i :: m <= i < n ==> GoesOn(acts[i], c)
    requires Draining(block, wire, states[m].Get(c).q, states[m].Get(c).snd)
    ensures Draining(block, wire, states[n].Get(c).q, states[n].Get(c).snd)
  {
    forall i | m <= i < n
      ensures KeepsDraining(block, wire, states[i].Get(c), states[i + 1].Get(c))
    {
      StepDrains(cfg, states, acts, i, c, block, wire);
    }
    DrainsThroughout(states, m, n, c, block, wire);
  }

  /** What was available at lock m is what is being transmitted until the next. */
  lemma DrainsSinceLock(cfg: Config, states: seq<State>, acts: seq<Action>, m: nat, n: nat, c: ChannelId)
    requires cfg.Valid() && IsExecution(cfg, states, acts) && Initial(cfg, states[0]) && m < n < |states|
    requires acts[m] == SenderLock(c) && forall i :: m < i < n ==> GoesOn(acts[i], c)
    ensures states[m + 1].Get(c).q.readEnd <= |states[m + 1].Get(c).q.buf|
    ensures
      var at, ch := states[m + 1].Get(c), states[n].Get(c);
      Draining(at.q.buf[..at.q.readEnd], at.snd.wire, ch.q, ch.snd)
  {
    SenderResets(cfg, states, acts, m, c);
    ReachableChannel(cfg, states, acts, m + 1, c);
    var at := states[m + 1].Get(c);
    DrainsFromLock(cfg, states[m].Get(c), at);
    RunDrains(cfg, states, acts, m + 1, n, c, at.q.buf[..at.q.readEnd], at.snd.wire);
  }

  /** Between one lock of the sender and its next, whatever the other threads do meanwhile and however short the
      sends are, exactly the bytes available at the first are transmitted. */
  lemma LockSendsAll(cfg: Config, states: seq<State>, acts: seq<Action>, m: nat, n: nat, c: ChannelId)
    requires cfg.Valid() && IsExecution(cfg, states, acts) && Initial(cfg, states[0]) && m < n < |acts|
    requires acts[m] == SenderLock(c) && acts[n] == SenderLock(c)
    requires forall i :: m < i < n ==> GoesOn(acts[i], c)
    ensures
      var at, ch := states[m + 1].Get(c), states[n].Get(c);
      && at.snd.sendPos <= at.q.readEnd <= |at.q.buf|
      && ch.snd.sendPos == at.q.readEnd && ch.snd.wire == at.snd.wire
      && ch.snd.sent == at.snd.sent + at.q.buf[at.snd.sendPos..at.q.readEnd]
  {
    ReachableChannel(cfg, states, acts, m + 1, c);
    ReachableChannel(cfg, states, acts, n, c);
    DrainsSinceLock(cfg, states, acts, m, n, c);
    var at := states[m + 1].Get(c);
    SentIs(cfg, at.dma.recordings, at.q, at.snd, states[n].Get(c).dma.recordings, states[n].Get(c).q, states[n].Get(c).snd);
  }

  lemma SentIs(cfg: Config, recs: seq<seq<Byte>>, q: Queue, snd: Sender,
               recs': seq<seq<Byte>>, q': Queue, snd': Sender)
    requires SenderInv(cfg, recs, q, snd) && SenderInv(cfg, recs', q', snd') && snd'.pc.AtLock?
    requires Draining(q.buf[..q.readEnd], snd.wire, q', snd')
    ensures snd'.sendPos == q.readEnd && snd'.wire == snd.wire
    ensures snd'.sent == snd.sent + q.buf[snd.sendPos..q.readEnd]
  {
    assert q'.buf[..q.readEnd] == q.buf[..q.readEnd];
    assert q.buf[..q.readEnd] == q.buf[..snd.sendPos] + q.buf[snd.sendPos..q.readEnd];
  }

  /** A queue that a lock finds filled is reset by the next one, its contents transmitted as a whole. */
  lemma FilledQueueIsReset(cfg: Config, states: seq<State>, acts: seq<Action>, m: nat, n: nat, c: ChannelId)
    requires cfg.Valid() && IsExecution(cfg, states, acts) && Initial(cfg, states[0]) && m < n < |acts|
    requires acts[m] == SenderLock(c) && acts[n] == SenderLock(c)
    requires forall i :: m < i < n ==> GoesOn(acts[i], c)
    requires states[m + 1].Get(c).q.readEnd == cfg.Total()
    ensures
      var at, ch := states[m + 1].Get(c), states[n + 1].Get(c);
      && ch.q.readEnd == 0 && ch.snd.sendPos == 0 && ch.snd.sent == []
      && |at.q.buf| == cfg.Total() && ch.snd.wire == at.snd.wire + [at.q.buf]
  {
    LockSendsAll(cfg, states, acts, m, n, c);
    ReachableChannel(cfg, states, acts, m + 1, c);
    ReachableChannel(cfg, states, acts, n, c);
    SenderResets(cfg, states, acts, n, c);
    var at, ch := states[m + 1].Get(c), states[n].Get(c);
    WholeQueueSent(cfg, at.dma.recordings, at.q, at.snd, ch.dma.recordings, ch.q, ch.snd);
  }

  lemma WholeQueueSent(cfg: Config, recs: seq<seq<Byte>>, q: Queue, snd: Sender,
                       recs': seq<seq<Byte>>, q': Queue, snd': Sender)
    requires SenderInv(cfg, recs, q, snd) && SenderInv(cfg, recs', q', snd') && q.readEnd == cfg.Total()
    requires snd'.sendPos == cfg.Total() && snd'.sent == snd.sent + q.buf[snd.sendPos..q.readEnd]
    ensures q'.readEnd == cfg.Total() && q'.buf[..cfg.Total()] == q.buf
  {
    assert snd.sent + q.buf[snd.sendPos..] == q.buf;
    assert snd'.sent == q'.buf[..cfg.Total()];
  }

  /** While the sender goes on from lock m, send() may take another byte exactly as long as its block is not full
      and a byte that was available at the lock is left. */
  lemma SendTakesAvailable(cfg: Config, states: seq<State>, acts: seq<Action>, m: nat, n: nat, c: ChannelId)
    requires cfg.Valid() && IsExecution(cfg, states, acts) && Initial(cfg, states[0]) && m < n < |states|
    requires acts[m] == SenderLock(c) && states[n].Get(c).snd.pc.Sending?
    requires forall i :: m < i < n ==> GoesOn(acts[i], c)
    ensures
      var staged := |states[n].Get(c).snd.pc.staged|;
      Enabled(cfg, states[n], SendByte(c)) <==>
      staged < cfg.sendBlock && states[n].Get(c).snd.sendPos + staged < states[m + 1].Get(c).q.readEnd
  {
    DrainsSinceLock(cfg, states, acts, m, n, c);
  }

  /** The DMA engine of an armed channel writes until the trigger, and then until the recording is complete:
      the acquisition length and the margin beyond it. */
  lemma WritesUntilRecorded(cfg: Config, states: seq<State>, acts: seq<Action>, n: nat, c: ChannelId, byte: Byte)
    requires cfg.Valid() && IsExecution(cfg, states, acts) && Initial(cfg, states[0]) && n < |states|
    requires states[n].a.dma.recordings != [] && states[n].b.dma.recordings != []
    ensures Enabled(cfg, states[n], WriteByte(c, byte)) <==>
      states[n].Get(c).dma.trigger.None? || |Current(states[n].Get(c).dma)| < 2 * cfg.acquisition + 2 * cfg.margin
  {
    ReachableChannel(cfg, states, acts, n, c);
  }

  /** Every byte of the current acquisition is in the queue, or was transmitted and the queue reset. */
  predicate CopiedWholly(cfg: Config, ch: Channel) {
    || (ch.q.readEnd == cfg.Total() && |ch.snd.wire| == |ch.dma.recordings| - 1)
    || (ch.q.readEnd == 0 && |ch.snd.wire| == |ch.dma.recordings|)
  }

  /** The queue still holds the previous acquisition, or not all of the current one. */
  predicate Unfinished(cfg: Config, ch: Channel) {
    ch.rd.first || (ch.q.readEnd < cfg.Total() && |ch.snd.wire| == |ch.dma.recordings| - 1)
  }

  lemma AtPassEnd(cfg: Config, ch: Channel)
    requires cfg.Valid() && ChannelInv(cfg, ch, true) && ch.rd.stage.Idle?
    ensures if ch.rd.first || ch.rd.ready then Unfinished(cfg, ch) else CopiedWholly(cfg, ch)
  {
  }

  /** After a pass of the inner loop the reader arms both channels again only when both are copied wholly, and
      makes another pass only when one is not. */
  lemma ArmsWhenCopied(cfg: Config, states: seq<State>, acts: seq<Action>, n: nat)
    requires cfg.Valid() && IsExecution(cfg, states, acts) && Initial(cfg, states[0]) && n < |acts|
    requires states[n].pc.PassEnd? && acts[n].ReaderStep?
    ensures states[n + 1] == states[n].(pc := states[n + 1].pc)
    ensures states[n + 1].pc == FetchEnd(A) || states[n + 1].pc == Arm
    ensures states[n + 1].pc == Arm ==> CopiedWholly(cfg, states[n].a) && CopiedWholly(cfg, states[n].b)
    ensures states[n + 1].pc == FetchEnd(A) ==> Unfinished(cfg, states[n].a) || Unfinished(cfg, states[n].b)
  {
    InitialInv(cfg, states[0]);
    RunKeeps(cfg, states, acts, n);
    AtPassEnd(cfg, states[n].a);
    AtPassEnd(cfg, states[n].b);
  }

  // ---------------------------------------------------------------- nobody is ever stuck

  predicate Triggered(ch: Channel) {
    ch.dma.trigger.Some?
  }

  lemma StepTriggers(cfg: Config, s: State, act: Action)
    requires cfg.Valid() && Enabled(cfg, s, act) && (Triggered(s.a) <==> Triggered(s.b))
    ensures Triggered(Apply(cfg, s, act).a) <==> Triggered(Apply(cfg, s, act).b)
  {
    if act.ReaderStep? && s.pc.Serve? {
      ServeKeepsHistory(cfg, s.Get(s.pc.c), s.pc.c == B);
    }
  }

  /** One trigger serves both channels. */
  lemma {:induction false} TriggersTogether(cfg: Config, states: seq<State>, acts: seq<Action>, n: nat)
    requires cfg.Valid() && IsExecution(cfg, states, acts) && Initial(cfg, states[0]) && n < |states|
    ensures Triggered(states[n].a) <==> Triggered(states[n].b)
  {
    if n > 0 {
      TriggersTogether(cfg, states, acts, n - 1);
      StepTriggers(cfg, states[n - 1], acts[n - 1]);
    }
  }

  /** A thread that has not been told to exit can always take a step, but for a reader that awaits the trigger, which
      can then fire. */
  lemma NobodyIsStuck(cfg: Config, states: seq<State>, acts: seq<Action>, n: nat, c: ChannelId)
    requires cfg.Valid() && IsExecution(cfg, states, acts) && Initial(cfg, states[0]) && n < |states|
    ensures !states[n].pc.ReaderExited? ==>
      if states[n].pc.AwaitTrigger? && states[n].Get(c).dma.trigger.None? then Enabled(cfg, states[n], TriggerFires)
      else Enabled(cfg, states[n], ReaderStep(0, 0))
    ensures !states[n].Get(c).snd.pc.SenderExited? ==>
      Enabled(cfg, states[n], SenderLock(c)) || Enabled(cfg, states[n], SendReturns(c))
  {
    TriggersTogether(cfg, states, acts, n);
    ReachableChannel(cfg, states, acts, n, A);
    ReachableChannel(cfg, states, acts, n, B);
  }

  lemma ShippedIsValid()
    ensures SHIPPED.Valid() && SHIPPED.margin > 0
  {
  }
}
