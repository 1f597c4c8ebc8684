/** The AC97 codec's shadow registers in redpitaya-ac97.c: faked while the codec is probed, written back
    afterwards, and answering reads from then on. Registers are referred to by index (address / 2). */
module CodecRegisters {
  type Word = bv16

  const REGISTERS := 64

  /** The constant part of an entry of the driver's table: the LM4550_REG_* bits but for DONEREAD, the mask
      of writable bits and the default value. */
  datatype Entry = Entry(ok: bool, noSave: bool, noShadow: bool, readOnly: bool, fakeProbe: bool, fakeRead: bool,
                         wmask: Word, def: Word)

  datatype Register = Register(entry: Entry, value: Word, doneRead: bool)

  /** A shadow register together with the codec's own register. */
  datatype Cell = Cell(shadow: Register, codec: Word)

  /** All registers, and whether accesses are being faked. */
  datatype State = State(cells: seq<Cell>, fake: bool)

  /** What the driver relies on in its table: a register faked during the probe exists, is shadowed, keeps
      what is written to it, and is neither read-only nor faked forever. */
  predicate EntryOk(e: Entry) {
    e.fakeProbe ==> e.ok && !e.noSave && !e.noShadow && !e.readOnly && !e.fakeRead
  }

  ghost predicate Valid(s: State) {
    |s.cells| == REGISTERS && forall i :: 0 <= i < REGISTERS ==> EntryOk(s.cells[i].shadow.entry)
  }

  // ---------------------------------------------------------------- accesses

  function Masked(val: Word, wmask: Word): Word {
    val & wmask
  }

  lemma MaskedTwice(val: Word, wmask: Word)
    ensures Masked(Masked(val, wmask), wmask) == Masked(val, wmask)
  {
  }

  predicate AnsweredByShadow(r: Register) {
    (r.doneRead || r.entry.fakeRead || r.entry.fakeProbe) && !r.entry.noShadow
  }

  /** How an access to the codec itself goes: it is done, waiting for the lock is interrupted, or the codec
      does not answer in time; then `word` is what the data register holds, or what the codec is left with. */
  datatype Bus = Done | Interrupted | TimedOut(word: Word)

  /** What codec_read_internal returns. */
  function ReadResult(c: Cell, bus: Bus): Word {
    if !c.shadow.entry.ok then 0
    else if AnsweredByShadow(c.shadow) then if c.shadow.entry.fakeRead then c.shadow.entry.def else c.shadow.value
    else
      match bus
      case Done => c.codec
      case Interrupted => 0
      case TimedOut(word) => word
  }

  function MarkRead(r: Register): Register {
    r.(doneRead := true)
  }

  /** A read is recorded even after a timeout, but not if it was interrupted. */
  function AfterRead(c: Cell, bus: Bus): Cell {
    if !c.shadow.entry.ok || AnsweredByShadow(c.shadow) || bus.Interrupted? then c
    else c.(shadow := MarkRead(c.shadow.(value := ReadResult(c, bus))))
  }

  /** codec_write_internal. `raf` is the CODEC_WRITE_CHECK_RAF build; `kept` is what the codec ends up holding
      in a register that does not save what is written to it. */
  function AfterWrite(raf: bool, fake: bool, c: Cell, val: Word, kept: Word, bus: Bus): Cell {
    var r := c.shadow;
    var masked := Masked(val, r.entry.wmask);
    if !r.entry.ok || r.entry.readOnly then c
    else if r.entry.fakeProbe && fake && !r.entry.noShadow then c.(shadow := r.(value := masked))
    else
      match bus
      case Interrupted => c
      case TimedOut(word) => c.(codec := word)
      case Done =>
        Cell(if !raf then r else if r.entry.noShadow || r.entry.noSave then MarkRead(r) else MarkRead(r.(value := masked)),
             if r.entry.noSave then kept else masked)
  }

  datatype Access = Read(i: nat, bus: Bus) | Write(i: nat, val: Word, kept: Word, bus: Bus)

  function CellAfter(raf: bool, fake: bool, c: Cell, a: Access): Cell {
    match a
    case Read(_, bus) => AfterRead(c, bus)
    case Write(_, val, kept, bus) => AfterWrite(raf, fake, c, val, kept, bus)
  }

  function AfterAccess(raf: bool, s: State, a: Access): State {
    if a.i < |s.cells| then s.(cells := s.cells[a.i := CellAfter(raf, s.fake, s.cells[a.i], a)]) else s
  }

  function AfterAccesses(raf: bool, s: State, accesses: seq<Access>): State {
    if accesses == [] then s
    else AfterAccess(raf, AfterAccesses(raf, s, accesses[..|accesses| - 1]), accesses[|accesses| - 1])
  }

  /** lm4550_regfile_init for one register. */
  function InitializedCell(c: Cell): Cell {
    if c.shadow.entry.fakeProbe then c.(shadow := c.shadow.(value := c.shadow.entry.def)) else c
  }

  /** lm4550_regfile_write_values_after_init for one register. */
  function WrittenBackCell(raf: bool, c: Cell): Cell {
    if c.shadow.entry.fakeProbe && c.shadow.value != c.shadow.entry.def then
      var after := AfterWrite(raf, false, c, c.shadow.value, c.shadow.value, Done);
      after.(shadow := MarkRead(after.shadow))
    else c
  }

  function Initialized(s: State): State {
    State(seq(|s.cells|, i requires 0 <= i < |s.cells| => InitializedCell(s.cells[i])), true)
  }

  function WrittenBack(raf: bool, s: State): State {
    State(seq(|s.cells|, i requires 0 <= i < |s.cells| => WrittenBackCell(raf, s.cells[i])), false)
  }

  /** snd_redpitaya_ac97_mixer: fake the accesses of the probe, then write back. */
  function AfterMixer(raf: bool, s: State, probe: seq<Access>): State {
    WrittenBack(raf, AfterAccesses(raf, Initialized(s), probe))
  }

  // ---------------------------------------------------------------- one register over a run of accesses

  /** The accesses of a run that concern register i. */
  function CellRun(raf: bool, fake: bool, c: Cell, i: nat, accesses: seq<Access>): Cell {
    if accesses == [] then c
    else
      var a := accesses[|accesses| - 1];
      var before := CellRun(raf, fake, c, i, accesses[..|accesses| - 1]);
      if a.i == i then CellAfter(raf, fake, before, a) else before
  }

  lemma {:induction false} RunIsLocal(raf: bool, s: State, accesses: seq<Access>, i: nat)
    requires i < |s.cells|
    ensures
      var s' := AfterAccesses(raf, s, accesses);
      |s'.cells| == |s.cells| && s'.fake == s.fake && s'.cells[i] == CellRun(raf, s.fake, s.cells[i], i, accesses)
    decreases |accesses|
  {
    if accesses != [] {
      RunIsLocal(raf, s, accesses[..|accesses| - 1], i);
    }
  }

  /** Only the value and the DONEREAD bit of an entry ever change. */
  lemma {:induction false} CellRunKeepsEntry(raf: bool, fake: bool, c: Cell, i: nat, accesses: seq<Access>)
    ensures CellRun(raf, fake, c, i, accesses).shadow.entry == c.shadow.entry
    decreases |accesses|
  {
    if accesses != [] {
      CellRunKeepsEntry(raf, fake, c, i, accesses[..|accesses| - 1]);
    }
  }

  /** The last masked value written to register i in a run, or `initial` if there was none. */
  function LastWritten(initial: Word, wmask: Word, accesses: seq<Access>, i: nat): Word {
    if accesses == [] then initial
    else
      var a := accesses[|accesses| - 1];
      if a.Write? && a.i == i then Masked(a.val, wmask) else LastWritten(initial, wmask, accesses[..|accesses| - 1], i)
  }

  /** The writes to register i succeed. */
  ghost predicate WritesDone(accesses: seq<Access>, i: nat) {
    forall k :: 0 <= k < |accesses| && accesses[k].Write? && accesses[k].i == i ==> accesses[k].bus.Done?
  }

  /** While faking, and in the RAF-checked build also afterwards, the shadow of a faked-during-probe register
      follows the writes; in the other build it stays as it was. */
  lemma {:induction false} ShadowFollowsWrites(raf: bool, fake: bool, c: Cell, i: nat, accesses: seq<Access>)
    requires c.shadow.entry.fakeProbe && EntryOk(c.shadow.entry)
    requires fake || WritesDone(accesses, i)
    ensures
      CellRun(raf, fake, c, i, accesses).shadow.value ==
      if fake || raf then LastWritten(c.shadow.value, c.shadow.entry.wmask, accesses, i) else c.shadow.value
    decreases |accesses|
  {
    if accesses != [] {
      var front, a := accesses[..|accesses| - 1], accesses[|accesses| - 1];
      ShadowFollowsWrites(raf, fake, c, i, front);
      CellRunKeepsEntry(raf, fake, c, i, front);
      if a.i == i {
        ShadowEffect(raf, fake, CellRun(raf, fake, c, i, front), c.shadow.entry, a);
      }
    }
  }

  /** The codec's register follows the writes except while they are faked. */
  lemma {:induction false} CodecFollowsWrites(raf: bool, fake: bool, c: Cell, i: nat, accesses: seq<Access>)
    requires c.shadow.entry.fakeProbe && EntryOk(c.shadow.entry)
    requires fake || WritesDone(accesses, i)
    ensures
      CellRun(raf, fake, c, i, accesses).codec ==
      if fake then c.codec else LastWritten(c.codec, c.shadow.entry.wmask, accesses, i)
    decreases |accesses|
  {
    if accesses != [] {
      var front, a := accesses[..|accesses| - 1], accesses[|accesses| - 1];
      CodecFollowsWrites(raf, fake, c, i, front);
      CellRunKeepsEntry(raf, fake, c, i, front);
      if a.i == i {
        CodecEffect(raf, fake, CellRun(raf, fake, c, i, front), c.shadow.entry, a);
      }
    }
  }

  lemma ShadowEffect(raf: bool, fake: bool, c: Cell, e: Entry, a: Access)
    requires e.fakeProbe && EntryOk(e) && c.shadow.entry == e && (a.Write? && !fake ==> a.bus.Done?)
    ensures CellAfter(raf, fake, c, a).shadow.value == if a.Write? && (fake || raf) then Masked(a.val, e.wmask) else c.shadow.value
  {
  }

  lemma CodecEffect(raf: bool, fake: bool, c: Cell, e: Entry, a: Access)
    requires e.fakeProbe && EntryOk(e) && c.shadow.entry == e && (a.Write? && !fake ==> a.bus.Done?)
    ensures CellAfter(raf, fake, c, a).codec == if a.Write? && !fake then Masked(a.val, e.wmask) else c.codec
  {
  }

  lemma {:induction false} LastWrittenIsMasked(initial: Word, wmask: Word, accesses: seq<Access>, i: nat)
    ensures
      var v := LastWritten(initial, wmask, accesses, i);
      v == initial || Masked(v, wmask) == v
  {
    if accesses != [] {
      var a := accesses[|accesses| - 1];
      LastWrittenIsMasked(initial, wmask, accesses[..|accesses| - 1], i);
      if a.Write? {
        MaskedTwice(a.val, wmask);
      }
    }
  }

  // ---------------------------------------------------------------- coherence

  /** The shadow equals the codec's register, and is the default or a masked value. */
  predicate Coherent(c: Cell) {
    c.shadow.value == c.codec && (c.shadow.value == c.shadow.entry.def || Masked(c.shadow.value, c.shadow.entry.wmask) == c.shadow.value)
  }

  lemma WriteBackEffect(raf: bool, c: Cell)
    requires c.shadow.entry.fakeProbe && EntryOk(c.shadow.entry) && c.codec == c.shadow.entry.def
    requires c.shadow.value == c.shadow.entry.def || Masked(c.shadow.value, c.shadow.entry.wmask) == c.shadow.value
    ensures WrittenBackCell(raf, c).shadow.value == c.shadow.value == WrittenBackCell(raf, c).codec
    ensures WrittenBackCell(raf, c).shadow.entry == c.shadow.entry
  {
  }

  /** One register through the mixer's set-up, if the codec starts out at its defaults. */
  lemma ProbeThenWriteBack(raf: bool, c: Cell, i: nat, probe: seq<Access>)
    requires c.shadow.entry.fakeProbe && EntryOk(c.shadow.entry) && c.codec == c.shadow.entry.def
    ensures
      var e := c.shadow.entry;
      var c' := WrittenBackCell(raf, CellRun(raf, true, InitializedCell(c), i, probe));
      && c'.shadow.entry == e
      && c'.shadow.value == c'.codec == LastWritten(e.def, e.wmask, probe, i)
  {
    var e := c.shadow.entry;
    var c0 := InitializedCell(c);
    ShadowFollowsWrites(raf, true, c0, i, probe);
    CodecFollowsWrites(raf, true, c0, i, probe);
    CellRunKeepsEntry(raf, true, c0, i, probe);
    LastWrittenIsMasked(e.def, e.wmask, probe, i);
    WriteBackEffect(raf, CellRun(raf, true, c0, i, probe));
  }

  /** A register after the mixer was set up, if the codec starts out at its defaults: coherent, and holding
      what the probe wrote last, in either build. */
  lemma MixerIsCoherent(raf: bool, s: State, probe: seq<Access>, i: nat)
    requires Valid(s) && i < REGISTERS && s.cells[i].shadow.entry.fakeProbe
    requires s.cells[i].codec == s.cells[i].shadow.entry.def
    ensures
      var e := s.cells[i].shadow.entry;
      var s' := AfterMixer(raf, s, probe);
      && |s'.cells| == REGISTERS && !s'.fake && s'.cells[i].shadow.entry == e
      && Coherent(s'.cells[i])
      && s'.cells[i].shadow.value == LastWritten(e.def, e.wmask, probe, i)
  {
    var e := s.cells[i].shadow.entry;
    RunIsLocal(raf, Initialized(s), probe, i);
    ProbeThenWriteBack(raf, s.cells[i], i, probe);
    LastWrittenIsMasked(e.def, e.wmask, probe, i);
  }

  lemma {:induction false} LastWrittenAcross(initial: Word, wmask: Word, a: seq<Access>, b: seq<Access>, i: nat)
    ensures LastWritten(initial, wmask, a + b, i) == LastWritten(LastWritten(initial, wmask, a, i), wmask, b, i)
    decreases |b|
  {
    if b == [] {
      assert a + b == a;
    } else {
      assert (a + b)[..|a + b| - 1] == a + b[..|b| - 1];
      LastWrittenAcross(initial, wmask, a, b[..|b| - 1], i);
    }
  }

  /** In the RAF-checked build every later run whose writes are acknowledged keeps a faked-during-probe register coherent, and a read of it
      returns the last masked value written since the driver was loaded, or the default. */
  lemma RafBuildStaysCoherent(s: State, probe: seq<Access>, later: seq<Access>, i: nat, bus: Bus)
    requires Valid(s) && i < REGISTERS && s.cells[i].shadow.entry.fakeProbe && WritesDone(later, i)
    requires s.cells[i].codec == s.cells[i].shadow.entry.def
    ensures
      var r := s.cells[i].shadow;
      var s' := AfterAccesses(true, AfterMixer(true, s, probe), later);
      && |s'.cells| == REGISTERS && Coherent(s'.cells[i])
      && ReadResult(s'.cells[i], bus) == LastWritten(r.entry.def, r.entry.wmask, probe + later, i)
  {
    var r := s.cells[i].shadow;
    var s1 := AfterMixer(true, s, probe);
    MixerIsCoherent(true, s, probe, i);
    RunIsLocal(true, s1, later, i);
    ShadowFollowsWrites(true, false, s1.cells[i], i, later);
    CodecFollowsWrites(true, false, s1.cells[i], i, later);
    CellRunKeepsEntry(true, false, s1.cells[i], i, later);
    LastWrittenAcross(r.entry.def, r.entry.wmask, probe, later, i);
    LastWrittenIsMasked(r.entry.def, r.entry.wmask, probe + later, i);
  }

  /** In the default build the shadow is not updated by a write after the probe, yet goes on answering reads:
      a read returns what the probe left, whatever was written since. So it returns the last masked value
      written exactly if that is the value the probe left. */
  lemma DefaultBuildReadsProbeValue(s: State, probe: seq<Access>, later: seq<Access>, i: nat, bus: Bus)
    requires Valid(s) && i < REGISTERS && s.cells[i].shadow.entry.fakeProbe && WritesDone(later, i)
    requires s.cells[i].codec == s.cells[i].shadow.entry.def
    ensures
      var r := s.cells[i].shadow;
      var s' := AfterAccesses(false, AfterMixer(false, s, probe), later);
      var left := LastWritten(r.entry.def, r.entry.wmask, probe, i);
      var last := LastWritten(r.entry.def, r.entry.wmask, probe + later, i);
      && |s'.cells| == REGISTERS && s'.cells[i].codec == last
      && ReadResult(s'.cells[i], bus) == left
      && (ReadResult(s'.cells[i], bus) == s'.cells[i].codec <==> last == left)
  {
    var r := s.cells[i].shadow;
    var s1 := AfterMixer(false, s, probe);
    MixerIsCoherent(false, s, probe, i);
    RunIsLocal(false, s1, later, i);
    ShadowFollowsWrites(false, false, s1.cells[i], i, later);
    CodecFollowsWrites(false, false, s1.cells[i], i, later);
    CellRunKeepsEntry(false, false, s1.cells[i], i, later);
    LastWrittenAcross(r.entry.def, r.entry.wmask, probe, later, i);
  }

  // ---------------------------------------------------------------- registers that are not faked during the probe

  /** A register that is faked forever reads as its default whatever was written and however the bus behaves; if it is
      read-only too, no write reaches the codec. */
  lemma {:induction false} ConstantsStay(raf: bool, fake: bool, c: Cell, i: nat, accesses: seq<Access>, bus: Bus)
    requires c.shadow.entry.ok && c.shadow.entry.fakeRead && !c.shadow.entry.noShadow
    ensures
      var c' := CellRun(raf, fake, c, i, accesses);
      ReadResult(c', bus) == c.shadow.entry.def && (c.shadow.entry.readOnly ==> c' == c)
    decreases |accesses|
  {
    CellRunKeepsEntry(raf, fake, c, i, accesses);
    if accesses != [] {
      ConstantsStay(raf, fake, c, i, accesses[..|accesses| - 1], bus);
    }
  }

  /** An address that holds no register reads as zero, and nothing ever happens there. */
  lemma {:induction false} NoRegisterNoEffect(raf: bool, fake: bool, c: Cell, i: nat, accesses: seq<Access>, bus: Bus)
    requires !c.shadow.entry.ok
    ensures CellRun(raf, fake, c, i, accesses) == c && ReadResult(c, bus) == 0
    decreases |accesses|
  {
    if accesses != [] {
      NoRegisterNoEffect(raf, fake, c, i, accesses[..|accesses| - 1], bus);
    }
  }

  /** A register without a shadow is always read from the codec, and written to it even during the probe; what it then
      holds is the masked value, or the codec's own if it does not save what is written. */
  lemma {:induction false} UnshadowedReachesCodec(raf: bool, fake: bool, c: Cell, i: nat, accesses: seq<Access>, a: Access)
    requires c.shadow.entry.ok && c.shadow.entry.noShadow && a.i == i && a.bus.Done?
    ensures
      var (before, after) := (CellRun(raf, fake, c, i, accesses), CellRun(raf, fake, c, i, accesses + [a]));
      && ReadResult(after, Done) == after.codec
      && after.codec ==
           if a.Read? || c.shadow.entry.readOnly then before.codec
           else if c.shadow.entry.noSave then a.kept
           else a.val & c.shadow.entry.wmask
  {
    assert (accesses + [a])[..|accesses|] == accesses;
    CellRunKeepsEntry(raf, fake, c, i, accesses);
  }

  /** A shadowed register is read from the codec at most once: what the first read found, even one that timed out,
      answers later ones. An interrupted access changes nothing. */
  lemma FirstReadIsKept(raf: bool, fake: bool, c: Cell, first: Bus, later: Bus, val: Word, kept: Word)
    requires c.shadow.entry.ok && !c.shadow.entry.noShadow
    ensures !first.Interrupted? ==> ReadResult(AfterRead(c, first), later) == ReadResult(c, first)
    ensures AfterRead(c, Interrupted) == c
    ensures !(c.shadow.entry.fakeProbe && fake) ==> AfterWrite(raf, fake, c, val, kept, Interrupted) == c
  {
  }

  /** A write to a shadowed register that is not being faked: in the RAF-checked build later reads return the masked
      value without asking the codec, or what the shadow held before if the register does not save what is written; in
      the other build a register not read before is read back from the codec. A write
      that times out leaves the shadow as it was, whatever it leaves in the codec. */
  lemma ReadAfterWrite(raf: bool, fake: bool, c: Cell, val: Word, kept: Word, word: Word, later: Bus)
    requires c.shadow.entry.ok && !c.shadow.entry.readOnly && !c.shadow.entry.noShadow && !c.shadow.entry.fakeRead
    requires !(c.shadow.entry.fakeProbe && fake)
    ensures raf ==>
      ReadResult(AfterWrite(raf, fake, c, val, kept, Done), later) ==
        if c.shadow.entry.noSave then c.shadow.value else val & c.shadow.entry.wmask
    ensures !raf && !c.shadow.entry.fakeProbe && !c.shadow.doneRead ==>
      ReadResult(AfterWrite(raf, fake, c, val, kept, Done), Done) ==
        if c.shadow.entry.noSave then kept else val & c.shadow.entry.wmask
    ensures AfterWrite(raf, fake, c, val, kept, TimedOut(word)) == Cell(c.shadow, word)
  {
  }

  /** For a register that is not faked during the probe, setting up the mixer is just the probe's own accesses. */
  lemma OthersSeeOnlyProbe(raf: bool, s: State, probe: seq<Access>, i: nat)
    requires i < |s.cells| && !s.cells[i].shadow.entry.fakeProbe
    ensures |AfterMixer(raf, s, probe).cells| == |s.cells|
    ensures AfterMixer(raf, s, probe).cells[i] == CellRun(raf, true, s.cells[i], i, probe)
  {
    RunIsLocal(raf, Initialized(s), probe, i);
    CellRunKeepsEntry(raf, true, s.cells[i], i, probe);
  }

  // ---------------------------------------------------------------- the driver

  /** An address as the driver turns it into an index: the lowest bit and the high byte are dropped. */
  function Slot(reg: nat): nat {
    reg % 256 / 2
  }

  class Driver {
    const raf: bool
    const regfile: array<Register>
    const codec: array<Word>
    var fake: bool

    ghost predicate Valid()
      reads this
    {
      (regfile as object) != codec && regfile.Length == REGISTERS && codec.Length == REGISTERS
    }

    ghost function CellAt(i: nat): Cell
      requires Valid() && i < REGISTERS
      reads this, regfile, codec
    {
      Cell(regfile[i], codec[i])
    }

    ghost function Registers(): (s: State)
      requires Valid()
      reads this, regfile, codec
      ensures |s.cells| == REGISTERS && s.fake == fake
    {
      State(seq(REGISTERS, i requires 0 <= i < REGISTERS reads this, regfile, codec => CellAt(i)), fake)
    }

    constructor (raf: bool, table: seq<Entry>, power: seq<Word>)
      requires |table| == REGISTERS && |power| == REGISTERS
      ensures Valid() && fresh(regfile) && fresh(codec) && this.raf == raf && !fake
      ensures forall i :: 0 <= i < REGISTERS ==> Registers().cells[i] == Cell(Register(table[i], 0, false), power[i])
    {
      this.raf := raf;
      regfile := new Register[REGISTERS](i requires 0 <= i < REGISTERS => Register(table[i], 0, false));
      codec := new Word[REGISTERS](i requires 0 <= i < REGISTERS => power[i]);
      fake := false;
    }

    method Read(reg: nat, bus: Bus) returns (value: Word)
      requires Valid() && Slot(reg) < REGISTERS
      modifies regfile
      ensures value == ReadResult(old(CellAt(Slot(reg))), bus)
      ensures CellAt(Slot(reg)) == AfterRead(old(CellAt(Slot(reg))), bus)
      ensures forall k :: 0 <= k < REGISTERS && k != Slot(reg) ==> CellAt(k) == old(CellAt(k))
    {
      var i := Slot(reg);
      var r := regfile[i];
      if !r.entry.ok {
        return 0;
      }
      if AnsweredByShadow(r) {
        return if r.entry.fakeRead then r.entry.def else r.value;
      }
      if bus.Interrupted? {
        return 0;
      }
      value := if bus.Done? then codec[i] else bus.word;
      regfile[i] := r.(value := value, doneRead := true);
    }

    method Write(reg: nat, val: Word, kept: Word, bus: Bus)
      requires Valid() && Slot(reg) < REGISTERS
      modifies regfile, codec
      ensures CellAt(Slot(reg)) == AfterWrite(raf, fake, old(CellAt(Slot(reg))), val, kept, bus)
      ensures forall k :: 0 <= k < REGISTERS && k != Slot(reg) ==> CellAt(k) == old(CellAt(k))
    {
      var i := Slot(reg);
      var r := regfile[i];
      if !r.entry.ok || r.entry.readOnly {
        return;
      }
      var masked := Masked(val, r.entry.wmask);
      if r.entry.fakeProbe && fake && !r.entry.noShadow {
        regfile[i] := r.(value := masked);
        return;
      }
      if bus.Interrupted? {
        return;
      }
      codec[i] := if bus.TimedOut? then bus.word else if r.entry.noSave then kept else masked;
      if raf && bus.Done? {
        if !r.entry.noShadow && !r.entry.noSave {
          regfile[i] := r.(value := masked, doneRead := true);
        } else {
          regfile[i] := r.(doneRead := true);
        }
      }
    }

    method InitRegfile()
      requires Valid()
      modifies regfile
      ensures forall i :: 0 <= i < REGISTERS ==> CellAt(i) == InitializedCell(old(CellAt(i)))
    {
      for i := 0 to REGISTERS
        invariant forall k :: 0 <= k < i ==> CellAt(k) == InitializedCell(old(CellAt(k)))
        invariant forall k :: i <= k < REGISTERS ==> CellAt(k) == old(CellAt(k))
      {
        var r := regfile[i];
        if r.entry.fakeProbe {
          regfile[i] := r.(value := r.entry.def);
        }
      }
    }

    /** One register of the write-back loop. */
    method WriteBackOne(i: nat)
      requires Valid() && i < REGISTERS && !fake
      modifies regfile, codec
      ensures CellAt(i) == WrittenBackCell(raf, old(CellAt(i)))
      ensures forall k :: 0 <= k < REGISTERS && k != i ==> CellAt(k) == old(CellAt(k))
    {
      var r := regfile[i];
      if r.entry.fakeProbe && r.value != r.entry.def {
        assert Slot(2 * i) == i;
        Write(2 * i, r.value, r.value, Done);
        regfile[i] := regfile[i].(doneRead := true);
      }
    }

    method WriteBack()
      requires Valid() && !fake
      modifies regfile, codec
      ensures forall i :: 0 <= i < REGISTERS ==> CellAt(i) == WrittenBackCell(raf, old(CellAt(i)))
    {
      for i := 0 to REGISTERS
        invariant forall k :: 0 <= k < i ==> CellAt(k) == WrittenBackCell(raf, old(CellAt(k)))
        invariant forall k :: i <= k < REGISTERS ==> CellAt(k) == old(CellAt(k))
      {
        WriteBackOne(i);
      }
    }

    method PerformOne(a: Access)
      requires Valid() && a.i < REGISTERS
      modifies regfile, codec
      ensures Registers() == AfterAccess(raf, old(Registers()), a)
    {
      assert Slot(2 * a.i) == a.i;
      match a {
        case Read(i, bus) =>
          var _ := Read(2 * i, bus);
        case Write(i, val, kept, bus) =>
          Write(2 * i, val, kept, bus);
      }
      assert Registers().cells == AfterAccess(raf, old(Registers()), a).cells;
    }

    /** What the mixer layer does while it probes: some run of reads and writes. */
    method Perform(accesses: seq<Access>)
      requires Valid() && forall k :: 0 <= k < |accesses| ==> accesses[k].i < REGISTERS
      modifies regfile, codec
      ensures Registers() == AfterAccesses(raf, old(Registers()), accesses)
    {
      for n := 0 to |accesses|
        invariant Registers() == AfterAccesses(raf, old(Registers()), accesses[..n])
      {
        assert accesses[..n + 1][..n] == accesses[..n];
        PerformOne(accesses[n]);
      }
      assert accesses[..|accesses|] == accesses;
    }

    method Mixer(probe: seq<Access>)
      requires Valid() && forall k :: 0 <= k < |probe| ==> probe[k].i < REGISTERS
      modifies this`fake, regfile, codec
      ensures Registers() == AfterMixer(raf, old(Registers()), probe)
    {
      fake := true;
      InitRegfile();
      assert Registers() == Initialized(old(Registers()));
      Perform(probe);
      ghost var probed := Registers();
      assert probed == AfterAccesses(raf, Initialized(old(Registers())), probe);
      fake := false;
      label Probed:
      assert forall k :: 0 <= k < REGISTERS ==> old@Probed(CellAt(k)) == probed.cells[k];
      WriteBack();
      assert Registers() == WrittenBack(raf, probed);
    }
  }

  // ---------------------------------------------------------------- the shipped table

  const NONE := Entry(false, false, false, false, false, false, 0, 0)

  /** A register that is faked during the probe, with its mask and default. */
  function Faked(wmask: Word, def: Word): Entry {
    Entry(true, false, false, false, true, false, wmask, def)
  }

  function Constant(def: Word): Entry {
    Entry(true, false, false, true, false, true, 0, def)
  }

  /** lm4550_regfile at index i. */
  function TableEntry(i: nat): Entry {
    match i
    case 0x00 => Entry(true, true, false, false, false, true, 0, 0x0D50)
    case 0x01 => Faked(0x9F1F, 0x8000)
    case 0x02 => Faked(0x9F1F, 0x8000)
    case 0x03 => Faked(0x801F, 0x8000)
    case 0x05 => Faked(0x801E, 0)
    case 0x06 => Faked(0x801F, 0x8008)
    case 0x07 => Faked(0x805F, 0x8008)
    case 0x08 => Faked(0x9F1F, 0x8808)
    case 0x09 => Faked(0x9F1F, 0x8808)
    case 0x0A => Faked(0x9F1F, 0x8808)
    case 0x0B => Faked(0x9F1F, 0x8808)
    case 0x0C => Faked(0x9F1F, 0x8008)
    case 0x0D => Faked(0x0707, 0)
    case 0x0E => Faked(0x8F0F, 0x8000)
    case 0x10 => Faked(0xA380, 0)
    case 0x11 => Constant(0x0101)
    case 0x13 => Entry(true, true, true, false, false, false, 0xFF00, 0)
    case 0x14 => Constant(0x0201)
    case 0x15 => Entry(true, true, true, false, false, false, 0x0001, 0)
    case 0x16 => Faked(0xFFFF, 0xBB80)
    case 0x19 => Faked(0xFFFF, 0xBB80)
    case 0x3E => Constant(0x4E53)
    case 0x3F => Constant(0x4350)
    case _ => NONE
  }

  lemma ShippedTableIsOk(i: nat)
    ensures EntryOk(TableEntry(i))
  {
  }

  lemma DefaultLiesInMask(def: Word, wmask: Word)
    requires def == 0 || (def == 0x8000 && wmask & 0x8000 == 0x8000) || (def == 0xBB80 && wmask == 0xFFFF) ||
             (def == 0x8008 && wmask & 0x8008 == 0x8008) || (def == 0x8808 && wmask & 0x8808 == 0x8808)
    ensures Masked(def, wmask) == def
  {
  }

  /** Every default of a register that is faked during the probe could have been written to it. */
  lemma ShippedDefaultsAreMasked(i: nat)
    requires TableEntry(i).fakeProbe
    ensures Masked(TableEntry(i).def, TableEntry(i).wmask) == TableEntry(i).def
  {
    DefaultLiesInMask(TableEntry(i).def, TableEntry(i).wmask);
  }

  const MUTE_OFF := Access.Write(1, 0, 0, Done)

  lemma OnlyWrite(initial: Word, wmask: Word)
    ensures LastWritten(initial, wmask, [MUTE_OFF], 1) == 0 && LastWritten(initial, wmask, [], 1) == initial
    ensures [] + [MUTE_OFF] == [MUTE_OFF] && WritesDone([MUTE_OFF], 1)
  {
    assert [MUTE_OFF][..0] == [];
    assert Masked(0, wmask) == 0;
  }

  lemma ShippedStateIsValid(s: State)
    requires |s.cells| == REGISTERS && forall i :: 0 <= i < REGISTERS ==> s.cells[i].shadow.entry == TableEntry(i)
    ensures Valid(s)
  {
    forall i | 0 <= i < REGISTERS ensures EntryOk(s.cells[i].shadow.entry) {
      ShippedTableIsOk(i);
    }
  }

  /** The default build at the shipped table: once the driver is loaded, unmuting the master volume and reading
      it back returns the value from before. */
  lemma StaleReadInDefaultBuild(s: State)
    requires |s.cells| == REGISTERS && forall i :: 0 <= i < REGISTERS ==> s.cells[i].shadow.entry == TableEntry(i)
    requires s.cells[1].codec == 0x8000
    ensures
      var s' := AfterAccesses(false, AfterMixer(false, s, []), [MUTE_OFF]);
      |s'.cells| == REGISTERS && s'.cells[1].codec == 0 && ReadResult(s'.cells[1], Done) == 0x8000
  {
    ShippedStateIsValid(s);
    OnlyWrite(0x8000, 0x9F1F);
    DefaultBuildReadsProbeValue(s, [], [MUTE_OFF], 1, Done);
  }
}
