/**
 The device behind its register window: register decode, the DMA engine with its bus copies,
 and what a bus copy may do to the device while it runs.
 */
module Device {
  import opened Bits
  import opened Bytes
  import opened EngineModel
  import opened Hw
  import Irq

  /** A register write. If it starts a transfer, the bus answers with `bus`, and the copy may
      itself write device registers: `nested`, in this order. */
  datatype Access = Access(addr: nat, value: nat, nested: seq<Access>, bus: Outcome)

  /** `mem` is what the bus copies reach, from bus address 0. */
  datatype Dev = Dev(eng: Engine, regs: seq<nat>, irq: Irq.State, mem: seq<byte>)

  /** History: bytes that a transfer put into the buffer, or into memory. */
  datatype Event = BroughtIn(at: nat, bytes: seq<byte>) | SentOut(at: nat, bytes: seq<byte>)

  /** The new device and, as history, the transfers made, how many executions began, how deeply
      they nested, and whether a copy was given a window beyond the buffer, which in the
      device's language has no defined effect. */
  datatype Result = Result(dev: Dev, events: seq<Event>, starts: nat, depth: nat, overrun: bool)

  predicate Valid(d: Dev) {
    WellFormed(d.eng) && |d.regs| == REG_CNT && Irq.Valid(d.irq)
  }

  function Done(d: Dev): Result {
    Result(d, [], 0, 0, false)
  }

  predicate RegbarValid(addr: nat) {
    REGBAR_START <= addr <= REGBAR_END
  }

  function ScratchRegister(addr: nat): (r: Option<nat>)
    ensures r.Some? ==> r.value < REG_CNT
  {
    if addr == REG_0 then Some(0) else if addr == REG_1 then Some(1)
    else if addr == REG_2 then Some(2) else if addr == REG_3 then Some(3) else None
  }

  function ConfigField(addr: nat): Option<Field> {
    if addr == DMA_CFG_TXDESC_SRC then Some(Src) else if addr == DMA_CFG_TXDESC_DST then Some(Dst)
    else if addr == DMA_CFG_TXDESC_LEN then Some(Len) else if addr == DMA_CFG_CMD then Some(Cmd) else None
  }

  function AddressOf(f: Field): nat {
    match f
    case Src => DMA_CFG_TXDESC_SRC
    case Dst => DMA_CFG_TXDESC_DST
    case Len => DMA_CFG_TXDESC_LEN
    case Cmd => DMA_CFG_CMD
  }

  lemma ConfigFieldOf(f: Field)
    ensures ConfigField(AddressOf(f)) == Some(f)
  {
  }

  /** The copy of `desc`; bytes that are not all on the bus are an error that moves nothing. */
  function CopyEvent(d: Dev, desc: Descriptor, bus: Outcome): Event
    requires Accepts(desc)
  {
    var at, a := BuffOffset(desc), Masked(d.eng, BusAddress(desc));
    if desc.cmd == DIRECTION_TO_DEVICE then BroughtIn(at, Payload(bus, Slice(d.mem, a, desc.len), desc.len))
    else
      var good := if a + desc.len <= |d.mem| then Slice(d.eng.buff, at, desc.len) else [];
      SentOut(a, Payload(bus, good, desc.len))
  }

  function ApplyEvent(d: Dev, e: Event): Dev {
    match e
    case BroughtIn(at, bytes) => d.(eng := d.eng.(buff := Patch(d.eng.buff, at, bytes)))
    case SentOut(at, bytes) => d.(mem := Patch(d.mem, at, bytes))
  }

  /** aurora_dma_execute: the arguments of the copy are fixed before the bus is called. */
  function Execute(d: Dev, a: Access): (r: Result)
    requires Valid(d)
    ensures Valid(r.dev)
    decreases a, 0
  {
    var desc := d.eng.desc;
    if !Accepts(desc) then Result(d, [], 1, 1, false)
    else
      var n := WriteAll(d, a.nested);
      var e := CopyEvent(n.dev, desc, a.bus);
      var copied := ApplyEvent(n.dev, e);
      Result(copied.(irq := Irq.Raise(copied.irq, IRQ_DMA_ENDED_VECTOR)),
             n.events + [e], 1 + n.starts, 1 + n.depth, n.overrun || !Fits(desc))
  }

  /** aurora_write_reg_by_addr, down to the DMA registers and the doorbell. */
  function Write(d: Dev, a: Access): (r: Result)
    requires Valid(d)
    ensures Valid(r.dev)
    decreases a, 1
  {
    if !RegbarValid(a.addr) then Done(d)
    else if ScratchRegister(a.addr).Some? then Done(d.(regs := d.regs[ScratchRegister(a.addr).value := a.value]))
    else if a.addr == IRQ_0_RAISE then Done(d.(irq := Irq.Raise(d.irq, 0)))
    else if a.addr == IRQ_0_LOWER then Done(d.(irq := Irq.Lower(d.irq, 0)))
    else if ConfigField(a.addr).Some? then
      if d.eng.status != IDLE then Done(d)
      else Done(d.(eng := d.eng.(desc := d.eng.desc.Set(ConfigField(a.addr).value, a.value))))
    else if a.addr == DMA_DOORBELL_RING && d.eng.status != EXECUTING then
      var r := Execute(d.(eng := d.eng.(status := if d.eng.status == IDLE then EXECUTING else d.eng.status)), a);
      r.(dev := r.dev.(eng := r.dev.eng.(status := IDLE)))
    else Done(d)
  }

  function WriteAll(d: Dev, accesses: seq<Access>): (r: Result)
    requires Valid(d)
    ensures Valid(r.dev)
    decreases accesses, 0
  {
    if accesses == [] then Done(d)
    else
      var r := Write(d, accesses[0]);
      var q := WriteAll(r.dev, accesses[1..]);
      Result(q.dev, r.events + q.events, r.starts + q.starts,
             if r.depth < q.depth then q.depth else r.depth, r.overrun || q.overrun)
  }

  /** aurora_dma_reset */
  function Reset(d: Dev): Dev {
    d.(eng := InitialEngine().(mask := d.eng.mask))
  }

  // ---------------------------------------------------------------------------
  // Re-entrancy
  // ---------------------------------------------------------------------------

  /** Nothing but scratch registers and interrupt state can change. */
  predicate SameEngine(d: Dev, r: Result) {
    && r.dev == d.(regs := r.dev.regs, irq := r.dev.irq)
    && r.events == [] && r.starts == 0 && r.depth == 0 && !r.overrun
  }

  /** While the engine executes, no sequence of register writes, however nested, reaches it. */
  lemma {:induction false} WritesDuringExecution(d: Dev, accesses: seq<Access>)
    requires Valid(d) && d.eng.status == EXECUTING
    ensures SameEngine(d, WriteAll(d, accesses))
    decreases |accesses|
  {
    if accesses != [] {
      WriteDuringExecution(d, accesses[0]);
      WritesDuringExecution(Write(d, accesses[0]).dev, accesses[1..]);
    }
  }

  lemma WriteDuringExecution(d: Dev, a: Access)
    requires Valid(d) && d.eng.status == EXECUTING
    ensures SameEngine(d, Write(d, a))
  {
  }

  /** A winning doorbell with a good descriptor: one transfer, of the descriptor as it was. */
  lemma DoorbellTransfers(d: Dev, a: Access)
    requires Valid(d) && d.eng.status == IDLE && a.addr == DMA_DOORBELL_RING && Accepts(d.eng.desc)
    ensures var r, e := Write(d, a), CopyEvent(d, d.eng.desc, a.bus);
            && r.events == [e] && r.starts == 1 && r.depth == 1 && r.overrun == !Fits(d.eng.desc)
            && r.dev.eng == ApplyEvent(d, e).eng && r.dev.mem == ApplyEvent(d, e).mem
  {
    var d1 := d.(eng := d.eng.(status := EXECUTING));
    WritesDuringExecution(d1, a.nested);
    var n := WriteAll(d1, a.nested);
    var e := CopyEvent(n.dev, d1.eng.desc, a.bus);
    assert n.dev.eng == d1.eng && n.dev.mem == d.mem;
    assert e == CopyEvent(d, d.eng.desc, a.bus);
    assert n.events + [e] == [e];
    assert Write(d, a).events == Execute(d1, a).events;
  }

  /** Whatever the bus copy writes back into the device: at most one execution begins and it does
      not nest; descriptor, command, mask, buffer, memory and transfer are those of the same
      access without the nested writes; and the engine ends idle. */
  lemma Reentrancy(d: Dev, a: Access)
    requires Valid(d) && d.eng.status == IDLE
    ensures var r, plain := Write(d, a), Write(d, a.(nested := []));
            && r.starts == r.depth == (if a.addr == DMA_DOORBELL_RING then 1 else 0)
            && r.dev.eng.status == IDLE && r.dev.eng.mask == d.eng.mask
            && (a.addr == DMA_DOORBELL_RING ==> r.dev.eng.desc == d.eng.desc)
            && r.dev.eng == plain.dev.eng && r.dev.mem == plain.dev.mem
            && r.events == plain.events && r.overrun == plain.overrun
  {
    if a.addr == DMA_DOORBELL_RING && Accepts(d.eng.desc) {
      DoorbellTransfers(d, a);
      DoorbellTransfers(d, a.(nested := []));
    } else {
      NoTransfer(d, a);
      NoTransfer(d, a.(nested := []));
    }
  }

  /** Any other write: at most a register of the engine changes, by address and value alone. */
  lemma NoTransfer(d: Dev, a: Access)
    requires Valid(d) && d.eng.status == IDLE && !(a.addr == DMA_DOORBELL_RING && Accepts(d.eng.desc))
    ensures var r := Write(d, a);
            && r.starts == r.depth == (if a.addr == DMA_DOORBELL_RING then 1 else 0)
            && r.events == [] && !r.overrun && r.dev.mem == d.mem
            && r.dev.eng == (if ConfigField(a.addr).None? then d.eng
                             else d.eng.(desc := d.eng.desc.Set(ConfigField(a.addr).value, a.value)))
  {
    if a.addr == DMA_DOORBELL_RING {
      var d1 := d.(eng := d.eng.(status := EXECUTING));
      assert Execute(d1, a) == Result(d1, [], 1, 1, false);
    }
  }

  /** The window given to the copy begins in the device area, or just behind it, and ends beyond. */
  predicate LeavesBuffer(desc: Descriptor) {
    && KnownCommand(desc)
    && DMA_AREA_START <= DeviceAddress(desc) <= DMA_AREA_START + DMA_AREA_SIZE < DeviceAddress(desc) + desc.len
  }

  lemma WriteOverruns(d: Dev, a: Access)
    requires Valid(d) && d.eng.status == IDLE
    ensures Write(d, a).overrun <==> a.addr == DMA_DOORBELL_RING && LeavesBuffer(d.eng.desc)
  {
    if a.addr == DMA_DOORBELL_RING && Accepts(d.eng.desc) {
      DoorbellTransfers(d, a);
    }
  }

  function Doorbells(accesses: seq<Access>): nat {
    if accesses == [] then 0
    else (if accesses[0].addr == DMA_DOORBELL_RING then 1 else 0) + Doorbells(accesses[1..])
  }

  /** Over any run from idle: one execution for each doorbell, never nested, idle at the end, and
      the mask that init set. */
  lemma {:induction false} RunsStayIdle(d: Dev, accesses: seq<Access>)
    requires Valid(d) && d.eng.status == IDLE
    ensures var r := WriteAll(d, accesses);
            && r.dev.eng.status == IDLE && r.dev.eng.mask == d.eng.mask
            && r.starts == Doorbells(accesses) && r.depth <= 1
    decreases |accesses|
  {
    if accesses != [] {
      Reentrancy(d, accesses[0]);
      RunsStayIdle(Write(d, accesses[0]).dev, accesses[1..]);
    }
  }

  // ---------------------------------------------------------------------------
  // The last writer
  // ---------------------------------------------------------------------------

  /** The byte that the latest transfer into the buffer covering `k` put there. */
  function LastIn(events: seq<Event>, k: nat, was: byte): byte {
    if events == [] then was
    else
      var e := events[|events| - 1];
      if e.BroughtIn? && e.at <= k < e.at + |e.bytes| then e.bytes[k - e.at]
      else LastIn(events[..|events| - 1], k, was)
  }

  /** The same for memory and transfers out of the device. */
  function LastOut(events: seq<Event>, k: nat, was: byte): byte {
    if events == [] then was
    else
      var e := events[|events| - 1];
      if e.SentOut? && e.at <= k < e.at + |e.bytes| then e.bytes[k - e.at]
      else LastOut(events[..|events| - 1], k, was)
  }

  lemma {:induction false} LastConcat(a: seq<Event>, b: seq<Event>, k: nat, was: byte)
    ensures LastIn(a + b, k, was) == LastIn(b, k, LastIn(a, k, was))
    ensures LastOut(a + b, k, was) == LastOut(b, k, LastOut(a, k, was))
    decreases |b|
  {
    if b == [] {
      assert a + b == a;
    } else {
      assert (a + b)[..|a + b| - 1] == a + b[..|b| - 1];
      LastConcat(a, b[..|b| - 1], k, was);
    }
  }

  predicate ByLastWriter(d: Dev, r: Result) {
    && |r.dev.eng.buff| == |d.eng.buff| && |r.dev.mem| == |d.mem|
    && (forall k :: 0 <= k < |d.eng.buff| ==> r.dev.eng.buff[k] == LastIn(r.events, k, d.eng.buff[k]))
    && (forall k :: 0 <= k < |d.mem| ==> r.dev.mem[k] == LastOut(r.events, k, d.mem[k]))
  }

  lemma OneTransfer(d: Dev, e: Event, r: Result)
    requires r.events == [e] && r.dev.eng.buff == ApplyEvent(d, e).eng.buff && r.dev.mem == ApplyEvent(d, e).mem
    ensures ByLastWriter(d, r)
  {
  }

  lemma WriteByLastWriter(d: Dev, a: Access)
    requires Valid(d) && d.eng.status == IDLE
    ensures ByLastWriter(d, Write(d, a))
  {
    if a.addr == DMA_DOORBELL_RING && Accepts(d.eng.desc) {
      DoorbellTransfers(d, a);
      OneTransfer(d, CopyEvent(d, d.eng.desc, a.bus), Write(d, a));
    }
  }

  /** After any run of register writes whose transfers fit, each byte of the buffer is the one
      brought by the latest transfer covering it, and each byte of memory the one sent by the
      latest covering it. */
  lemma {:induction false} LastWriter(d: Dev, accesses: seq<Access>)
    requires Valid(d) && d.eng.status == IDLE && !WriteAll(d, accesses).overrun
    ensures ByLastWriter(d, WriteAll(d, accesses))
    decreases |accesses|
  {
    if accesses != [] {
      var r := Write(d, accesses[0]);
      Reentrancy(d, accesses[0]);
      WriteByLastWriter(d, accesses[0]);
      LastWriter(r.dev, accesses[1..]);
      var q := WriteAll(r.dev, accesses[1..]);
      forall k: nat, was: byte
        ensures LastIn(r.events + q.events, k, was) == LastIn(q.events, k, LastIn(r.events, k, was))
        ensures LastOut(r.events + q.events, k, was) == LastOut(q.events, k, LastOut(r.events, k, was))
      {
        LastConcat(r.events, q.events, k, was);
      }
    }
  }

  /** Since a reset, a byte that no transfer covered is zero. */
  lemma LastWriterSinceReset(d: Dev, accesses: seq<Access>)
    requires Valid(d) && !WriteAll(Reset(d), accesses).overrun
    ensures var r := WriteAll(Reset(d), accesses);
            && r.dev.eng.mask == d.eng.mask
            && forall k :: 0 <= k < DMA_AREA_SIZE ==>
                 |r.dev.eng.buff| == DMA_AREA_SIZE && r.dev.eng.buff[k] == LastIn(r.events, k, 0)
  {
    LastWriter(Reset(d), accesses);
    RunsStayIdle(Reset(d), accesses);
  }

  // ---------------------------------------------------------------------------
  // A move through the device
  // ---------------------------------------------------------------------------

  function Config(addr: nat, value: nat): Access {
    Access(addr, value, [], Good)
  }

  /** Programming the four registers and ringing. */
  function Program(desc: Descriptor, ring: Access): seq<Access> {
    [Config(DMA_CFG_TXDESC_SRC, desc.src)] + ([Config(DMA_CFG_TXDESC_DST, desc.dst)] +
    ([Config(DMA_CFG_TXDESC_LEN, desc.len)] + ([Config(DMA_CFG_CMD, desc.cmd)] + [ring])))
  }

  lemma WriteThen(d: Dev, a: Access, rest: seq<Access>)
    requires Valid(d)
    ensures WriteAll(d, [a] + rest).dev == WriteAll(Write(d, a).dev, rest).dev
    ensures WriteAll(d, [a] + rest).overrun == (Write(d, a).overrun || WriteAll(Write(d, a).dev, rest).overrun)
  {
  }

  lemma {:induction false} WriteAllConcat(d: Dev, a: seq<Access>, b: seq<Access>)
    requires Valid(d)
    ensures WriteAll(d, a + b).dev == WriteAll(WriteAll(d, a).dev, b).dev
    ensures WriteAll(d, a + b).overrun == (WriteAll(d, a).overrun || WriteAll(WriteAll(d, a).dev, b).overrun)
    decreases |a|
  {
    if a == [] {
      assert a + b == b;
    } else {
      assert (a + b)[1..] == a[1..] + b;
      WriteAllConcat(Write(d, a[0]).dev, a[1..], b);
    }
  }

  function WithDescriptor(d: Dev, desc: Descriptor): Dev {
    d.(eng := d.eng.(desc := desc))
  }

  /** An idle engine takes the whole descriptor before it rings. */
  lemma ProgramTakes(d: Dev, desc: Descriptor, ring: Access)
    requires Valid(d) && d.eng.status == IDLE
    ensures WriteAll(d, Program(desc, ring)).dev == Write(WithDescriptor(d, desc), ring).dev
    ensures WriteAll(d, Program(desc, ring)).overrun == Write(WithDescriptor(d, desc), ring).overrun
  {
    var c4 := [ring] + [];
    var c3 := [Config(DMA_CFG_CMD, desc.cmd)] + c4;
    var c2 := [Config(DMA_CFG_TXDESC_LEN, desc.len)] + c3;
    var c1 := [Config(DMA_CFG_TXDESC_DST, desc.dst)] + c2;
    assert c4 == [ring];
    var d1 := ConfigureThen(d, Src, DMA_CFG_TXDESC_SRC, desc.src, c1);
    var d2 := ConfigureThen(d1, Dst, DMA_CFG_TXDESC_DST, desc.dst, c2);
    var d3 := ConfigureThen(d2, Len, DMA_CFG_TXDESC_LEN, desc.len, c3);
    var d4 := ConfigureThen(d3, Cmd, DMA_CFG_CMD, desc.cmd, c4);
    WriteThen(d4, ring, []);
  }

  /** A configuration write to an idle engine, before whatever follows. */
  lemma ConfigureThen(d: Dev, f: Field, addr: nat, v: nat, rest: seq<Access>) returns (d': Dev)
    requires Valid(d) && d.eng.status == IDLE && ConfigField(addr) == Some(f)
    ensures d' == WithDescriptor(d, d.eng.desc.Set(f, v)) && Valid(d')
    ensures WriteAll(d, [Config(addr, v)] + rest).dev == WriteAll(d', rest).dev
    ensures WriteAll(d, [Config(addr, v)] + rest).overrun == WriteAll(d', rest).overrun
  {
    WriteThen(d, Config(addr, v), rest);
    d' := Write(d, Config(addr, v)).dev;
  }

  predicate GoodRing(ring: Access) {
    ring.addr == DMA_DOORBELL_RING && ring.bus == Good
  }

  /** `r` is `d` after one good transfer of `desc`. */
  predicate Transferred(d: Dev, desc: Descriptor, r: Dev)
    requires Accepts(desc) && Fits(desc) && |d.eng.buff| == DMA_AREA_SIZE
    requires Low32(BusAddress(desc)) + desc.len <= |d.mem|
  {
    var at, a := BuffOffset(desc), Low32(BusAddress(desc));
    && r.eng.status == IDLE && r.eng.desc == desc
    && if desc.cmd == DIRECTION_TO_DEVICE
       then r.mem == d.mem && r.eng.buff == Patch(d.eng.buff, at, d.mem[a..a + desc.len])
       else r.eng.buff == d.eng.buff && r.mem == Patch(d.mem, a, d.eng.buff[at..at + desc.len])
  }

  /** One good transfer in either direction, to or from the low 32 bits of its bus address, whatever
      the copy writes back into the device. */
  lemma GoodTransfer(d: Dev, desc: Descriptor, ring: Access)
    requires Valid(d) && d.eng.status == IDLE && GoodRing(ring) && Accepts(desc) && Fits(desc)
    requires Low32(BusAddress(desc)) + desc.len <= |d.mem|
    ensures Transferred(d, desc, WriteAll(d, Program(desc, ring)).dev)
  {
    ProgramTakes(d, desc, ring);
    GoodDoorbell(WithDescriptor(d, desc), ring);
  }

  lemma GoodDoorbell(d: Dev, ring: Access)
    requires Valid(d) && d.eng.status == IDLE && GoodRing(ring) && Accepts(d.eng.desc) && Fits(d.eng.desc)
    requires Low32(BusAddress(d.eng.desc)) + d.eng.desc.len <= |d.mem|
    ensures Transferred(d, d.eng.desc, Write(d, ring).dev)
  {
    DoorbellTransfers(d, ring);
    MaskIsLow32(d.eng, BusAddress(d.eng.desc));
  }

  /** To the device and back through the same window is a move of memory: safe for overlapping
      source and destination, with every other byte of memory and of the buffer left alone. */
  lemma DeviceMove(d: Dev, src: nat, dst: nat, offset: nat, len: nat, ring1: Access, ring2: Access)
    requires Valid(d) && d.eng.status == IDLE && GoodRing(ring1) && GoodRing(ring2)
    requires offset + len <= DMA_AREA_SIZE
    requires Low32(src) + len <= |d.mem| && Low32(dst) + len <= |d.mem|
    ensures var to := Program(Descriptor(src, DMA_AREA_START + offset, len, DIRECTION_TO_DEVICE), ring1);
            var from := Program(Descriptor(DMA_AREA_START + offset, dst, len, DIRECTION_FROM_DEVICE), ring2);
            var r, moved := WriteAll(d, to + from).dev, d.mem[Low32(src)..Low32(src) + len];
            r.mem == Patch(d.mem, Low32(dst), moved) && r.eng.buff == Patch(d.eng.buff, offset, moved)
  {
    var to := Descriptor(src, DMA_AREA_START + offset, len, DIRECTION_TO_DEVICE);
    var from := Descriptor(DMA_AREA_START + offset, dst, len, DIRECTION_FROM_DEVICE);
    GoodTransfer(d, to, ring1);
    var d1 := WriteAll(d, Program(to, ring1)).dev;
    GoodTransfer(d1, from, ring2);
    WriteAllConcat(d, Program(to, ring1), Program(from, ring2));
    MoveOfTransfers(d, d1, WriteAll(d1, Program(from, ring2)).dev, to, from);
  }

  lemma MoveOfTransfers(d: Dev, d1: Dev, d2: Dev, to: Descriptor, from: Descriptor)
    requires |d.eng.buff| == DMA_AREA_SIZE && Accepts(to) && Fits(to) && Accepts(from) && Fits(from)
    requires to.cmd == DIRECTION_TO_DEVICE && from.cmd == DIRECTION_FROM_DEVICE
    requires to.len == from.len && to.dst == from.src
    requires Low32(to.src) + to.len <= |d.mem| && Low32(from.dst) + from.len <= |d.mem|
    requires Transferred(d, to, d1) && Transferred(d1, from, d2)
    ensures var moved := d.mem[Low32(to.src)..Low32(to.src) + to.len];
            && d2.mem == Patch(d.mem, Low32(from.dst), moved)
            && d2.eng.buff == Patch(d.eng.buff, to.dst - DMA_AREA_START, moved)
  {
  }

  // ---------------------------------------------------------------------------
  // Overruns
  // ---------------------------------------------------------------------------

  /** The last value written to the register at `addr`, if any was. */
  function LastValue(was: nat, accesses: seq<Access>, addr: nat): nat {
    if accesses == [] then was
    else
      var a := accesses[|accesses| - 1];
      if a.addr == addr then a.value else LastValue(was, accesses[..|accesses| - 1], addr)
  }

  function LastDescriptor(was: Descriptor, accesses: seq<Access>): Descriptor {
    Descriptor(LastValue(was.src, accesses, DMA_CFG_TXDESC_SRC), LastValue(was.dst, accesses, DMA_CFG_TXDESC_DST),
               LastValue(was.len, accesses, DMA_CFG_TXDESC_LEN), LastValue(was.cmd, accesses, DMA_CFG_CMD))
  }

  lemma WriteSnoc(d: Dev, before: seq<Access>, a: Access)
    requires Valid(d)
    ensures var mid := WriteAll(d, before);
            && WriteAll(d, before + [a]).dev == Write(mid.dev, a).dev
            && WriteAll(d, before + [a]).overrun == (mid.overrun || Write(mid.dev, a).overrun)
  {
    WriteAllConcat(d, before, [a]);
    WriteThen(WriteAll(d, before).dev, a, []);
    assert [a] + [] == [a];
  }

  /** The descriptor once `a` is written too. */
  function Stored(desc: Descriptor, a: Access): Descriptor {
    if ConfigField(a.addr).Some? then desc.Set(ConfigField(a.addr).value, a.value) else desc
  }

  lemma LastSnoc(was: Descriptor, before: seq<Access>, a: Access)
    ensures LastDescriptor(was, before + [a]) == Stored(LastDescriptor(was, before), a)
  {
    assert (before + [a])[..|before|] == before;
    assert forall w: nat, addr: nat ::
        LastValue(w, before + [a], addr) == if a.addr == addr then a.value else LastValue(w, before, addr);
  }

  lemma WriteStores(d: Dev, a: Access)
    requires Valid(d) && d.eng.status == IDLE
    ensures Write(d, a).dev.eng.desc == Stored(d.eng.desc, a)
  {
    if a.addr == DMA_DOORBELL_RING {
      Reentrancy(d, a);
    }
  }

  /** Over any run from idle each register of the descriptor holds the last value written to it at
      the top level: nothing that bus copies write on the side is ever in it. */
  lemma {:induction false} DescriptorIsLastWritten(d: Dev, accesses: seq<Access>)
    requires Valid(d) && d.eng.status == IDLE
    ensures WriteAll(d, accesses).dev.eng.desc == LastDescriptor(d.eng.desc, accesses)
    decreases |accesses|
  {
    if accesses != [] {
      var before, a := accesses[..|accesses| - 1], accesses[|accesses| - 1];
      assert accesses == before + [a];
      DescriptorIsLastWritten(d, before);
      RunsStayIdle(d, before);
      WriteSnoc(d, before, a);
      WriteStores(WriteAll(d, before).dev, a);
      LastSnoc(d.eng.desc, before, a);
    }
  }

  /** The doorbell at position `i` is rung with registers that describe a window beyond the buffer. */
  predicate OverrunsAt(was: Descriptor, accesses: seq<Access>, i: nat)
    requires i < |accesses|
  {
    accesses[i].addr == DMA_DOORBELL_RING && LeavesBuffer(LastDescriptor(was, accesses[..i]))
  }

  /** A run of writes overruns the buffer if and only if some doorbell of it is rung with last
      written registers that describe a window beyond the buffer. */
  lemma {:induction false} OverrunIff(d: Dev, accesses: seq<Access>)
    requires Valid(d) && d.eng.status == IDLE
    ensures WriteAll(d, accesses).overrun <==> exists i :: 0 <= i < |accesses| && OverrunsAt(d.eng.desc, accesses, i)
    decreases |accesses|
  {
    if accesses != [] {
      var n := |accesses| - 1;
      var before, a := accesses[..n], accesses[n];
      assert accesses == before + [a];
      OverrunIff(d, before);
      RunsStayIdle(d, before);
      DescriptorIsLastWritten(d, before);
      WriteSnoc(d, before, a);
      WriteOverruns(WriteAll(d, before).dev, a);
      assert OverrunsAt(d.eng.desc, accesses, n) == Write(WriteAll(d, before).dev, a).overrun;
      forall i | 0 <= i < n
        ensures OverrunsAt(d.eng.desc, accesses, i) == OverrunsAt(d.eng.desc, before, i)
      {
        assert accesses[..i] == before[..i];
      }
    }
  }

  /** Programming a window and ringing overruns the buffer exactly when the window leaves it. */
  lemma ProgramOverrunsIff(d: Dev, desc: Descriptor, ring: Access)
    requires Valid(d) && d.eng.status == IDLE && ring.addr == DMA_DOORBELL_RING
    ensures WriteAll(d, Program(desc, ring)).overrun <==> LeavesBuffer(desc)
  {
    ProgramTakes(d, desc, ring);
    WriteOverruns(WithDescriptor(d, desc), ring);
  }

  /** From every idle state: a transfer to the address just behind the buffer overruns it. */
  lemma OverrunReachable(d: Dev, src: nat, len: nat, ring: Access)
    requires Valid(d) && d.eng.status == IDLE && ring.addr == DMA_DOORBELL_RING && len >= 1
    ensures var desc := Descriptor(src, DMA_AREA_START + DMA_AREA_SIZE, len, DIRECTION_TO_DEVICE);
            WriteAll(d, Program(desc, ring)).overrun
  {
    ProgramOverrunsIff(d, Descriptor(src, DMA_AREA_START + DMA_AREA_SIZE, len, DIRECTION_TO_DEVICE), ring);
  }
}
