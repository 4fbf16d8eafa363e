/**
 The device as its programmer sees it: what every register, the completion interrupt and every
 byte hold after any run of register writes, by addresses and values alone.
 */
module DeviceRuns {
  import opened Bits
  import opened Bytes
  import opened EngineModel
  import opened Hw
  import opened Device
  import opened DeviceIrq
  import Irq

  /** A doorbell starts a transfer on these registers. */
  predicate Starts(desc: Descriptor) {
    || (desc.cmd == 1 && 0x10000 <= desc.dst <= 0x11000)
    || (desc.cmd == 2 && 0x10000 <= desc.src <= 0x11000)
  }

  lemma StartsIff(desc: Descriptor)
    ensures Starts(desc) <==> Accepts(desc)
  {
  }

  /** The doorbell at the end of `before` and `a` starts a transfer. */
  predicate StartedBy(was: Descriptor, before: seq<Access>, a: Access) {
    a.addr == 0x50 && Starts(LastDescriptor(was, before))
  }

  /** The last write and, if it starts a transfer, the writes that its copy makes. What these nest in
      turn does not happen, the engine being busy. */
  function Now(was: Descriptor, before: seq<Access>, a: Access): seq<Access> {
    [a] + if StartedBy(was, before, a) then a.nested else []
  }

  /** The writes that reach the device, in order. */
  function Performed(was: Descriptor, accesses: seq<Access>): seq<Access> {
    if accesses == [] then []
    else
      var before, a := accesses[..|accesses| - 1], accesses[|accesses| - 1];
      Performed(was, before) + Now(was, before, a)
  }

  lemma PerformedSnoc(was: Descriptor, before: seq<Access>, a: Access)
    ensures Performed(was, before + [a]) == Performed(was, before) + Now(was, before, a)
  {
    assert (before + [a])[..|before|] == before;
  }

  /** What is known of the engine before the last write of a run. */
  lemma BeforeLast(d: Dev, before: seq<Access>, a: Access)
    requires Valid(d) && d.eng.status == IDLE
    ensures var mid := WriteAll(d, before).dev;
            && mid.eng.status == IDLE && mid.eng.desc == LastDescriptor(d.eng.desc, before)
            && WriteAll(d, before + [a]).dev == Write(mid, a).dev
  {
    RunsStayIdle(d, before);
    DescriptorIsLastWritten(d, before);
    WriteSnoc(d, before, a);
  }

  predicate IsRegister(addr: nat) {
    addr % 8 == 0 && addr <= 0x50
  }

  lemma Decode(addr: nat)
    ensures !IsRegister(addr) ==> addr != 0x20 && addr != 0x28 && addr != 0x50
    ensures !IsRegister(addr) ==> ScratchRegister(addr).None? && ConfigField(addr).None?
    ensures forall i :: 0 <= i < 4 ==> (ScratchRegister(addr) == Some(i) <==> addr == 8 * i)
  {
  }

  /** A write to an address that is no register has no effect; one beyond the window neither. */
  lemma OtherAddressesIgnored(d: Dev, a: Access)
    requires Valid(d) && !IsRegister(a.addr)
    ensures Write(d, a) == Done(d)
  {
    Decode(a.addr);
    NothingDecoded(d, a);
  }

  lemma NothingDecoded(d: Dev, a: Access)
    requires Valid(d) && ScratchRegister(a.addr).None? && ConfigField(a.addr).None?
    requires a.addr != 0x20 && a.addr != 0x28 && a.addr != 0x50
    ensures Write(d, a) == Done(d)
  {
  }

  // ---------------------------------------------------------------------------
  // Scratch registers
  // ---------------------------------------------------------------------------

  lemma {:induction false} LastValueConcat(was: nat, a: seq<Access>, b: seq<Access>, addr: nat)
    ensures LastValue(was, a + b, addr) == LastValue(LastValue(was, a, addr), b, addr)
    decreases |b|
  {
    if b == [] {
      assert a + b == a;
    } else {
      assert (a + b)[..|a + b| - 1] == a + b[..|b| - 1];
      LastValueConcat(was, a, b[..|b| - 1], addr);
    }
  }

  /** One write that starts no transfer. */
  lemma ScratchWrite(d: Dev, a: Access, i: nat)
    requires Valid(d) && i < 4 && (a.addr == 0x50 ==> d.eng.status == EXECUTING || !Accepts(d.eng.desc))
    ensures Write(d, a).dev.regs[i] == LastValue(d.regs[i], [a], 8 * i)
  {
    Decode(a.addr);
    ScratchStored(d, a, i);
    assert [a][..0] == [];
  }

  lemma ScratchStored(d: Dev, a: Access, i: nat)
    requires Valid(d) && i < 4 && (a.addr == 0x50 ==> d.eng.status == EXECUTING || !Accepts(d.eng.desc))
    ensures Write(d, a).dev.regs[i] == if ScratchRegister(a.addr) == Some(i) then a.value else d.regs[i]
  {
    if a.addr == 0x50 && d.eng.status != EXECUTING {
      RejectedKeepsRegisters(d, a);
    }
  }

  lemma RejectedKeepsRegisters(d: Dev, a: Access)
    requires Valid(d) && a.addr == 0x50 && d.eng.status != EXECUTING && !Accepts(d.eng.desc)
    ensures Write(d, a).dev.regs == d.regs
  {
  }

  lemma {:induction false} ScratchNested(d: Dev, accesses: seq<Access>, i: nat)
    requires Valid(d) && d.eng.status == EXECUTING && i < 4
    ensures WriteAll(d, accesses).dev.regs[i] == LastValue(d.regs[i], accesses, 8 * i)
    decreases |accesses|
  {
    if accesses != [] {
      var before, a := accesses[..|accesses| - 1], accesses[|accesses| - 1];
      assert accesses == before + [a];
      ScratchNested(d, before, i);
      WritesDuringExecution(d, before);
      WriteSnoc(d, before, a);
      ScratchWrite(WriteAll(d, before).dev, a, i);
      LastValueConcat(d.regs[i], before, [a], 8 * i);
    }
  }

  lemma StartedKeepsNested(d: Dev, a: Access)
    requires Valid(d) && d.eng.status == IDLE && a.addr == 0x50 && Accepts(d.eng.desc)
    ensures Write(d, a).dev.regs == WriteAll(d.(eng := d.eng.(status := EXECUTING)), a.nested).dev.regs
  {
  }

  lemma ScratchTop(d: Dev, a: Access, i: nat)
    requires Valid(d) && d.eng.status == IDLE && i < 4
    ensures Write(d, a).dev.regs[i]
         == LastValue(d.regs[i], [a] + if a.addr == 0x50 && Starts(d.eng.desc) then a.nested else [], 8 * i)
  {
    StartsIff(d.eng.desc);
    if a.addr == 0x50 && Starts(d.eng.desc) {
      StartedKeepsNested(d, a);
      ScratchNested(d.(eng := d.eng.(status := EXECUTING)), a.nested, i);
      LastValueConcat(d.regs[i], [a], a.nested, 8 * i);
      assert [a][..0] == [];
    } else {
      ScratchWrite(d, a, i);
      assert [a] + [] == [a];
    }
  }

  /** Over any run from idle the scratch register at address 8 * i holds the last value written to that
      address, by the run itself or by a transfer's copy in the middle of it, or what it held. */
  lemma {:induction false} ScratchHoldsLastWritten(d: Dev, accesses: seq<Access>, i: nat)
    requires Valid(d) && d.eng.status == IDLE && i < 4
    ensures WriteAll(d, accesses).dev.regs[i] == LastValue(d.regs[i], Performed(d.eng.desc, accesses), 8 * i)
    decreases |accesses|
  {
    if accesses != [] {
      var before, a := accesses[..|accesses| - 1], accesses[|accesses| - 1];
      assert accesses == before + [a];
      ScratchHoldsLastWritten(d, before, i);
      BeforeLast(d, before, a);
      var mid, done := WriteAll(d, before).dev, Performed(d.eng.desc, before);
      ScratchTop(mid, a, i);
      PerformedSnoc(d.eng.desc, before, a);
      LastValueConcat(d.regs[i], done, Now(d.eng.desc, before, a), 8 * i);
    }
  }

  // ---------------------------------------------------------------------------
  // The completion interrupt
  // ---------------------------------------------------------------------------

  /** The completion interrupt is up: its flag, or the line when neither MSI-X nor MSI is enabled. */
  predicate Raised(s: Irq.State)
    requires Irq.Valid(s)
  {
    if s.mode == Irq.Pin then s.line else Irq.Flag(s, 0)
  }

  /** The last write of a run to raise it, to lower it or to start a transfer decides. */
  predicate LastSignal(was: Descriptor, accesses: seq<Access>, up: bool) {
    if accesses == [] then up
    else
      var before, a := accesses[..|accesses| - 1], accesses[|accesses| - 1];
      if a.addr == 0x20 || StartedBy(was, before, a) then true
      else if a.addr == 0x28 then false
      else LastSignal(was, before, up)
  }

  /** One notification for each write that raises and for each transfer. */
  function Notices(was: Descriptor, accesses: seq<Access>): nat {
    if accesses == [] then 0
    else
      var before, a := accesses[..|accesses| - 1], accesses[|accesses| - 1];
      Notices(was, before) + (if a.addr == 0x20 then 1 else 0)
      + if StartedBy(was, before, a) then RaiseWrites(a.nested) + 1 else 0
  }

  lemma SignalSnoc(was: Descriptor, before: seq<Access>, a: Access, up: bool)
    ensures var started := StartedBy(was, before, a);
            && LastSignal(was, before + [a], up)
               == (a.addr == 0x20 || started || (a.addr != 0x28 && LastSignal(was, before, up)))
            && Notices(was, before + [a]) == Notices(was, before)
               + if a.addr == 0x20 then 1 else if started then RaiseWrites(a.nested) + 1 else 0
  {
    assert (before + [a])[..|before|] == before;
  }

  lemma QuietWrite(d: Dev, a: Access)
    requires Valid(d) && a.addr != 0x20 && a.addr != 0x28 && a.addr != 0x50
    ensures Write(d, a).dev.irq == d.irq
  {
  }

  predicate Signalled(s: Irq.State, r: Irq.State, up: bool, n: nat)
    requires Irq.Valid(s) && Irq.Valid(r)
  {
    && r.mode == s.mode && Raised(r) == up && OthersKept(s, r)
    && r.notified == s.notified + Completions(if s.mode == Irq.Pin then 0 else n)
  }

  lemma SignalWrite(d: Dev, a: Access)
    requires Valid(d) && (a.addr == 0x20 || a.addr == 0x28)
    ensures Signalled(d.irq, Write(d, a).dev.irq, a.addr == 0x20, if a.addr == 0x20 then 1 else 0)
  {
  }

  lemma SignalTop(d: Dev, a: Access)
    requires Valid(d) && d.eng.status == IDLE
    ensures var started := a.addr == 0x50 && Starts(d.eng.desc);
            Signalled(d.irq, Write(d, a).dev.irq,
                      a.addr == 0x20 || started || (a.addr != 0x28 && Raised(d.irq)),
                      if a.addr == 0x20 then 1 else if started then RaiseWrites(a.nested) + 1 else 0)
  {
    if a.addr == 0x20 || a.addr == 0x28 {
      SignalWrite(d, a);
    } else if a.addr == 0x50 {
      SignalDoorbell(d, a);
    } else {
      QuietWrite(d, a);
    }
  }

  lemma SignalDoorbell(d: Dev, a: Access)
    requires Valid(d) && d.eng.status == IDLE && a.addr == 0x50
    ensures Signalled(d.irq, Write(d, a).dev.irq, Starts(d.eng.desc) || Raised(d.irq),
                      if Starts(d.eng.desc) then RaiseWrites(a.nested) + 1 else 0)
  {
    StartsIff(d.eng.desc);
    InterruptIffAccepted(d, a);
  }

  lemma SignalChain(s: Irq.State, mid: Irq.State, r: Irq.State, up1: bool, n1: nat, up: bool, n: nat)
    requires Irq.Valid(s) && Irq.Valid(mid) && Irq.Valid(r) && Signalled(s, mid, up1, n1) && Signalled(mid, r, up, n)
    ensures Signalled(s, r, up, n1 + n)
  {
    assert Completions(n1 + n) == Completions(n1) + Completions(n);
  }

  /** Over any run from idle the completion interrupt is up exactly when the last write to signal it
      raised it or started a transfer; it was notified once for each of these, those nested in a
      transfer included; no other vector and no mode changes; and in pin mode nothing is notified. */
  lemma {:induction false} SignalIsLast(d: Dev, accesses: seq<Access>)
    requires Valid(d) && d.eng.status == IDLE
    ensures var r := WriteAll(d, accesses).dev.irq;
            && r.mode == d.irq.mode && Raised(r) == LastSignal(d.eng.desc, accesses, Raised(d.irq))
            && OthersKept(d.irq, r)
            && r.notified == d.irq.notified
                             + Completions(if d.irq.mode == Irq.Pin then 0 else Notices(d.eng.desc, accesses))
    decreases |accesses|
  {
    if accesses != [] {
      var before, a := accesses[..|accesses| - 1], accesses[|accesses| - 1];
      assert accesses == before + [a];
      SignalIsLast(d, before);
      BeforeLast(d, before, a);
      var mid, was := WriteAll(d, before).dev, d.eng.desc;
      SignalTop(mid, a);
      SignalSnoc(was, before, a, Raised(d.irq));
      var n := if a.addr == 0x20 then 1 else if StartedBy(was, before, a) then RaiseWrites(a.nested) + 1 else 0;
      SignalChain(d.irq, mid.irq, Write(mid, a).dev.irq, LastSignal(was, before, Raised(d.irq)), Notices(was, before),
                  LastSignal(was, accesses, Raised(d.irq)), n);
    }
  }

  // ---------------------------------------------------------------------------
  // After a reset
  // ---------------------------------------------------------------------------

  predicate NoConfiguration(accesses: seq<Access>) {
    forall k :: 0 <= k < |accesses| ==>
      var addr := accesses[k].addr; addr != 0x30 && addr != 0x38 && addr != 0x40 && addr != 0x48
  }

  lemma {:induction false} UnwrittenKeeps(was: nat, accesses: seq<Access>, addr: nat)
    requires forall k :: 0 <= k < |accesses| ==> accesses[k].addr != addr
    ensures LastValue(was, accesses, addr) == was
    decreases |accesses|
  {
    if accesses != [] {
      UnwrittenKeeps(was, accesses[..|accesses| - 1], addr);
    }
  }

  lemma RegistersKept(desc: Descriptor, accesses: seq<Access>)
    requires NoConfiguration(accesses)
    ensures LastDescriptor(desc, accesses) == desc
  {
    UnwrittenKeeps(desc.src, accesses, 0x30);
    UnwrittenKeeps(desc.dst, accesses, 0x38);
    UnwrittenKeeps(desc.len, accesses, 0x40);
    UnwrittenKeeps(desc.cmd, accesses, 0x48);
  }

  /** An idle engine with nothing in its registers. */
  predicate Blank(e: Engine) {
    && e.status == IDLE && (forall f :: e.desc.Get(f) == 0)
    && |e.buff| == 0x1000 && forall k :: 0 <= k < |e.buff| ==> e.buff[k] == 0
  }

  /** A reset leaves every register of the engine zero and its buffer cleared, whatever it was doing;
      the mask, the scratch registers, the interrupts and memory stay. So is a new engine blank. */
  lemma ResetIsBlank(d: Dev)
    ensures Blank(Reset(d).eng) && Blank(InitialEngine())
    ensures var r := Reset(d); r == d.(eng := r.eng) && r.eng.mask == d.eng.mask
    ensures InitialEngine().mask == TWO_TO_THE_32 - 1
  {
    Pow2Landmarks();
  }

  /** Until its registers are written, the doorbells of a blank engine do nothing: no transfer, no
      notification, no change at all, whatever else is written in between. */
  lemma BlankDoorbell(d: Dev, accesses: seq<Access>, a: Access)
    requires Valid(d) && Blank(d.eng) && NoConfiguration(accesses) && a.addr == 0x50
    ensures var mid := WriteAll(d, accesses).dev;
            && Write(mid, a).dev == mid && Write(mid, a).events == []
  {
    BeforeLast(d, accesses, a);
    RegistersKept(d.eng.desc, accesses);
    assert d.eng.desc.Get(Cmd) == 0;
    RejectedHasNoEffect(WriteAll(d, accesses).dev, a);
  }

  lemma RejectedHasNoEffect(d: Dev, a: Access)
    requires Valid(d) && d.eng.status == IDLE && a.addr == 0x50 && !Accepts(d.eng.desc)
    ensures Write(d, a).dev == d && Write(d, a).events == []
  {
    InterruptIffAccepted(d, a);
    NoTransfer(d, a);
  }

  /** The same after a reset, and after the device was made. */
  lemma DoorbellAfterReset(d: Dev, accesses: seq<Access>, a: Access)
    requires Valid(d) && NoConfiguration(accesses) && a.addr == 0x50
    ensures var mid := WriteAll(Reset(d), accesses).dev;
            && Write(mid, a).dev == mid && Write(mid, a).events == []
  {
    ResetIsBlank(d);
    BlankDoorbell(Reset(d), accesses, a);
  }

  // ---------------------------------------------------------------------------
  // The window of a transfer
  // ---------------------------------------------------------------------------

  /** A transfer, good or failed, changes bytes of its window only: of the buffer from its device
      address, or of memory from the low 32 bits of its bus address. */
  lemma TransferKeepsOutside(d: Dev, a: Access, k: nat)
    requires Valid(d) && d.eng.status == IDLE && a.addr == 0x50 && Starts(d.eng.desc)
    ensures var r, desc := Write(d, a).dev, d.eng.desc;
            && |r.eng.buff| == |d.eng.buff| && |r.mem| == |d.mem|
            && (k < |d.eng.buff| && !(desc.cmd == 1 && desc.dst - 0x10000 <= k < desc.dst - 0x10000 + desc.len) ==>
                  r.eng.buff[k] == d.eng.buff[k])
            && (k < |d.mem| && !(desc.cmd == 2 && Low32(desc.dst) <= k < Low32(desc.dst) + desc.len) ==>
                  r.mem[k] == d.mem[k])
  {
    StartsIff(d.eng.desc);
    DoorbellTransfers(d, a);
    MaskIsLow32(d.eng, BusAddress(d.eng.desc));
    EventInWindow(d, a.bus);
  }

  /** The bytes that a transfer moves. */
  lemma EventInWindow(d: Dev, bus: Outcome)
    requires Valid(d) && Accepts(d.eng.desc)
    ensures var e, desc := CopyEvent(d, d.eng.desc, bus), d.eng.desc;
            && |e.bytes| <= desc.len
            && (if desc.cmd == 1 then e.BroughtIn? && e.at == desc.dst - 0x10000
                else e.SentOut? && e.at == Masked(d.eng, desc.dst))
  {
  }

  /** Byte `i` of `n` is moved: if the bus reports no error and has them all, or as far as a failing
      copy came. */
  predicate MovesByte(bus: Outcome, there: bool, n: nat, i: int) {
    0 <= i < n && match bus
                  case Good => there
                  case Bad(junk) => i < |junk|
  }

  /** `to` with `n` bytes of `from` laid over it, as far as they are moved. */
  lemma LaidOver(to: seq<byte>, at: nat, bus: Outcome, there: bool, from: seq<byte>, a: nat, n: nat, k: nat)
    requires k < |to| && (there ==> a + n <= |from|)
    ensures Patch(to, at, Payload(bus, if there then Slice(from, a, n) else [], n))[k]
         == if !MovesByte(bus, there, n, k - at) then to[k]
            else if bus.Good? then from[a + k - at] else bus.junk[k - at]
  {
  }

  lemma ToDeviceEvent(d: Dev, bus: Outcome)
    requires Valid(d) && d.eng.desc.cmd == 1 && 0x10000 <= d.eng.desc.dst <= 0x11000
    ensures var desc := d.eng.desc;
            var a := Low32(desc.src);
            var good := if a + desc.len <= |d.mem| then Slice(d.mem, a, desc.len) else [];
            && Accepts(desc)
            && CopyEvent(d, desc, bus) == BroughtIn(desc.dst - 0x10000, Payload(bus, good, desc.len))
  {
    MaskIsLow32(d.eng, d.eng.desc.src);
  }

  lemma FromDeviceEvent(d: Dev, bus: Outcome)
    requires Valid(d) && d.eng.desc.cmd == 2
    requires 0x10000 <= d.eng.desc.src && d.eng.desc.src + d.eng.desc.len <= 0x11000
    ensures var desc := d.eng.desc;
            var a := Low32(desc.dst);
            var good := if a + desc.len <= |d.mem| then Slice(d.eng.buff, desc.src - 0x10000, desc.len) else [];
            Accepts(desc) && CopyEvent(d, desc, bus) == SentOut(a, Payload(bus, good, desc.len))
  {
    MaskIsLow32(d.eng, d.eng.desc.dst);
  }

  /** `r` is `d` after a transfer to the device, as far as byte `k` of the buffer and all of memory. */
  predicate BroughtTo(d: Dev, o: Outcome, r: Dev, k: nat)
    requires k < |d.eng.buff| && 0x10000 <= d.eng.desc.dst
  {
    var bus, at, n := Low32(d.eng.desc.src), d.eng.desc.dst - 0x10000, d.eng.desc.len;
    var there := bus + n <= |d.mem|;
    && r.mem == d.mem && |r.eng.buff| == |d.eng.buff|
    && r.eng.buff[k] == if !MovesByte(o, there, n, k - at) then d.eng.buff[k]
                        else if o.Good? then d.mem[bus + k - at] else o.junk[k - at]
  }

  /** `r` is `d` after a transfer from the device, as far as byte `k` of memory and all of the buffer. */
  predicate SentTo(d: Dev, o: Outcome, r: Dev, k: nat)
    requires k < |d.mem| && 0x10000 <= d.eng.desc.src && d.eng.desc.src + d.eng.desc.len <= 0x10000 + |d.eng.buff|
  {
    var bus, at, n := Low32(d.eng.desc.dst), d.eng.desc.src - 0x10000, d.eng.desc.len;
    var there := bus + n <= |d.mem|;
    && r.eng.buff == d.eng.buff && |r.mem| == |d.mem|
    && r.mem[k] == if !MovesByte(o, there, n, k - bus) then d.mem[k]
                   else if o.Good? then d.eng.buff[at + k - bus] else o.junk[k - bus]
  }

  lemma EventBrings(d: Dev, o: Outcome, r: Dev, k: nat)
    requires Valid(d) && d.eng.desc.cmd == 1 && k < 0x1000
    requires 0x10000 <= d.eng.desc.dst && d.eng.desc.dst + d.eng.desc.len <= 0x11000
    requires var e := CopyEvent(d, d.eng.desc, o);
             r.eng.buff == ApplyEvent(d, e).eng.buff && r.mem == ApplyEvent(d, e).mem
    ensures BroughtTo(d, o, r, k)
  {
    var bus, at, n := Low32(d.eng.desc.src), d.eng.desc.dst - 0x10000, d.eng.desc.len;
    ToDeviceEvent(d, o);
    LaidOver(d.eng.buff, at, o, bus + n <= |d.mem|, d.mem, bus, n, k);
  }

  lemma EventSends(d: Dev, o: Outcome, r: Dev, k: nat)
    requires Valid(d) && d.eng.desc.cmd == 2 && k < |d.mem|
    requires 0x10000 <= d.eng.desc.src && d.eng.desc.src + d.eng.desc.len <= 0x11000
    requires var e := CopyEvent(d, d.eng.desc, o);
             r.eng.buff == ApplyEvent(d, e).eng.buff && r.mem == ApplyEvent(d, e).mem
    ensures SentTo(d, o, r, k)
  {
    var bus, at, n := Low32(d.eng.desc.dst), d.eng.desc.src - 0x10000, d.eng.desc.len;
    FromDeviceEvent(d, o);
    LaidOver(d.mem, bus, o, bus + n <= |d.mem|, d.eng.buff, at, n, k);
  }

  /** A doorbell on registers whose window fits moves exactly the bytes they describe: good copies as
      they were, failed ones whatever came, and with a window that is not all on the bus none. */
  lemma DoorbellBytes(d: Dev, a: Access, k: nat)
    requires Valid(d) && d.eng.status == IDLE && a.addr == 0x50
    ensures var desc, r := d.eng.desc, Write(d, a).dev;
            && (desc.cmd == 1 && 0x10000 <= desc.dst && desc.dst + desc.len <= 0x11000 && k < 0x1000 ==>
                  BroughtTo(d, a.bus, r, k))
            && (desc.cmd == 2 && 0x10000 <= desc.src && desc.src + desc.len <= 0x11000 && k < |d.mem| ==>
                  SentTo(d, a.bus, r, k))
  {
    var desc := d.eng.desc;
    StartsIff(desc);
    if desc.cmd == 1 && 0x10000 <= desc.dst && desc.dst + desc.len <= 0x11000 && k < 0x1000 {
      DoorbellTransfers(d, a);
      EventBrings(d, a.bus, Write(d, a).dev, k);
    } else if desc.cmd == 2 && 0x10000 <= desc.src && desc.src + desc.len <= 0x11000 && k < |d.mem| {
      DoorbellTransfers(d, a);
      EventSends(d, a.bus, Write(d, a).dev, k);
    }
  }
}
