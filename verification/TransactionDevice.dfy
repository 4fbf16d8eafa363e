/** The steps of the transaction protocol are the register writes of the device. */
module TransactionDevice {
  import opened Bytes
  import opened EngineModel
  import opened Hw
  import opened Transaction
  import opened TransactionInv
  import opened TransactionProof
  import Device
  import DeviceIrq
  import Irq

  /** A status read and a store with nothing in between are one configuration write, whatever
      state the engine is in. */
  lemma ConfigStepsAgree(s: Sys, t: Tid, f: Field, d: Device.Dev)
    requires t in s.threads && At(s, t) == ReadStatus(f) && Device.Valid(d) && d.eng == s.eng
    ensures CanStep(s, t) && CanStep(ApplyStep(s, t), t)
    ensures var v := RegisterValue(s.drv.handle, s.drv.len, s.threads[t].dir, f);
            ApplyStep(ApplyStep(s, t), t).eng == Device.Write(d, Device.Config(Device.AddressOf(f), v)).dev.eng
  {
    var s1, th := ApplyStep(s, t), s.threads[t];
    assert s1 == s.(threads := s.threads[t := th.(pc := WriteField(f), seen := s.eng.status)]);
    var v := RegisterValue(s.drv.handle, s.drv.len, th.dir, f);
    assert ApplyStep(s1, t).eng == ConfiguredEngine(s.eng, f, v);
    DeviceConfigures(d, f, v);
  }

  function ConfiguredEngine(e: Engine, f: Field, v: nat): Engine {
    if e.status == IDLE then e.(desc := e.desc.Set(f, v)) else e
  }

  lemma DeviceConfigures(d: Device.Dev, f: Field, v: nat)
    requires Device.Valid(d)
    ensures Device.Write(d, Device.Config(Device.AddressOf(f), v)).dev.eng == ConfiguredEngine(d.eng, f, v)
  {
    Device.ConfigFieldOf(f);
  }

  /** The bus shows, at `handle`, the window of the page. */
  predicate ShowsWindow(bus: seq<byte>, handle: nat, mem: Memory, page: Page, ofs: nat, len: nat) {
    && handle + len <= |bus|
    && page in mem && ofs + len <= |mem[page]|
    && bus[handle..handle + len] == mem[page][ofs..ofs + len]
  }

  /** The copy of the protocol and the copy of the device agree: same buffer, and the same bytes in
      the window, seen as a page or on the bus. */
  lemma CopyAgrees(s: Sys, t: Tid, o: Outcome, d: Device.Dev)
    requires Inv(s) && t in s.threads && At(s, t) == Copy && d.eng == s.eng
    requires var th := s.threads[t]; ShowsWindow(d.mem, s.drv.handle, s.mem, th.arg, th.ofs, th.len)
    ensures InBuffer(s)
    ensures var st, th := DeviceCopy(s, o), s.threads[t];
            var e := Device.ApplyEvent(d, Device.CopyEvent(d, d.eng.desc, o));
            e.eng.buff == st.buff && ShowsWindow(e.mem, s.drv.handle, st.mem, th.arg, th.ofs, th.len)
  {
    DescriptorAccepted(s, t);
    CopyReachable(s, t);
    CopyRefines(s, t, o);
    EventOf(d, s.drv.handle, s.threads[t].len, o);
    assert s.threads[t].len <= |s.eng.buff|;
    XferAgrees(StoreOf(s), XferOf(t, s.threads[t], o), d, s.drv.handle);
  }

  lemma XferAgrees(st: Store, x: Xfer, d: Device.Dev, handle: nat)
    requires st.buff == d.eng.buff && x.len <= |st.buff| && ShowsWindow(d.mem, handle, st.mem, x.page, x.ofs, x.len)
    ensures var st' := ApplyXfer(st, x);
            var there, here := Slice(d.mem, handle, x.len), Slice(d.eng.buff, 0, x.len);
            var e := Device.ApplyEvent(d, if x.dir == ToDevice
                                          then Device.BroughtIn(0, Payload(x.outcome, there, x.len))
                                          else Device.SentOut(handle, Payload(x.outcome, here, x.len)));
            e.eng.buff == st'.buff && ShowsWindow(e.mem, handle, st'.mem, x.page, x.ofs, x.len)
  {
    if x.dir == FromDevice {
      WindowAgrees(st.mem[x.page], x.ofs, d.mem, handle, x.len, Payload(x.outcome, Slice(st.buff, 0, x.len), x.len));
    }
  }

  /** The device's copy of a descriptor for the start of its buffer. */
  lemma EventOf(d: Device.Dev, a: nat, n: nat, o: Outcome)
    requires Accepts(d.eng.desc) && BuffOffset(d.eng.desc) == 0 && d.eng.desc.len == n
    requires Masked(d.eng, BusAddress(d.eng.desc)) == a && a + n <= |d.mem|
    ensures Device.CopyEvent(d, d.eng.desc, o)
         == if CommandDir(d.eng.desc) == ToDevice then Device.BroughtIn(0, Payload(o, Slice(d.mem, a, n), n))
            else Device.SentOut(a, Payload(o, Slice(d.eng.buff, 0, n), n))
  {
  }

  /** Equal windows stay equal when the same bytes are laid over both. */
  lemma WindowAgrees(page: seq<byte>, ofs: nat, bus: seq<byte>, a: nat, n: nat, bytes: seq<byte>)
    requires ofs + n <= |page| && a + n <= |bus| && |bytes| <= n
    requires page[ofs..ofs + n] == bus[a..a + n]
    ensures Patch(page, ofs, bytes)[ofs..ofs + n] == Patch(bus, a, bytes)[a..a + n]
  {
    var p, q := Patch(page, ofs, bytes)[ofs..ofs + n], Patch(bus, a, bytes)[a..a + n];
    forall k | 0 <= k < n
      ensures p[k] == q[k]
    {
      assert page[ofs..ofs + n][k] == bus[a..a + n][k];
    }
  }

  // ---------------------------------------------------------------------------
  // The doorbell and the acknowledgement
  // ---------------------------------------------------------------------------

  /** The device of the protocol is the device `d`, with MSI-X or MSI enabled. */
  predicate Same(s: Sys, d: Device.Dev) {
    && Device.Valid(d) && d.eng == s.eng && d.irq.mode != Irq.Pin
    && s.flag == Irq.Flag(d.irq, IRQ_DMA_ENDED_VECTOR)
  }

  /** The bus shows the window of the call of `t`. */
  predicate ShowsCall(d: Device.Dev, s: Sys, t: Tid) {
    t in s.threads && var th := s.threads[t]; ShowsWindow(d.mem, s.drv.handle, s.mem, th.arg, th.ofs, th.len)
  }

  function DoorbellSteps(t: Tid, o: Outcome): seq<Label> {
    [Step(t)] + ([Step(t)] + ([CopyDone(t, o)] + ([Step(t)] + ([Step(t)] + ([Step(t)] + [])))))
  }

  /** The state at the copy, and the state after it. */
  function AtCopy(s: Sys, t: Tid): Sys
    requires t in s.threads
  {
    GoTo(s, t, Copy).(eng := s.eng.(status := EXECUTING))
  }

  function AfterCopy(s: Sys, t: Tid): Sys
    requires t in s.threads
  {
    GoTo(s, t, Wait).(flag := true, inFlight := s.inFlight + 1, eng := s.eng.(status := IDLE),
                      hist := s.hist.(notified := s.hist.notified + 1))
  }

  lemma Rings(s: Sys, t: Tid, rest: seq<Label>)
    requires Inv(s) && t in s.threads && At(s, t) == Ring && s.eng.status == IDLE && Legal(AtCopy(s, t), rest)
    ensures Inv(AtCopy(s, t))
    ensures Legal(s, [Step(t)] + ([Step(t)] + rest))
    ensures Run(s, [Step(t)] + ([Step(t)] + rest)) == Run(AtCopy(s, t), rest)
  {
    var s1 := ApplyStep(s, t);
    RingStep(s, t);
    assert s1 == GoTo(s, t, Check).(eng := s.eng.(status := EXECUTING));
    DescriptorAccepted(s1, t);
    RingStep(s1, t);
    assert ApplyStep(s1, t) == GoTo(s1, t, Copy);
    GoToTwice(s, s1, t, Check, Copy);
    RunCons(s1, Step(t), rest);
    RunCons(s, Step(t), [Step(t)] + rest);
  }

  lemma GoToTwice(s: Sys, s1: Sys, t: Tid, pc: Pc, next: Pc)
    requires t in s.threads && s1.threads == GoTo(s, t, pc).threads
    ensures GoTo(s1, t, next).threads == GoTo(s, t, next).threads
  {
  }

  lemma Notifies(s: Sys, t: Tid) returns (s': Sys)
    requires t in s.threads && At(s, t) == SetFlag
    ensures CanStep(s, t) && CanStep(ApplyStep(s, t), t) && s' == ApplyStep(ApplyStep(s, t), t)
    ensures s' == GoTo(s, t, StoreIdle).(flag := true, inFlight := s.inFlight + 1,
                                         hist := s.hist.(notified := s.hist.notified + 1))
  {
    var s1 := ApplyStep(s, t);
    assert s1 == GoTo(s, t, Notify).(flag := true);
    GoToTwice(s, s1, t, Notify, StoreIdle);
    s' := ApplyStep(s1, t);
  }

  lemma StoresIdle(s: Sys, t: Tid)
    requires t in s.threads && At(s, t) == StoreIdle
    ensures Legal(s, [Step(t)] + [])
    ensures Run(s, [Step(t)] + []) == GoTo(s, t, Wait).(eng := s.eng.(status := IDLE))
  {
    RunCons(s, Step(t), []);
  }

  lemma JoinsSignal(s: Sys, s2: Sys, t: Tid)
    requires t in s.threads
    requires s2 == GoTo(s, t, StoreIdle).(flag := true, inFlight := s.inFlight + 1,
                                          hist := s.hist.(notified := s.hist.notified + 1))
    ensures GoTo(s2, t, Wait).(eng := s2.eng.(status := IDLE)) == AfterCopy(s, t)
  {
    GoToTwice(s, s2, t, StoreIdle, Wait);
  }

  lemma Signals(s: Sys, t: Tid)
    requires t in s.threads && At(s, t) == SetFlag
    ensures var ls := [Step(t)] + ([Step(t)] + ([Step(t)] + []));
            Legal(s, ls) && Run(s, ls) == AfterCopy(s, t)
  {
    var s1 := ApplyStep(s, t);
    var s2 := Notifies(s, t);
    StoresIdle(s2, t);
    JoinsSignal(s, s2, t);
    RunCons(s1, Step(t), [Step(t)] + []);
    RunCons(s, Step(t), [Step(t)] + ([Step(t)] + []));
  }

  lemma DoorbellRun(s: Sys, t: Tid, o: Outcome)
    requires Inv(s) && t in s.threads && At(s, t) == Ring
    ensures Inv(AtCopy(s, t)) && InBuffer(AtCopy(s, t))
    ensures Legal(s, DoorbellSteps(t, o))
    ensures Run(s, DoorbellSteps(t, o)) == AfterCopy(EndCopy(AtCopy(s, t), t, o), t)
  {
    HolderIdle(s, t);
    Rings(s, t, []);
    var s2 := AtCopy(s, t);
    DescriptorAccepted(s2, t);
    CopyReachable(s2, t);
    var s3 := EndCopy(s2, t, o);
    Signals(s3, t);
    RunCons(s2, CopyDone(t, o), [Step(t)] + ([Step(t)] + ([Step(t)] + [])));
    Rings(s, t, [CopyDone(t, o)] + ([Step(t)] + ([Step(t)] + ([Step(t)] + []))));
  }

  lemma HolderIdle(s: Sys, t: Tid)
    requires Inv(s) && t in s.threads && At(s, t) == Ring
    ensures s.eng.status == IDLE
  {
  }

  /** With nothing in between, the steps from the compare-and-swap to the store of IDLE are one
      write to the doorbell register: the same engine, flag and window afterwards, and one
      interrupt. */
  lemma DoorbellAgrees(s: Sys, t: Tid, o: Outcome, d: Device.Dev, v: nat)
    requires Inv(s) && t in s.threads && At(s, t) == Ring && Same(s, d) && ShowsCall(d, s, t)
    ensures Legal(s, DoorbellSteps(t, o))
    ensures var s' := Run(s, DoorbellSteps(t, o));
            var d' := Device.Write(d, Device.Access(DMA_DOORBELL_RING, v, [], o)).dev;
            && At(s', t) == Wait && Same(s', d') && ShowsCall(d', s', t)
            && s'.hist.notified == s.hist.notified + 1 && |d'.irq.notified| == |d.irq.notified| + 1
  {
    DoorbellRun(s, t, o);
    HolderIdle(s, t);
    var s2, a := AtCopy(s, t), Device.Access(DMA_DOORBELL_RING, v, [], o);
    CopyAgrees(s2, t, o, d.(eng := s2.eng));
    DeviceSide(d, a);
    DoorbellJoins(s, t, o, d, Device.Write(d, a).dev);
  }

  /** The doorbell write of the device, its status aside during the copy. */
  lemma DeviceSide(d: Device.Dev, a: Device.Access)
    requires Device.Valid(d) && d.eng.status == IDLE && a.addr == DMA_DOORBELL_RING && a.nested == []
    requires Accepts(d.eng.desc) && d.irq.mode != Irq.Pin
    ensures var d', e := Device.Write(d, a).dev, Device.CopyEvent(d, d.eng.desc, a.bus);
            && d'.eng == Device.ApplyEvent(d, e).eng && d'.mem == Device.ApplyEvent(d, e).mem
            && e == Device.CopyEvent(d.(eng := d.eng.(status := EXECUTING)), d.eng.desc, a.bus)
            && d'.irq.mode == d.irq.mode && Irq.Flag(d'.irq, IRQ_DMA_ENDED_VECTOR)
            && |d'.irq.notified| == |d.irq.notified| + 1
  {
    Device.DoorbellTransfers(d, a);
    DeviceIrq.InterruptIffAccepted(d, a);
  }

  lemma DoorbellJoins(s: Sys, t: Tid, o: Outcome, d: Device.Dev, d': Device.Dev)
    requires t in s.threads && Same(s, d) && s.eng.status == IDLE && InBuffer(AtCopy(s, t))
    requires var s2 := AtCopy(s, t);
             var e, st := Device.CopyEvent(d, d.eng.desc, o), DeviceCopy(s2, o);
             var d2 := Device.ApplyEvent(d.(eng := s2.eng), e);
             && d'.eng == Device.ApplyEvent(d, e).eng && d'.mem == Device.ApplyEvent(d, e).mem
             && d2.eng.buff == st.buff
             && var th := s.threads[t]; ShowsWindow(d2.mem, s.drv.handle, st.mem, th.arg, th.ofs, th.len)
    requires Device.Valid(d') && d'.irq.mode != Irq.Pin && Irq.Flag(d'.irq, IRQ_DMA_ENDED_VECTOR)
    ensures var s' := AfterCopy(EndCopy(AtCopy(s, t), t, o), t); Same(s', d') && ShowsCall(d', s', t)
  {
  }

  /** The handler's acknowledgement is a write to the lower register. */
  lemma AckAgrees(s: Sys, d: Device.Dev, v: nat)
    requires s.handler == HAck && Same(s, d)
    ensures Same(ApplyIrq(s), Device.Write(d, Device.Config(IRQ_0_LOWER, v)).dev)
    ensures Device.Write(d, Device.Config(IRQ_0_LOWER, v)).dev.irq.notified == d.irq.notified
  {
    Irq.CompletionVector(d.irq);
  }
}
