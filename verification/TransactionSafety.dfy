/** Safety of the transaction protocol over every run from a freshly probed device. */
module TransactionSafety {
  import opened Bytes
  import opened EngineModel
  import opened Hw
  import opened Transaction
  import opened TransactionInv
  import opened TransactionProof

  lemma ReachableInv(s0: Sys, ls: seq<Label>)
    requires Init(s0) && Legal(s0, ls)
    ensures Inv(Run(s0, ls))
  {
    InitInv(s0);
    RunInv(s0, ls);
  }

  /** Every configuration write of every caller finds the engine idle, so none is dropped. */
  lemma ConfigWritesFindIdle(s0: Sys, ls: seq<Label>, t: Tid)
    requires Init(s0) && Legal(s0, ls)
    ensures var s := Run(s0, ls);
            && (At(s, t).ReadStatus? ==> s.eng.status == IDLE)
            && (At(s, t).WriteField? ==> s.eng.status == IDLE && s.threads[t].seen == IDLE)
            && (At(s, t).Ring? ==> s.eng.status == IDLE)
  {
    ReachableInv(s0, ls);
    var s := Run(s0, ls);
    if t in s.threads && Holds(At(s, t)) {
      PhaseFacts(s, s.threads[t]);
    }
  }

  /** What the engine executes is what the holder of the mutex wrote, all four registers. */
  lemma ExecutesOwnDescriptor(s0: Sys, ls: seq<Label>, t: Tid)
    requires Init(s0) && Legal(s0, ls)
    ensures var s := Run(s0, ls);
            At(s, t) == Check || At(s, t) == Copy ==>
              && s.owner == Some(t)
              && var th := s.threads[t];
                 && th.len <= SIZEOF_INT
                 && s.eng.desc == (if th.dir == ToDevice
                                   then Descriptor(s.drv.handle, DMA_AREA_START, th.len, DIRECTION_TO_DEVICE)
                                   else Descriptor(DMA_AREA_START, s.drv.handle, th.len, DIRECTION_FROM_DEVICE))
                 && s.maps == [Mapping(s.drv.handle, th.len, th.dir, th.arg, th.ofs)]
  {
    ReachableInv(s0, ls);
    var s := Run(s0, ls);
    if At(s, t) == Check || At(s, t) == Copy {
      DescriptorAccepted(s, t);
      var th := s.threads[t];
      assert s.eng.desc.Get(Src) == RegisterValue(s.drv.handle, th.len, th.dir, Src);
      assert s.eng.desc.Get(Dst) == RegisterValue(s.drv.handle, th.len, th.dir, Dst);
    }
  }

  /** The copy of `t` stays in the buffer and in mapped memory, so the bus can make it, well or not. */
  ghost predicate Contained(s: Sys, t: Tid) {
    InBuffer(s) && Reachable(s) && forall o :: Enabled(s, CopyDone(t, o))
  }

  /** The copy never leaves the device buffer and never touches an unmapped bus address. */
  lemma CopiesAreContained(s0: Sys, ls: seq<Label>, t: Tid)
    requires Init(s0) && Legal(s0, ls)
    ensures var s := Run(s0, ls);
            At(s, t) == Copy ==> Contained(s, t)
  {
    ReachableInv(s0, ls);
    var s := Run(s0, ls);
    if At(s, t) == Copy {
      ContainedNow(s, t);
    }
  }

  lemma ContainedNow(s: Sys, t: Tid)
    requires Inv(s) && t in s.threads && At(s, t) == Copy
    ensures Contained(s, t)
  {
    DescriptorAccepted(s, t);
    CopyReachable(s, t);
  }

  predicate Doorbelling(pc: Pc) {
    pc.Check? || pc.Copy? || pc.SetFlag? || pc.Notify? || pc.StoreIdle?
  }

  lemma PhaseFacts(s: Sys, th: Thread)
    requires Phase(s, th)
    ensures s.inFlight + (if s.handler == HIdle then 0 else 1) <= 1
    ensures |s.maps| <= 1
    ensures s.eng.status == if Doorbelling(th.pc) then EXECUTING else IDLE
    ensures th.pc == Unlock || (th.pc == Wait && s.drv.completed) ==> Quiet(s)
  {
  }

  /** One caller at most is past the mutex; one interrupt at most is in flight; the engine
      executes exactly while the holder is in its doorbell; and a free mutex means that
      nothing at all is left of any transaction. */
  lemma OneTransactionAtATime(s0: Sys, ls: seq<Label>)
    requires Init(s0) && Legal(s0, ls)
    ensures var s := Run(s0, ls);
            && (forall t, u :: t in s.threads && u in s.threads && Holds(s.threads[t].pc) && Holds(s.threads[u].pc) ==>
                  t == u)
            && s.inFlight + (if s.handler == HIdle then 0 else 1) <= 1
            && |s.maps| <= 1
            && (s.eng.status == EXECUTING <==> s.owner.Some? && Doorbelling(At(s, s.owner.value)))
            && (s.owner == None ==> Quiet(s) && forall t :: t in s.threads ==> !Holds(s.threads[t].pc))
  {
    ReachableInv(s0, ls);
    HolderFacts(Run(s0, ls));
  }

  lemma HolderFacts(s: Sys)
    requires Inv(s)
    ensures forall t, u :: t in s.threads && u in s.threads && Holds(s.threads[t].pc) && Holds(s.threads[u].pc) ==>
              t == u
    ensures s.inFlight + (if s.handler == HIdle then 0 else 1) <= 1
    ensures |s.maps| <= 1
    ensures s.eng.status == EXECUTING <==> s.owner.Some? && Doorbelling(At(s, s.owner.value))
    ensures s.owner == None ==> Quiet(s) && forall t :: t in s.threads ==> !Holds(s.threads[t].pc)
  {
    if s.owner.Some? {
      PhaseFacts(s, s.threads[s.owner.value]);
    }
  }

  /** A caller is released only after the transfer of this very call, one more than the calls it has
      returned from, was attempted and signalled, its page unmapped and its interrupt acknowledged
      and completed. A completion of an earlier call cannot release it. */
  lemma NoEarlyRelease(s0: Sys, ls: seq<Label>, t: Tid)
    requires Init(s0) && Legal(s0, ls)
    ensures var s := Run(s0, ls);
            At(s, t) == Unlock || (At(s, t) == Wait && Enabled(s, Step(t))) ==>
              && Quiet(s) && s.owner == Some(t)
              && |s.hist.log| == s.hist.notified > 0
              && var x, th := s.hist.log[|s.hist.log| - 1], s.threads[t];
                 && x == Xfer(t, th.dir, th.arg, th.ofs, th.len, th.pinned, x.outcome)
                 && CountOf(s.hist.log, t) == th.returned + 1
  {
    ReachableInv(s0, ls);
    CountedReachable(s0, ls);
    var s := Run(s0, ls);
    if At(s, t) == Unlock || At(s, t) == Wait {
      ReleaseFacts(s, t);
    }
  }

  lemma ReleaseFacts(s: Sys, t: Tid)
    requires Inv(s) && CallsCounted(s) && InterruptsCounted(s)
    requires t in s.threads && (At(s, t) == Unlock || At(s, t) == Wait)
    ensures s.owner == Some(t) && Logged(s, t, s.threads[t])
    ensures CountOf(s.hist.log, t) == s.threads[t].returned + 1 && |s.hist.log| == s.hist.notified
    ensures At(s, t) == Unlock || s.drv.completed ==> Quiet(s)
  {
  }

  /** The interrupt may be handled to its end before the engine is back in IDLE. The caller's completion
      is then signalled, its page unmapped and put, while the engine still executes. */
  lemma HandlerOvertakes(s: Sys, t: Tid)
    requires Inv(s) && t in s.threads && At(s, t) == Notify
    ensures var ls := [Step(t)] + ([IrqEnter] + ([IrqStep] + ([IrqStep] + ([IrqStep] + ([IrqStep] + [])))));
            && Legal(s, ls)
            && var s' := Run(s, ls);
               && s'.eng.status == EXECUTING && At(s', t) == StoreIdle
               && s'.drv.completed && s'.maps == [] && !s'.flag && s'.handler == HIdle && s'.inFlight == 0
               && s'.hist.put == s.hist.put + multiset{s.drv.page}
  {
    var s1 := ApplyStep(s, t);
    NotifyShape(s, t);
    HandlerRuns(s1, t);
    RunCons(s, Step(t), [IrqEnter] + ([IrqStep] + ([IrqStep] + ([IrqStep] + ([IrqStep] + [])))));
  }

  lemma NotifyShape(s: Sys, t: Tid)
    requires Inv(s) && t in s.threads && At(s, t) == Notify
    ensures CanStep(s, t)
    ensures var s' := ApplyStep(s, t);
            && s'.eng.status == EXECUTING && s'.threads == s.threads[t := s.threads[t].(pc := StoreIdle)]
            && s'.inFlight == 1 && s'.handler == HIdle && s'.drv == s.drv && s'.hist.put == s.hist.put
            && |s'.maps| == 1 && Matches(s'.maps[0], s'.drv)
  {
  }

  lemma HandlerRuns(s: Sys, t: Tid)
    requires s.inFlight == 1 && s.handler == HIdle && |s.maps| == 1 && Matches(s.maps[0], s.drv)
    ensures var ls := [IrqEnter] + ([IrqStep] + ([IrqStep] + ([IrqStep] + ([IrqStep] + []))));
            && Legal(s, ls)
            && var s' := Run(s, ls);
               && s'.eng == s.eng && s'.threads == s.threads
               && s'.drv.completed && s'.maps == [] && !s'.flag && s'.handler == HIdle && s'.inFlight == 0
               && s'.hist.put == s.hist.put + multiset{s.drv.page}
  {
    var s1 := s.(inFlight := 0, handler := HUnmap);
    var s2 := s1.(maps := [], handler := HPut);
    assert ApplyIrq(s1) == s2;
    var s3 := ApplyIrq(s2);
    var s4 := ApplyIrq(s3);
    RunCons(s4, IrqStep, []);
    RunCons(s3, IrqStep, [IrqStep] + []);
    RunCons(s2, IrqStep, [IrqStep] + ([IrqStep] + []));
    RunCons(s1, IrqStep, [IrqStep] + ([IrqStep] + ([IrqStep] + [])));
    RunCons(s, IrqEnter, [IrqStep] + ([IrqStep] + ([IrqStep] + ([IrqStep] + []))));
  }

  /** The handler unmaps exactly the one outstanding mapping: same handle, length, direction. */
  lemma UnmapsItsMapping(s0: Sys, ls: seq<Label>)
    requires Init(s0) && Legal(s0, ls)
    ensures var s := Run(s0, ls);
            s.handler == HUnmap ==>
              && s.owner.Some? && s.owner.value in s.threads
              && s.maps == [Window(s, s.threads[s.owner.value])]
              && Matches(s.maps[0], s.drv)
              && ApplyIrq(s).maps == []
  {
    ReachableInv(s0, ls);
    if Run(s0, ls).handler == HUnmap {
      UnmapFacts(Run(s0, ls));
    }
  }

  lemma UnmapFacts(s: Sys)
    requires Inv(s) && s.handler == HUnmap
    ensures s.owner.Some? && s.owner.value in s.threads
    ensures s.maps == [Window(s, s.threads[s.owner.value])]
    ensures Matches(s.maps[0], s.drv) && ApplyIrq(s).maps == []
  {
  }

  // ---------------------------------------------------------------------------
  // Linearisation
  // ---------------------------------------------------------------------------

  lemma {:induction false} ReplayConcat(st: Store, a: seq<Xfer>, b: seq<Xfer>)
    ensures Replay(st, a + b) == Replay(Replay(st, a), b)
    decreases |a|
  {
    if a == [] {
      assert a + b == b;
    } else {
      ReplayConcat(ApplyXfer(st, a[0]), a[1..], b);
      assert (a + b)[1..] == a[1..] + b;
    }
  }

  /** Only a copy touches memory and buffer, and it does what its caller asked for. */
  lemma StepReplays(s: Sys, l: Label)
    requires Inv(s) && Enabled(s, l)
    ensures var s' := Apply(s, l);
            if l.CopyDone?
            then && s'.hist.log == s.hist.log + [XferOf(l.t, s.threads[l.t], l.outcome)]
                 && StoreOf(s') == ApplyXfer(StoreOf(s), s'.hist.log[|s.hist.log|])
            else s'.hist.log == s.hist.log && StoreOf(s') == StoreOf(s)
  {
    match l {
      case Start(_, _, _) =>
      case PinFail(_) =>
      case PinOk(_, _) =>
      case Step(t) =>
        StepFrame(s, t);
        EngineFrame(s, t);
      case MapOk(_, _) =>
      case MapFail(_) =>
      case CopyDone(t, o) => CopyRefines(s, t, o);
      case IrqEnter =>
      case IrqStep =>
    }
  }

  /** Whatever the interleaving, user memory and device buffer are those of the logged transfers
      performed one after the other, each as one atomic copy of its caller's window. */
  lemma {:induction false} RunsLinearise(s: Sys, ls: seq<Label>)
    requires Inv(s) && Legal(s, ls)
    ensures var s' := Run(s, ls);
            && s.hist.log <= s'.hist.log
            && StoreOf(s') == Replay(StoreOf(s), s'.hist.log[|s.hist.log|..])
    decreases |ls|
  {
    if ls != [] {
      StepReplays(s, ls[0]);
      StepInv(s, ls[0]);
      var s1 := Apply(s, ls[0]);
      RunsLinearise(s1, ls[1..]);
      ReplayFrom(StoreOf(s), s.hist.log, s1.hist.log, Run(s1, ls[1..]).hist.log);
    }
  }

  /** Replaying from an earlier point of the log. */
  lemma ReplayFrom(st: Store, log: seq<Xfer>, log1: seq<Xfer>, end: seq<Xfer>)
    requires log1 <= end && (log1 == log || (|log1| == |log| + 1 && log < log1))
    ensures log <= end
    ensures Replay(st, end[|log|..]) == Replay(if log1 == log then st else ApplyXfer(st, log1[|log|]), end[|log1|..])
  {
  }

  // ---------------------------------------------------------------------------
  // One transfer and one interrupt for each call
  // ---------------------------------------------------------------------------

  function CountOf(log: seq<Xfer>, t: Tid): nat {
    if log == [] then 0 else CountOf(log[..|log| - 1], t) + (if log[|log| - 1].tid == t then 1 else 0)
  }

  lemma CountAppend(log: seq<Xfer>, x: Xfer, t: Tid)
    ensures CountOf(log + [x], t) == CountOf(log, t) + (if x.tid == t then 1 else 0)
  {
  }

  /** Transfers that a thread has to its name. */
  function Tally(th: Thread): nat {
    th.returned + (if Copied(th.pc) then 1 else 0)
  }

  predicate CallsCounted(s: Sys) {
    forall t :: t in s.threads ==> CountOf(s.hist.log, t) == Tally(s.threads[t])
  }

  /** A transfer whose interrupt is not yet raised. */
  function Unsignalled(s: Sys): nat {
    if s.owner.Some? && (At(s, s.owner.value) == SetFlag || At(s, s.owner.value) == Notify) then 1 else 0
  }

  predicate InterruptsCounted(s: Sys) {
    |s.hist.log| == s.hist.notified + Unsignalled(s)
  }

  /** Steps of a thread other than the copy neither log a transfer nor change a tally. */
  lemma CountedThread(s: Sys, t: Tid)
    requires Inv(s) && CallsCounted(s) && InterruptsCounted(s) && CanStep(s, t)
    ensures CallsCounted(ApplyStep(s, t)) && InterruptsCounted(ApplyStep(s, t))
  {
    StepFrame(s, t);
    DoorbellsSucceed(s, t);
    var s', th := ApplyStep(s, t), s.threads[t];
    assert Holds(th.pc) ==> s.owner == Some(t);
    TallyFollows(th.pc, s'.threads[t].pc);
    TallyFrame(s, s', t, s'.threads[t]);
  }

  lemma TallyFollows(pc: Pc, next: Pc)
    requires Follows(pc, next) && (pc == Ring ==> next == Check) && (pc == Check ==> next == Copy)
    ensures Copied(next) == (Copied(pc) && pc != Unlock)
    ensures (next == SetFlag || next == Notify) == (pc == SetFlag)
  {
  }

  lemma TallyFrame(s: Sys, s': Sys, t: Tid, th: Thread)
    requires CallsCounted(s) && InterruptsCounted(s) && t in s.threads
    requires s'.threads == s.threads[t := th] && s'.hist.log == s.hist.log
    requires Tally(th) == Tally(s.threads[t])
    requires s'.hist.notified + Unsignalled(s') == s.hist.notified + Unsignalled(s)
    ensures CallsCounted(s') && InterruptsCounted(s')
  {
  }

  lemma CountedStep(s: Sys, l: Label)
    requires Inv(s) && CallsCounted(s) && InterruptsCounted(s) && Enabled(s, l)
    ensures CallsCounted(Apply(s, l)) && InterruptsCounted(Apply(s, l))
  {
    match l
    case Step(t) => CountedThread(s, t);
    case CopyDone(t, o) => CountedCopy(s, t, o);
    case IrqEnter =>
    case IrqStep => CountedIrq(s);
    case MapOk(t, handle) => CountedMap(s, t, handle);
    case MapFail(t) => CountedMapFail(s, t);
    case _ => CountedPin(s, l);
  }

  lemma CountedMap(s: Sys, t: Tid, handle: nat)
    requires CallsCounted(s) && InterruptsCounted(s) && t in s.threads && At(s, t) == Map
    ensures CallsCounted(MapPage(s, t, handle)) && InterruptsCounted(MapPage(s, t, handle))
  {
    CountedMove(s, MapPage(s, t, handle), t, s.threads[t].(pc := ReadStatus(Src)));
  }

  lemma CountedMapFail(s: Sys, t: Tid)
    requires CallsCounted(s) && InterruptsCounted(s) && t in s.threads && At(s, t) == Map
    ensures CallsCounted(FailMap(s, t)) && InterruptsCounted(FailMap(s, t))
  {
    CountedMove(s, FailMap(s, t), t, s.threads[t].(pc := UnlockErr));
  }

  lemma CountedPin(s: Sys, l: Label)
    requires CallsCounted(s) && InterruptsCounted(s) && Enabled(s, l) && (l.Start? || l.PinFail? || l.PinOk?)
    ensures CallsCounted(Apply(s, l)) && InterruptsCounted(Apply(s, l))
  {
    match l
    case Start(t, dir, vaddr) => CountedMove(s, StartCall(s, t, dir, vaddr), t, StartCall(s, t, dir, vaddr).threads[t]);
    case PinFail(t) => CountedMove(s, GoTo(s, t, Idle), t, s.threads[t].(pc := Idle));
    case PinOk(t, page) => CountedMove(s, Pin(s, t, page), t, Pin(s, t, page).threads[t]);
  }

  /** A step of `t` away from transfers. */
  lemma CountedMove(s: Sys, s': Sys, t: Tid, th: Thread)
    requires CallsCounted(s) && InterruptsCounted(s) && t in s.threads
    requires s'.threads == s.threads[t := th] && s'.hist.log == s.hist.log
    requires s'.hist.notified == s.hist.notified && s'.owner == s.owner
    requires !Copied(s.threads[t].pc) && !Copied(th.pc) && th.returned == s.threads[t].returned
    ensures CallsCounted(s') && InterruptsCounted(s')
  {
  }

  lemma CountedCopy(s: Sys, t: Tid, o: Outcome)
    requires Inv(s) && CallsCounted(s) && InterruptsCounted(s) && t in s.threads && At(s, t) == Copy && InBuffer(s)
    ensures CallsCounted(EndCopy(s, t, o)) && InterruptsCounted(EndCopy(s, t, o))
  {
    var s' := EndCopy(s, t, o);
    assert s.owner == Some(t);
    forall u | u in s'.threads
      ensures CountOf(s'.hist.log, u) == Tally(s'.threads[u])
    {
      CountAppend(s.hist.log, XferOf(t, s.threads[t], o), u);
    }
  }

  lemma CountedIrq(s: Sys)
    requires CallsCounted(s) && InterruptsCounted(s) && s.handler != HIdle
    ensures CallsCounted(ApplyIrq(s)) && InterruptsCounted(ApplyIrq(s))
  {
    match s.handler {
      case HUnmap =>
      case HPut =>
      case HAck =>
      case HComplete =>
    }
  }

  lemma {:induction false} CountedRun(s: Sys, ls: seq<Label>)
    requires Inv(s) && CallsCounted(s) && InterruptsCounted(s) && Legal(s, ls)
    ensures CallsCounted(Run(s, ls)) && InterruptsCounted(Run(s, ls))
    decreases |ls|
  {
    if ls != [] {
      StepInv(s, ls[0]);
      CountedStep(s, ls[0]);
      CountedRun(Apply(s, ls[0]), ls[1..]);
    }
  }

  lemma CountedReachable(s0: Sys, ls: seq<Label>)
    requires Init(s0) && Legal(s0, ls)
    ensures CallsCounted(Run(s0, ls)) && InterruptsCounted(Run(s0, ls))
  {
    InitInv(s0);
    CountedRun(s0, ls);
  }

  /** Each call that came back performed exactly one transfer, no other call performed any, and each
      transfer, good or bad, has raised exactly one interrupt, but for the one whose caller is just
      about to raise it. */
  lemma OneTransferPerCall(s0: Sys, ls: seq<Label>, t: Tid)
    requires Init(s0) && Legal(s0, ls) && t in s0.threads
    ensures var s := Run(s0, ls);
            && t in s.threads
            && CountOf(s.hist.log, t) == s.threads[t].returned + (if Copied(s.threads[t].pc) then 1 else 0)
            && |s.hist.log| == s.hist.notified + Unsignalled(s)
            && (s.owner == None ==> |s.hist.log| == s.hist.notified)
  {
    CountedReachable(s0, ls);
    ThreadsStay(s0, ls);
  }

  lemma {:induction false} ThreadsStay(s: Sys, ls: seq<Label>)
    requires Legal(s, ls)
    ensures Run(s, ls).threads.Keys == s.threads.Keys
    decreases |ls|
  {
    if ls != [] {
      ThreadsStep(s, ls[0]);
      ThreadsStay(Apply(s, ls[0]), ls[1..]);
    }
  }

  lemma ThreadsStep(s: Sys, l: Label)
    requires Enabled(s, l)
    ensures Apply(s, l).threads.Keys == s.threads.Keys
  {
    match l
    case Step(t) => StepFrame(s, t);
    case IrqEnter =>
    case IrqStep =>
    case _ => CallFrame(s, l);
  }
}
