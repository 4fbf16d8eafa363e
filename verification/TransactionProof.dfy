/** Every step of the transaction protocol keeps the invariant. */
module TransactionProof {
  import opened Bits
  import opened Bytes
  import opened EngineModel
  import opened Hw
  import opened Transaction
  import opened TransactionInv
  import IoctlArgs

  lemma InitInv(s: Sys)
    requires Init(s)
    ensures Inv(s)
  {
  }

  // ---------------------------------------------------------------------------
  // Preservation, one kind of step at a time
  // ---------------------------------------------------------------------------

  /** A step of `t` that leaves the transaction in progress alone. */
  lemma OutsideFrame(s: Sys, s': Sys, t: Tid)
    requires Inv(s) && t in s.threads && !Holds(s.threads[t].pc)
    requires t in s'.threads && s'.threads == s.threads[t := s'.threads[t]]
    requires s'.drv == s.drv.(page := s'.drv.page) && (s'.drv.page == s.drv.page || s'.drv.page in s.mem)
    requires s' == s.(threads := s'.threads, drv := s'.drv, hist := s'.hist) && s'.hist.log == s.hist.log
    requires !Holds(s'.threads[t].pc) && CallInv(s', s'.threads[t])
    ensures Inv(s')
  {
    if s.owner.Some? {
      var h := s.owner.value;
      assert s'.threads[h] == s.threads[h];
      PhaseFrame(s, s', s.threads[h]);
    }
  }

  lemma PhaseFrame(s: Sys, s': Sys, th: Thread)
    requires Phase(s, th) && Holds(th.pc)
    requires s'.drv == s.drv.(page := s'.drv.page)
    requires s' == s.(threads := s'.threads, drv := s'.drv, hist := s'.hist)
    ensures Phase(s', th)
  {
  }

  predicate CanStep(s: Sys, t: Tid) {
    t in s.threads && StepEnabled(s, s.threads[t].pc)
  }

  lemma StartStep(s: Sys, t: Tid, dir: Dir, vaddr: nat)
    requires Inv(s) && t in s.threads && At(s, t) == Idle
    ensures Inv(StartCall(s, t, dir, vaddr))
  {
    IoctlArgs.WindowInsidePage(vaddr, s.shift);
    OutsideFrame(s, StartCall(s, t, dir, vaddr), t);
  }

  lemma PinStep(s: Sys, t: Tid, page: Page)
    requires Inv(s) && t in s.threads && At(s, t) == Pinning && page in s.mem
    ensures Inv(Pin(s, t, page))
  {
    OutsideFrame(s, Pin(s, t, page), t);
  }

  lemma PinFailStep(s: Sys, t: Tid)
    requires Inv(s) && t in s.threads && At(s, t) == Pinning
    ensures Inv(GoTo(s, t, Idle))
  {
    OutsideFrame(s, GoTo(s, t, Idle), t);
  }

  lemma FetchStep(s: Sys, t: Tid)
    requires Inv(s) && CanStep(s, t) && At(s, t) == Pinned
    ensures Inv(ApplyStep(s, t))
  {
    OutsideFrame(s, ApplyStep(s, t), t);
  }

  /** A step of the holder that keeps the mutex. */
  lemma HolderFrame(s: Sys, s': Sys, t: Tid, th: Thread)
    requires Inv(s) && s.owner == Some(t) && s'.owner == Some(t) && t in s.threads
    requires th == s.threads[t].(pc := th.pc, seen := th.seen) && s'.threads == s.threads[t := th]
    requires s'.shift == s.shift && s'.mem == s.mem && s'.drv.page == s.drv.page && WellFormed(s'.eng)
    requires HolderInv(s', t)
    ensures Inv(s')
  {
  }

  /** From the mutex to the mapping, and the error exit. */
  lemma LockStep(s: Sys, t: Tid)
    requires Inv(s) && CanStep(s, t) && At(s, t) == Locking
    ensures Inv(ApplyStep(s, t))
  {
  }

  lemma SetupHolder(s: Sys, t: Tid)
    requires HolderInv(s, t) && CanStep(s, t)
    requires var pc := At(s, t); pc.SetOffset? || pc.SetLen? || pc.SetDir? || pc.InitCompletion?
    ensures HolderInv(ApplyStep(s, t), t)
  {
    match s.threads[t].pc {
      case SetOffset =>
      case SetLen =>
      case SetDir =>
      case InitCompletion =>
    }
  }

  lemma SetupStep(s: Sys, t: Tid)
    requires Inv(s) && CanStep(s, t)
    requires var pc := At(s, t); pc.SetOffset? || pc.SetLen? || pc.SetDir? || pc.InitCompletion?
    ensures Inv(ApplyStep(s, t))
  {
    SetupHolder(s, t);
    StepFrame(s, t);
    EngineFrame(s, t);
    var s' := ApplyStep(s, t);
    HolderFrame(s, s', t, s'.threads[t]);
  }

  lemma MapHolder(s: Sys, t: Tid, handle: nat)
    requires HolderInv(s, t) && At(s, t) == Map && handle + s.drv.len <= TWO_TO_THE_32
    ensures HolderInv(MapPage(s, t, handle), t)
  {
  }

  lemma MapStep(s: Sys, t: Tid, handle: nat)
    requires Inv(s) && t in s.threads && At(s, t) == Map && handle + s.drv.len <= TWO_TO_THE_32
    ensures Inv(MapPage(s, t, handle))
  {
    MapHolder(s, t, handle);
    HolderFrame(s, MapPage(s, t, handle), t, s.threads[t].(pc := ReadStatus(Src)));
  }

  lemma MapFailHolder(s: Sys, t: Tid)
    requires HolderInv(s, t) && At(s, t) == Map
    ensures HolderInv(FailMap(s, t), t)
  {
  }

  lemma MapFailStep(s: Sys, t: Tid)
    requires Inv(s) && t in s.threads && At(s, t) == Map
    ensures Inv(FailMap(s, t))
  {
    MapFailHolder(s, t);
    HolderFrame(s, FailMap(s, t), t, s.threads[t].(pc := UnlockErr));
  }

  /** Programming the registers. */
  lemma RegisterHolder(s: Sys, t: Tid)
    requires HolderInv(s, t) && CanStep(s, t) && (At(s, t).ReadStatus? || At(s, t).WriteField?)
    ensures HolderInv(ApplyStep(s, t), t)
  {
  }

  lemma RegisterStep(s: Sys, t: Tid)
    requires Inv(s) && CanStep(s, t) && (At(s, t).ReadStatus? || At(s, t).WriteField?)
    ensures Inv(ApplyStep(s, t))
  {
    RegisterHolder(s, t);
    StepFrame(s, t);
    EngineFrame(s, t);
    var s' := ApplyStep(s, t);
    HolderFrame(s, s', t, s'.threads[t]);
  }

  lemma ProgrammedMeans(d: Descriptor, handle: nat, len: nat, dir: Dir)
    requires Programmed(d, handle, len, dir, 4)
    requires handle < TWO_TO_THE_32 && len <= SIZEOF_INT
    ensures Accepts(d) && Fits(d) && BuffOffset(d) == 0
    ensures d.len == len && CommandDir(d) == dir && BusAddress(d) == handle
  {
    assert d.Get(Src) == RegisterValue(handle, len, dir, Src);
    assert d.Get(Dst) == RegisterValue(handle, len, dir, Dst);
    assert d.Get(Len) == RegisterValue(handle, len, dir, Len);
    assert d.Get(Cmd) == RegisterValue(handle, len, dir, Cmd);
  }

  /** The driver's values always pass the device's tests and stay in its buffer. */
  lemma DescriptorAccepted(s: Sys, t: Tid)
    requires Inv(s) && t in s.threads && (At(s, t) == Check || At(s, t) == Copy)
    ensures InBuffer(s) && BuffOffset(s.eng.desc) == 0
    ensures s.eng.desc.len == s.threads[t].len && CommandDir(s.eng.desc) == s.threads[t].dir
    ensures BusAddress(s.eng.desc) == s.drv.handle
  {
    var th := s.threads[t];
    assert Holds(th.pc) && Loaded(s, th);
    ProgrammedMeans(s.eng.desc, s.drv.handle, th.len, th.dir);
  }

  /** The copy goes through the one outstanding mapping, to the caller's window. */
  lemma CopyReachable(s: Sys, t: Tid)
    requires Inv(s) && t in s.threads && At(s, t) == Copy
    ensures Reachable(s) && BusMapping(s) == Some(Window(s, s.threads[t]))
    ensures Masked(s.eng, BusAddress(s.eng.desc)) == s.drv.handle
  {
    DescriptorAccepted(s, t);
    MaskIsLow32(s.eng, s.drv.handle);
  }

  lemma RingHolder(s: Sys, t: Tid)
    requires HolderInv(s, t) && CanStep(s, t) && (At(s, t) == Ring || At(s, t) == Check)
    requires At(s, t) == Check ==> Accepts(s.eng.desc)
    ensures HolderInv(ApplyStep(s, t), t)
  {
  }

  lemma RingStep(s: Sys, t: Tid)
    requires Inv(s) && CanStep(s, t) && (At(s, t) == Ring || At(s, t) == Check)
    ensures Inv(ApplyStep(s, t))
  {
    if At(s, t) == Check {
      DescriptorAccepted(s, t);
    }
    RingHolder(s, t);
    StepFrame(s, t);
    EngineFrame(s, t);
    var s' := ApplyStep(s, t);
    HolderFrame(s, s', t, s'.threads[t]);
  }

  /** From the flag to the end of the wait. */
  lemma SignalHolder(s: Sys, t: Tid)
    requires HolderInv(s, t) && CanStep(s, t)
    requires var pc := At(s, t); pc.SetFlag? || pc.Notify? || pc.StoreIdle? || pc.Wait?
    ensures HolderInv(ApplyStep(s, t), t)
  {
    match s.threads[t].pc {
      case SetFlag =>
      case Notify =>
      case StoreIdle =>
      case Wait =>
    }
  }

  lemma SignalStep(s: Sys, t: Tid)
    requires Inv(s) && CanStep(s, t)
    requires var pc := At(s, t); pc.SetFlag? || pc.Notify? || pc.StoreIdle? || pc.Wait?
    ensures Inv(ApplyStep(s, t))
  {
    SignalHolder(s, t);
    StepFrame(s, t);
    EngineFrame(s, t);
    var s' := ApplyStep(s, t);
    HolderFrame(s, s', t, s'.threads[t]);
  }

  /** The device's copy has the meaning that the caller asked for. */
  lemma CopyRefines(s: Sys, t: Tid, o: Outcome)
    requires Inv(s) && t in s.threads && At(s, t) == Copy
    ensures InBuffer(s) && DeviceCopy(s, o) == ApplyXfer(StoreOf(s), XferOf(t, s.threads[t], o))
    ensures StoreOf(EndCopy(s, t, o)) == DeviceCopy(s, o)
  {
    DescriptorAccepted(s, t);
    CopyReachable(s, t);
    WindowCopy(s, s.threads[t], t, o);
  }

  /** A copy through the caller's mapping is a copy of the caller's window. */
  lemma WindowCopy(s: Sys, th: Thread, t: Tid, o: Outcome)
    requires InBuffer(s) && BuffOffset(s.eng.desc) == 0 && BusMapping(s) == Some(Window(s, th))
    requires Masked(s.eng, BusAddress(s.eng.desc)) == s.drv.handle
    requires s.eng.desc.len == th.len && CommandDir(s.eng.desc) == th.dir
    ensures DeviceCopy(s, o) == ApplyXfer(StoreOf(s), XferOf(t, th, o))
  {
  }

  lemma TransferKeepsSizes(st: Store, x: Xfer, n: nat)
    requires forall p :: p in st.mem ==> |st.mem[p]| == n
    ensures var r := ApplyXfer(st, x);
            r.mem.Keys == st.mem.Keys && |r.buff| == |st.buff| && forall p :: p in r.mem ==> |r.mem[p]| == n
  {
  }

  lemma CopyStep(s: Sys, t: Tid, o: Outcome)
    requires Inv(s) && t in s.threads && At(s, t) == Copy && InBuffer(s)
    ensures Inv(EndCopy(s, t, o))
  {
    CopyRefines(s, t, o);
    var st := DeviceCopy(s, o);
    TransferKeepsSizes(StoreOf(s), XferOf(t, s.threads[t], o), IoctlArgs.PageSize(s.shift));
    var s1 := s.(mem := st.mem, eng := s.eng.(buff := st.buff));
    SizesFrame(s, s1);
    CopyHolder(s, t, o);
    var s' := EndCopy(s, t, o);
    HolderFrame(s1, s', t, s'.threads[t]);
  }

  lemma CopyHolder(s: Sys, t: Tid, o: Outcome)
    requires HolderInv(s, t) && At(s, t) == Copy && InBuffer(s)
    ensures HolderInv(EndCopy(s, t, o), t)
  {
  }

  /** New contents of the same pages and buffer. */
  lemma SizesFrame(s: Sys, s': Sys)
    requires Inv(s) && s' == s.(mem := s'.mem, eng := s.eng.(buff := s'.eng.buff))
    requires s'.mem.Keys == s.mem.Keys && |s'.eng.buff| == |s.eng.buff|
    requires forall p :: p in s'.mem ==> |s'.mem[p]| == IoctlArgs.PageSize(s.shift)
    ensures Inv(s')
  {
    if s.owner.Some? {
      var th := s.threads[s.owner.value];
      assert Phase(s, th);
      SizesPhase(s, s', th);
    }
  }

  lemma SizesPhase(s: Sys, s': Sys, th: Thread)
    requires Phase(s, th) && s' == s.(mem := s'.mem, eng := s.eng.(buff := s'.eng.buff))
    ensures Phase(s', th)
  {
  }

  lemma UnlockStep(s: Sys, t: Tid)
    requires Inv(s) && CanStep(s, t) && (At(s, t) == Unlock || At(s, t) == UnlockErr)
    ensures Inv(ApplyStep(s, t))
  {
    assert s.owner == Some(t);
    assert Quiet(s);
  }

  /** The handler is at work only for a caller that has notified and not yet been released. */
  lemma HandlerHasHolder(s: Sys)
    requires Inv(s) && (s.inFlight > 0 || s.handler != HIdle)
    ensures s.owner.Some? && (At(s, s.owner.value) == StoreIdle || At(s, s.owner.value) == Wait)
    ensures Signalled(s, s.threads[s.owner.value])
  {
    if s.owner.Some? {
      PhaseWithHandler(s, s.threads[s.owner.value]);
    }
  }

  lemma PhaseWithHandler(s: Sys, th: Thread)
    requires Phase(s, th) && (s.inFlight > 0 || s.handler != HIdle)
    ensures (th.pc == StoreIdle || th.pc == Wait) && Signalled(s, th)
  {
  }

  lemma IrqEnterStep(s: Sys)
    requires Inv(s) && Enabled(s, IrqEnter)
    ensures Inv(Apply(s, IrqEnter))
  {
  }

  lemma IrqStepStep(s: Sys)
    requires Inv(s) && s.handler != HIdle
    ensures Inv(ApplyIrq(s))
  {
  }

  lemma ThreadStep(s: Sys, t: Tid)
    requires Inv(s) && CanStep(s, t)
    ensures Inv(ApplyStep(s, t))
  {
    var pc := s.threads[t].pc;
    if pc.Pinned? || pc.Locking? || pc.SetOffset? || pc.SetLen? || pc.SetDir? || pc.InitCompletion? {
      EnterStep(s, t);
    } else if pc.ReadStatus? || pc.WriteField? {
      RegisterStep(s, t);
    } else if pc.Ring? || pc.Check? {
      RingStep(s, t);
    } else {
      LeaveStep(s, t);
    }
  }

  lemma EnterStep(s: Sys, t: Tid)
    requires Inv(s) && CanStep(s, t)
    requires var pc := At(s, t);
             pc.Pinned? || pc.Locking? || pc.SetOffset? || pc.SetLen? || pc.SetDir? || pc.InitCompletion?
    ensures Inv(ApplyStep(s, t))
  {
    match At(s, t) {
      case Pinned => FetchStep(s, t);
      case Locking => LockStep(s, t);
      case SetOffset | SetLen | SetDir | InitCompletion => SetupStep(s, t);
    }
  }

  lemma LeaveStep(s: Sys, t: Tid)
    requires Inv(s) && CanStep(s, t)
    requires var pc := At(s, t);
             pc.SetFlag? || pc.Notify? || pc.StoreIdle? || pc.Wait? || pc.Unlock? || pc.UnlockErr?
    ensures Inv(ApplyStep(s, t))
  {
    match At(s, t) {
      case SetFlag | Notify | StoreIdle | Wait => SignalStep(s, t);
      case Unlock | UnlockErr => UnlockStep(s, t);
    }
  }

  lemma StepInv(s: Sys, l: Label)
    requires Inv(s) && Enabled(s, l)
    ensures Inv(Apply(s, l))
  {
    match l
    case Start(t, dir, vaddr) => StartStep(s, t, dir, vaddr);
    case PinFail(t) => PinFailStep(s, t);
    case PinOk(t, page) => PinStep(s, t, page);
    case Step(t) => ThreadStep(s, t);
    case MapOk(t, handle) => MapStep(s, t, handle);
    case MapFail(t) => MapFailStep(s, t);
    case CopyDone(t, o) => CopyStep(s, t, o);
    case IrqEnter => IrqEnterStep(s);
    case IrqStep => IrqStepStep(s);
  }

  // ---------------------------------------------------------------------------
  // What a step leaves alone
  // ---------------------------------------------------------------------------

  /** The order of a caller's steps. */
  predicate Follows(pc: Pc, next: Pc) {
    match pc
    case Pinned => next == Locking
    case Locking => next == SetOffset
    case SetOffset => next == SetLen
    case SetLen => next == SetDir
    case SetDir => next == InitCompletion
    case InitCompletion => next == Map
    case ReadStatus(f) => next == WriteField(f)
    case WriteField(f) => next == AfterField(f)
    case Ring => next == Check || next == Wait
    case Check => next == Copy || next == StoreIdle
    case SetFlag => next == Notify
    case Notify => next == StoreIdle
    case StoreIdle => next == Wait
    case Wait => next == Unlock
    case Unlock | UnlockErr => next == Idle
    case _ => false
  }

  /** What a step of `t` does to the callers: `t` goes on to its next step, the others stay. */
  predicate Moved(s: Sys, s': Sys, t: Tid)
    requires t in s.threads
  {
    var th := s.threads[t];
    && t in s'.threads && s'.threads == s.threads[t := s'.threads[t]]
    && Follows(th.pc, s'.threads[t].pc)
    && s'.threads[t] == th.(pc := s'.threads[t].pc, seen := s'.threads[t].seen,
                            arg := if th.pc == Pinned then s.drv.page else th.arg,
                            returned := th.returned + if th.pc == Unlock then 1 else 0)
  }

  lemma StepThread(s: Sys, t: Tid)
    requires CanStep(s, t)
    ensures Moved(s, ApplyStep(s, t), t)
  {
    match s.threads[t].pc {
      case Pinned =>
      case Locking =>
      case SetOffset =>
      case SetLen =>
      case SetDir =>
      case InitCompletion =>
      case ReadStatus(f) =>
      case WriteField(f) =>
      case Ring =>
      case Check =>
      case SetFlag =>
      case Notify =>
      case StoreIdle =>
      case Wait =>
      case Unlock =>
      case UnlockErr =>
    }
  }

  lemma StepFrame(s: Sys, t: Tid)
    requires CanStep(s, t)
    ensures var s', th := ApplyStep(s, t), s.threads[t];
            && Moved(s, s', t)
            && s'.drv.page == s.drv.page && s'.handler == s.handler && s'.shift == s.shift && s'.mem == s.mem
            && s'.owner == (if th.pc == Locking then Some(t)
                            else if th.pc == Unlock || th.pc == UnlockErr then None else s.owner)
            && s'.inFlight == s.inFlight + (if th.pc == Notify then 1 else 0)
            && s'.hist == s.hist.(notified := s.hist.notified + (if th.pc == Notify then 1 else 0))
  {
    StepThread(s, t);
    match s.threads[t].pc {
      case Pinned =>
      case Locking =>
      case SetOffset =>
      case SetLen =>
      case SetDir =>
      case InitCompletion =>
      case ReadStatus(f) =>
      case WriteField(f) =>
      case Ring =>
      case Check =>
      case SetFlag =>
      case Notify =>
      case StoreIdle =>
      case Wait =>
      case Unlock =>
      case UnlockErr =>
    }
  }

  lemma EngineFrame(s: Sys, t: Tid)
    requires CanStep(s, t)
    ensures ApplyStep(s, t).eng.buff == s.eng.buff && ApplyStep(s, t).eng.mask == s.eng.mask
  {
  }

  /** Under the invariant every doorbell wins and every descriptor is accepted. */
  lemma DoorbellsSucceed(s: Sys, t: Tid)
    requires Inv(s) && CanStep(s, t)
    ensures At(s, t) == Ring ==> At(ApplyStep(s, t), t) == Check
    ensures At(s, t) == Check ==> At(ApplyStep(s, t), t) == Copy
  {
    if At(s, t) == Ring {
      assert s.eng.status == IDLE;
    } else if At(s, t) == Check {
      DescriptorAccepted(s, t);
    }
  }

  lemma CallFrame(s: Sys, l: Label)
    requires Enabled(s, l) && !l.Step? && !l.IrqEnter? && !l.IrqStep?
    ensures var s' := Apply(s, l);
            && l.t in s'.threads && s'.threads == s.threads[l.t := s'.threads[l.t]]
            && s'.handler == s.handler && s'.inFlight == s.inFlight
  {
  }

  lemma {:induction false} RunInv(s: Sys, ls: seq<Label>)
    requires Inv(s) && Legal(s, ls)
    ensures Inv(Run(s, ls))
    decreases |ls|
  {
    if ls != [] {
      StepInv(s, ls[0]);
      RunInv(Apply(s, ls[0]), ls[1..]);
    }
  }
}
