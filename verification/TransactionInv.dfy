/** The inductive invariant of the transaction protocol. */
module TransactionInv {
  import opened Bits
  import opened Bytes
  import opened EngineModel
  import opened Hw
  import opened Transaction
  import IoctlArgs

  /** The caller holds the mutex. */
  predicate Holds(pc: Pc) {
    !(pc.Idle? || pc.Pinning? || pc.Pinned? || pc.Locking?)
  }

  /** How many of the driver's fields this call has initialised. */
  function Initialised(pc: Pc): nat {
    match pc
    case SetOffset => 0
    case SetLen => 1
    case SetDir => 2
    case InitCompletion | UnlockErr => 3
    case _ => 4
  }

  /** How many device registers this call has programmed. */
  function RegistersWritten(pc: Pc): nat {
    match pc
    case ReadStatus(f) => Slot(f)
    case WriteField(f) => Slot(f)
    case _ => 4
  }

  function Slot(f: Field): nat {
    match f
    case Src => 0
    case Dst => 1
    case Len => 2
    case Cmd => 3
  }

  /** The transfer of this call has been performed. */
  predicate Copied(pc: Pc) {
    pc.SetFlag? || pc.Notify? || pc.StoreIdle? || pc.Wait? || pc.Unlock?
  }

  predicate Prepared(s: Sys, th: Thread) {
    var n := Initialised(th.pc);
    && (n >= 1 ==> s.drv.offset == th.ofs)
    && (n >= 2 ==> s.drv.len == th.len)
    && (n >= 3 ==> s.drv.dir == th.dir)
  }

  /** The first `n` registers hold the driver's values. */
  predicate Programmed(d: Descriptor, handle: nat, len: nat, dir: Dir, n: nat) {
    forall f :: Slot(f) < n ==> d.Get(f) == RegisterValue(handle, len, dir, f)
  }

  predicate ProgrammedBy(s: Sys, th: Thread) {
    Programmed(s.eng.desc, s.drv.handle, th.len, th.dir, RegistersWritten(th.pc))
  }

  /** The mapping that this call made. */
  function Window(s: Sys, th: Thread): Mapping {
    Mapping(s.drv.handle, th.len, th.dir, th.arg, th.ofs)
  }

  /** From the mapping to the notification: nothing but this call is in progress. */
  predicate Loaded(s: Sys, th: Thread) {
    && s.drv.handle + th.len <= TWO_TO_THE_32
    && s.maps == [Window(s, th)]
    && !s.drv.completed && s.inFlight == 0 && s.handler == HIdle
    && ProgrammedBy(s, th)
  }

  /** After the notification: how far the interrupt has got. */
  predicate Signalled(s: Sys, th: Thread) {
    && ProgrammedBy(s, th)
    && s.drv.handle + th.len <= TWO_TO_THE_32
    && match s.handler {
         case HIdle =>
           || (s.inFlight == 1 && s.maps == [Window(s, th)] && s.flag && !s.drv.completed)
           || Finished(s)
         case HUnmap => s.inFlight == 0 && s.maps == [Window(s, th)] && s.flag && !s.drv.completed
         case HPut | HAck => s.inFlight == 0 && s.maps == [] && s.flag && !s.drv.completed
         case HComplete => s.inFlight == 0 && s.maps == [] && !s.flag && !s.drv.completed
       }
  }

  predicate Finished(s: Sys) {
    s.inFlight == 0 && s.handler == HIdle && s.maps == [] && !s.flag && s.drv.completed
  }

  /** What the holder's program counter says about everything else. */
  predicate Phase(s: Sys, th: Thread) {
    match th.pc
    case SetOffset | SetLen | SetDir | InitCompletion | UnlockErr => Quiet(s)
    case Map => Quiet(s) && !s.drv.completed
    case ReadStatus(_) => Loaded(s, th) && s.eng.status == IDLE && !s.flag
    case WriteField(_) => Loaded(s, th) && s.eng.status == IDLE && !s.flag && th.seen == IDLE
    case Ring => Loaded(s, th) && s.eng.status == IDLE && !s.flag
    case Check | Copy | SetFlag => Loaded(s, th) && s.eng.status == EXECUTING && !s.flag
    case Notify => Loaded(s, th) && s.eng.status == EXECUTING && s.flag
    case StoreIdle => Signalled(s, th) && s.eng.status == EXECUTING
    case Wait => Signalled(s, th) && s.eng.status == IDLE
    case Unlock => ProgrammedBy(s, th) && Finished(s) && s.eng.status == IDLE
    case _ => false
  }

  predicate Logged(s: Sys, t: Tid, th: Thread) {
    |s.hist.log| > 0 && var x := s.hist.log[|s.hist.log| - 1]; x == XferOf(t, th, x.outcome)
  }

  predicate HolderInv(s: Sys, t: Tid) {
    && t in s.threads
    && Holds(s.threads[t].pc)
    && Prepared(s, s.threads[t])
    && Phase(s, s.threads[t])
    && (Copied(s.threads[t].pc) ==> Logged(s, t, s.threads[t]))
  }

  /** What holds of each caller whatever the others do. */
  predicate CallInv(s: Sys, th: Thread) {
    && (th.pc != Idle ==> 1 <= th.len <= SIZEOF_INT && th.ofs + th.len <= IoctlArgs.PageSize(s.shift))
    && (th.pc != Idle && th.pc != Pinning ==> s.drv.page in s.mem)
    && (th.pc == Locking || Holds(th.pc) ==> th.arg in s.mem)
  }

  predicate Sizes(s: Sys) {
    && IoctlArgs.IsPageShift(s.shift)
    && WellFormed(s.eng)
    && (forall p :: p in s.mem ==> |s.mem[p]| == IoctlArgs.PageSize(s.shift))
  }

  predicate Inv(s: Sys) {
    && Sizes(s)
    && (forall t :: t in s.threads ==> CallInv(s, s.threads[t]))
    && (forall t :: t in s.threads && Holds(s.threads[t].pc) ==> s.owner == Some(t))
    && (s.owner.None? ==> Quiet(s))
    && (s.owner.Some? ==> HolderInv(s, s.owner.value))
  }
}
