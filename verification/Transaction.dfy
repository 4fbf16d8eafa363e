/**
 The DMA transaction protocol: any number of ioctl callers, the DMA engine and the
 interrupt handler as one transition system.

 A register write reaches the device inside the caller's own `iowrite32`, so the engine's
 doorbell routine runs in the thread that rang, and the steps of that thread cover both
 the driver and the device. The handler runs on any CPU, at any point after a notification.
 Every access to shared state is a step of its own.
 */
module Transaction {
  import opened Bits
  import opened Bytes
  import opened EngineModel
  import opened Hw
  import IoctlArgs

  type Tid = nat
  type Page = nat
  type Memory = map<Page, seq<byte>>

  datatype Dir = ToDevice | FromDevice

  /** Where an ioctl caller is. `Ring` to `StoreIdle` are inside the device's doorbell routine. */
  datatype Pc =
    | Idle | Pinning | Pinned | Locking
    | SetOffset | SetLen | SetDir | InitCompletion | Map
    | ReadStatus(f: Field) | WriteField(f: Field)
    | Ring | Check | Copy | SetFlag | Notify | StoreIdle
    | Wait | Unlock | UnlockErr

  /** `pinned` is the page this call pinned, `arg` the value of the shared page field that it
      passed on, `seen` the status read by a register write, and `returned` the number of
      calls of this thread that came back from a transfer. */
  datatype Thread = Thread(pc: Pc, dir: Dir, ofs: nat, len: nat, pinned: Page, arg: Page,
                           seen: Status, returned: nat)

  /** The driver's shared structure. */
  datatype DriverDma = DriverDma(handle: nat, offset: nat, len: nat, dir: Dir, page: Page, completed: bool)

  /** An outstanding DMA mapping: bus addresses from `handle` stand for `page` from `ofs`. */
  datatype Mapping = Mapping(handle: nat, len: nat, dir: Dir, page: Page, ofs: nat)

  datatype Handler = HIdle | HUnmap | HPut | HAck | HComplete

  /** History: one transfer, as the caller asked for it. */
  datatype Xfer = Xfer(tid: Tid, dir: Dir, page: Page, ofs: nat, len: nat, pinned: Page, outcome: Outcome)

  /** What transfers act on. */
  datatype Store = Store(mem: Memory, buff: seq<byte>)

  /** History, on which no step depends: pages pinned, put, and pinned by calls whose mapping
      failed; the transfers performed; the number of interrupts raised. */
  datatype History = History(taken: multiset<Page>, put: multiset<Page>, leaked: multiset<Page>,
                             log: seq<Xfer>, notified: nat)

  datatype Sys = Sys(
    shift: nat, threads: map<Tid, Thread>, owner: Option<Tid>, drv: DriverDma,
    eng: Engine, flag: bool, mem: Memory, maps: seq<Mapping>, inFlight: nat, handler: Handler,
    hist: History)

  datatype Label =
    | Start(t: Tid, dir: Dir, vaddr: nat)
    | PinFail(t: Tid) | PinOk(t: Tid, page: Page)
    | Step(t: Tid)
    | MapOk(t: Tid, handle: nat) | MapFail(t: Tid)
    | CopyDone(t: Tid, outcome: Outcome)
    | IrqEnter | IrqStep

  // ---------------------------------------------------------------------------
  // Bus copies
  // ---------------------------------------------------------------------------

  function StoreOf(s: Sys): Store {
    Store(s.mem, s.eng.buff)
  }

  function PageOf(mem: Memory, p: Page): seq<byte> {
    if p in mem then mem[p] else []
  }

  function PatchPage(mem: Memory, p: Page, at: nat, bytes: seq<byte>): Memory {
    if p in mem then mem[p := Patch(mem[p], at, bytes)] else mem
  }

  predicate Covers(m: Mapping, a: nat, n: nat, dir: Dir) {
    m.dir == dir && m.handle <= a && a + n <= m.handle + m.len
  }

  /** The mapping through which `n` bytes at bus address `a` are reached. */
  function Find(maps: seq<Mapping>, a: nat, n: nat, dir: Dir): (r: Option<Mapping>)
    ensures r.Some? ==> r.value in maps && Covers(r.value, a, n, dir)
  {
    if maps == [] then None
    else if Covers(maps[0], a, n, dir) then Some(maps[0])
    else Find(maps[1..], a, n, dir)
  }

  function CommandDir(d: Descriptor): Dir {
    if d.cmd == DIRECTION_TO_DEVICE then ToDevice else FromDevice
  }

  function BusMapping(s: Sys): Option<Mapping> {
    Find(s.maps, Masked(s.eng, BusAddress(s.eng.desc)), s.eng.desc.len, CommandDir(s.eng.desc))
  }

  /** Every byte of the transfer is where the copy will look for it. */
  predicate Reachable(s: Sys) {
    var m := BusMapping(s);
    && m.Some?
    && m.value.page in s.mem
    && m.value.ofs + m.value.len <= |s.mem[m.value.page]|
  }

  /** The pointer and length handed to the bus copy stay in the device buffer. */
  predicate InBuffer(s: Sys) {
    Accepts(s.eng.desc) && Fits(s.eng.desc)
  }

  /** The effect of the bus copy: the device's descriptor, resolved through the mappings. */
  function DeviceCopy(s: Sys, o: Outcome): Store
    requires InBuffer(s)
  {
    var d, at := s.eng.desc, BuffOffset(s.eng.desc);
    var bus := Masked(s.eng, BusAddress(d));
    match BusMapping(s)
    case None =>
      if CommandDir(d) == ToDevice then Store(s.mem, Patch(s.eng.buff, at, Payload(o, [], d.len)))
      else StoreOf(s)
    case Some(m) =>
      var where := m.ofs + (bus - m.handle);
      if CommandDir(d) == ToDevice then
        Store(s.mem, Patch(s.eng.buff, at, Payload(o, Slice(PageOf(s.mem, m.page), where, d.len), d.len)))
      else
        Store(PatchPage(s.mem, m.page, where, Payload(o, Slice(s.eng.buff, at, d.len), d.len)), s.eng.buff)
  }

  /** The reference: what one transfer means to its caller. */
  function ApplyXfer(st: Store, x: Xfer): Store {
    match x.dir
    case ToDevice =>
      Store(st.mem, Patch(st.buff, 0, Payload(x.outcome, Slice(PageOf(st.mem, x.page), x.ofs, x.len), x.len)))
    case FromDevice =>
      Store(PatchPage(st.mem, x.page, x.ofs, Payload(x.outcome, Slice(st.buff, 0, x.len), x.len)), st.buff)
  }

  function Replay(st: Store, xs: seq<Xfer>): Store
    decreases |xs|
  {
    if xs == [] then st else Replay(ApplyXfer(st, xs[0]), xs[1..])
  }

  // ---------------------------------------------------------------------------
  // Steps
  // ---------------------------------------------------------------------------

  function At(s: Sys, t: Tid): (pc: Pc)
    ensures t !in s.threads ==> pc == Idle
  {
    if t in s.threads then s.threads[t].pc else Idle
  }

  function GoTo(s: Sys, t: Tid, pc: Pc): Sys
    requires t in s.threads
  {
    s.(threads := s.threads[t := s.threads[t].(pc := pc)])
  }

  /** The value that the driver writes to a device register. */
  function RegisterValue(handle: nat, len: nat, dir: Dir, f: Field): nat {
    match f
    case Src => if dir == ToDevice then Low32(handle) else DMA_AREA_START
    case Dst => if dir == ToDevice then DMA_AREA_START else Low32(handle)
    case Len => Low32(len)
    case Cmd => if dir == ToDevice then DIRECTION_TO_DEVICE else DIRECTION_FROM_DEVICE
  }

  function AfterField(f: Field): Pc {
    match f
    case Src => ReadStatus(Dst)
    case Dst => ReadStatus(Len)
    case Len => ReadStatus(Cmd)
    case Cmd => Ring
  }

  predicate Enabled(s: Sys, l: Label) {
    match l
    case Start(t, _, vaddr) =>
      t in s.threads && At(s, t) == Idle && vaddr < TWO_TO_THE_64 && IoctlArgs.IsPageShift(s.shift)
    case PinFail(t) => t in s.threads && At(s, t) == Pinning
    case PinOk(t, page) => t in s.threads && At(s, t) == Pinning && page in s.mem
    case Step(t) => t in s.threads && StepEnabled(s, s.threads[t].pc)
    case MapOk(t, handle) => t in s.threads && At(s, t) == Map && handle + s.drv.len <= TWO_TO_THE_32
    case MapFail(t) => t in s.threads && At(s, t) == Map
    case CopyDone(t, o) => t in s.threads && At(s, t) == Copy && InBuffer(s) && (o.Good? ==> Reachable(s))
    case IrqEnter => s.inFlight > 0 && s.handler == HIdle
    case IrqStep => s.handler != HIdle
  }

  predicate StepEnabled(s: Sys, pc: Pc) {
    match pc
    case Idle | Pinning | Map | Copy => false
    case Locking => s.owner == None
    case Wait => s.drv.completed
    case _ => true
  }

  function Apply(s: Sys, l: Label): Sys
    requires Enabled(s, l)
  {
    match l
    case Start(t, dir, vaddr) => StartCall(s, t, dir, vaddr)
    case PinFail(t) => GoTo(s, t, Idle)
    case PinOk(t, page) => Pin(s, t, page)
    case Step(t) => ApplyStep(s, t)
    case MapOk(t, handle) => MapPage(s, t, handle)
    case MapFail(t) => FailMap(s, t)
    case CopyDone(t, o) => EndCopy(s, t, o)
    case IrqEnter => s.(inFlight := s.inFlight - 1, handler := HUnmap)
    case IrqStep => ApplyIrq(s)
  }

  function StartCall(s: Sys, t: Tid, dir: Dir, vaddr: nat): Sys
    requires t in s.threads && IoctlArgs.IsPageShift(s.shift)
  {
    IoctlArgs.WindowInsidePage(vaddr, s.shift);
    s.(threads := s.threads[t := s.threads[t].(
      pc := Pinning, dir := dir, ofs := IoctlArgs.Offset(vaddr, s.shift), len := IoctlArgs.Length(vaddr, s.shift))])
  }

  /** get_user_pages_fast stores the page in the shared structure, outside the mutex. */
  function Pin(s: Sys, t: Tid, page: Page): Sys
    requires t in s.threads
  {
    s.(drv := s.drv.(page := page), hist := s.hist.(taken := s.hist.taken + multiset{page}),
       threads := s.threads[t := s.threads[t].(pc := Pinned, pinned := page)])
  }

  function MapPage(s: Sys, t: Tid, handle: nat): Sys
    requires t in s.threads
  {
    var m := Mapping(handle, s.drv.len, s.drv.dir, s.threads[t].arg, s.drv.offset);
    GoTo(s, t, ReadStatus(Src)).(drv := s.drv.(handle := handle), maps := s.maps + [m])
  }

  function FailMap(s: Sys, t: Tid): Sys
    requires t in s.threads
  {
    GoTo(s, t, UnlockErr).(drv := s.drv.(handle := TWO_TO_THE_64 - 1),
                           hist := s.hist.(leaked := s.hist.leaked + multiset{s.threads[t].pinned}))
  }

  function EndCopy(s: Sys, t: Tid, o: Outcome): Sys
    requires t in s.threads && InBuffer(s)
  {
    var st := DeviceCopy(s, o);
    GoTo(s, t, SetFlag).(mem := st.mem, eng := s.eng.(buff := st.buff),
                         hist := s.hist.(log := s.hist.log + [XferOf(t, s.threads[t], o)]))
  }

  function XferOf(t: Tid, th: Thread, o: Outcome): Xfer {
    Xfer(t, th.dir, th.arg, th.ofs, th.len, th.pinned, o)
  }

  /** The steps of a thread that the environment does not influence. */
  function ApplyStep(s: Sys, t: Tid): Sys
    requires t in s.threads && StepEnabled(s, s.threads[t].pc)
  {
    var th := s.threads[t];
    match th.pc
    // the page argument is read back from the shared structure, before the mutex is taken
    case Pinned => s.(threads := s.threads[t := th.(pc := Locking, arg := s.drv.page)])
    case Locking => GoTo(s, t, SetOffset).(owner := Some(t))
    case SetOffset => GoTo(s, t, SetLen).(drv := s.drv.(offset := th.ofs))
    case SetLen => GoTo(s, t, SetDir).(drv := s.drv.(len := th.len))
    case SetDir => GoTo(s, t, InitCompletion).(drv := s.drv.(dir := th.dir))
    case InitCompletion => GoTo(s, t, Map).(drv := s.drv.(completed := false))
    // a configuration register write: read the status, then store if it was IDLE
    case ReadStatus(f) => s.(threads := s.threads[t := th.(pc := WriteField(f), seen := s.eng.status)])
    case WriteField(f) =>
      var v := RegisterValue(s.drv.handle, s.drv.len, th.dir, f);
      var desc := if th.seen == IDLE then s.eng.desc.Set(f, v) else s.eng.desc;
      GoTo(s, t, AfterField(f)).(eng := s.eng.(desc := desc))
    // the doorbell: compare-and-swap, execute, store IDLE
    case Ring =>
      if s.eng.status == EXECUTING then GoTo(s, t, Wait)
      else GoTo(s, t, Check).(eng := s.eng.(status := if s.eng.status == IDLE then EXECUTING else s.eng.status))
    case Check => GoTo(s, t, if Accepts(s.eng.desc) then Copy else StoreIdle)
    case SetFlag => GoTo(s, t, Notify).(flag := true)
    case Notify => GoTo(s, t, StoreIdle).(inFlight := s.inFlight + 1, hist := s.hist.(notified := s.hist.notified + 1))
    case StoreIdle => GoTo(s, t, Wait).(eng := s.eng.(status := IDLE))
    case Wait => GoTo(s, t, Unlock)
    case Unlock => s.(owner := None, threads := s.threads[t := th.(pc := Idle, returned := th.returned + 1)])
    case UnlockErr => GoTo(s, t, Idle).(owner := None)
  }

  predicate Matches(m: Mapping, drv: DriverDma) {
    m.handle == drv.handle && m.len == drv.len && m.dir == drv.dir
  }

  /** dma_unmap_page: drops the outstanding mapping with this handle, length and direction. */
  function Unmapped(maps: seq<Mapping>, drv: DriverDma): seq<Mapping> {
    if maps == [] then []
    else if Matches(maps[0], drv) then maps[1..]
    else [maps[0]] + Unmapped(maps[1..], drv)
  }

  function ApplyIrq(s: Sys): Sys
    requires s.handler != HIdle
  {
    match s.handler
    case HUnmap => s.(maps := Unmapped(s.maps, s.drv), handler := HPut)
    case HPut => s.(hist := s.hist.(put := s.hist.put + multiset{s.drv.page}), handler := HAck)
    case HAck => s.(flag := false, handler := HComplete)
    case HComplete => s.(drv := s.drv.(completed := true), handler := HIdle)
  }

  // ---------------------------------------------------------------------------
  // Runs
  // ---------------------------------------------------------------------------

  predicate Legal(s: Sys, ls: seq<Label>)
    decreases |ls|
  {
    ls == [] || (Enabled(s, ls[0]) && Legal(Apply(s, ls[0]), ls[1..]))
  }

  function Run(s: Sys, ls: seq<Label>): Sys
    requires Legal(s, ls)
    decreases |ls|
  {
    if ls == [] then s else Run(Apply(s, ls[0]), ls[1..])
  }

  lemma RunCons(s: Sys, l: Label, rest: seq<Label>)
    requires Enabled(s, l) && Legal(Apply(s, l), rest)
    ensures Legal(s, [l] + rest) && Run(s, [l] + rest) == Run(Apply(s, l), rest)
  {
  }

  lemma {:induction false} RunConcat(s: Sys, a: seq<Label>, b: seq<Label>)
    requires Legal(s, a) && Legal(Run(s, a), b)
    ensures Legal(s, a + b) && Run(s, a + b) == Run(Run(s, a), b)
    decreases |a|
  {
    if a == [] {
      assert a + b == b;
    } else {
      assert (a + b)[0] == a[0] && (a + b)[1..] == a[1..] + b;
      RunConcat(Apply(s, a[0]), a[1..], b);
    }
  }

  /** Nothing of a transaction is left anywhere. */
  predicate Quiet(s: Sys) {
    s.eng.status == IDLE && s.maps == [] && s.inFlight == 0 && s.handler == HIdle && !s.flag
  }

  /** After probe: a reset device, no call in progress and nothing pinned. */
  predicate Init(s: Sys) {
    && IoctlArgs.IsPageShift(s.shift)
    && (forall t :: t in s.threads ==> s.threads[t].pc == Idle && s.threads[t].returned == 0)
    && s.owner == None
    && s.eng == InitialEngine()
    && Quiet(s)
    && (forall p :: p in s.mem ==> |s.mem[p]| == IoctlArgs.PageSize(s.shift))
    && s.hist == History(multiset{}, multiset{}, multiset{}, [], 0)
  }
}
