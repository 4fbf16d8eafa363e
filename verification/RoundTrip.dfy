/** What user programs see: data sent to the device comes back, and page references with it. */
module RoundTrip {
  import opened Bits
  import opened Bytes
  import opened EngineModel
  import opened Hw
  import opened Transaction
  import opened TransactionInv
  import opened TransactionProof
  import opened TransactionSafety
  import opened TransactionBytes
  import opened TransactionProgress
  import IoctlArgs

  /** The window of a transfer lies in a page of memory and in the device buffer. */
  predicate XferFits(mem: Memory, pageSize: nat, x: Xfer) {
    x.page in mem && x.ofs + x.len <= pageSize && 1 <= x.len <= SIZEOF_INT
  }

  predicate StoreOk(st: Store, pageSize: nat) {
    |st.buff| == DMA_AREA_SIZE && forall p :: p in st.mem ==> |st.mem[p]| == pageSize
  }

  lemma {:induction false} ReadsKeepBuffer(st: Store, xs: seq<Xfer>, pageSize: nat)
    requires StoreOk(st, pageSize)
    requires forall k :: 0 <= k < |xs| ==> xs[k].dir == FromDevice
    ensures Replay(st, xs).buff == st.buff
    ensures StoreOk(Replay(st, xs), pageSize) && Replay(st, xs).mem.Keys == st.mem.Keys
    decreases |xs|
  {
    if xs != [] {
      assert xs[0].dir == FromDevice;
      TransferKeepsSizes(st, xs[0], pageSize);
      ReadsKeepBuffer(ApplyXfer(st, xs[0]), xs[1..], pageSize);
    }
  }

  /** The two ends of a round trip, for the device buffer in between. */
  lemma Lands(st: Store, a: Xfer, pageSize: nat, n: nat)
    requires StoreOk(st, pageSize) && XferFits(st.mem, pageSize, a)
    requires a.dir == ToDevice && a.outcome == Good && n <= a.len
    ensures Slice(ApplyXfer(st, a).buff, 0, n) == Slice(PageOf(st.mem, a.page), a.ofs, n)
  {
  }

  lemma Leaves(st: Store, b: Xfer, pageSize: nat, n: nat)
    requires StoreOk(st, pageSize) && XferFits(st.mem, pageSize, b)
    requires b.dir == FromDevice && b.outcome == Good && n <= b.len
    ensures Slice(PageOf(ApplyXfer(st, b).mem, b.page), b.ofs, n) == Slice(st.buff, 0, n)
  {
  }

  /** A good write to the device, any reads of it, a good read: the bytes arrive. */
  lemma StoreRoundTrip(st: Store, a: Xfer, mid: seq<Xfer>, b: Xfer, pageSize: nat)
    requires StoreOk(st, pageSize) && XferFits(st.mem, pageSize, a) && XferFits(st.mem, pageSize, b)
    requires a.dir == ToDevice && a.outcome == Good && b.dir == FromDevice && b.outcome == Good
    requires forall k :: 0 <= k < |mid| ==> mid[k].dir == FromDevice
    ensures var n := Min(a.len, b.len);
            Slice(PageOf(Replay(st, [a] + mid + [b]).mem, b.page), b.ofs, n) == Slice(PageOf(st.mem, a.page), a.ofs, n)
  {
    var n, st1 := Min(a.len, b.len), ApplyXfer(st, a);
    Lands(st, a, pageSize, n);
    TransferKeepsSizes(st, a, pageSize);
    ReadsKeepBuffer(st1, mid, pageSize);
    Leaves(Replay(st1, mid), b, pageSize, n);
    ReplaySplit(st, a, mid, b);
  }

  lemma ReplaySplit(st: Store, a: Xfer, mid: seq<Xfer>, b: Xfer)
    ensures Replay(st, [a] + mid + [b]) == ApplyXfer(Replay(ApplyXfer(st, a), mid), b)
  {
    ReplayConcat(st, [a] + mid, [b]);
    assert ([a] + mid)[1..] == mid;
    var st2 := Replay(st, [a] + mid);
    assert [b][1..] == [];
    assert Replay(st2, [b]) == Replay(ApplyXfer(st2, b), []);
  }

  /** Every transfer of a run is of a window inside a page. */
  lemma {:induction false} LoggedFit(s: Sys, ls: seq<Label>)
    requires Inv(s) && Legal(s, ls)
    ensures var s' := Run(s, ls);
            && s.hist.log <= s'.hist.log && s'.mem.Keys == s.mem.Keys && s'.shift == s.shift
            && forall k :: |s.hist.log| <= k < |s'.hist.log| ==>
                 XferFits(s.mem, IoctlArgs.PageSize(s.shift), s'.hist.log[k])
    decreases |ls|
  {
    if ls != [] {
      StepInv(s, ls[0]);
      FitStep(s, ls[0]);
      var s1 := Apply(s, ls[0]);
      LoggedFit(s1, ls[1..]);
      FitsFrom(s.mem, s1.mem, IoctlArgs.PageSize(s.shift), s.hist.log, s1.hist.log, Run(s1, ls[1..]).hist.log);
    }
  }

  lemma FitsFrom(mem: Memory, mem1: Memory, pageSize: nat, log: seq<Xfer>, log1: seq<Xfer>, end: seq<Xfer>)
    requires mem1.Keys == mem.Keys && log1 <= end
    requires log1 == log || (|log1| == |log| + 1 && log <= log1 && XferFits(mem, pageSize, log1[|log|]))
    requires forall k :: |log1| <= k < |end| ==> XferFits(mem1, pageSize, end[k])
    ensures log <= end && forall k :: |log| <= k < |end| ==> XferFits(mem, pageSize, end[k])
  {
  }

  lemma FitStep(s: Sys, l: Label)
    requires Inv(s) && Enabled(s, l)
    ensures var s' := Apply(s, l);
            && s'.mem.Keys == s.mem.Keys && s'.shift == s.shift
            && (s'.hist.log == s.hist.log ||
                (|s'.hist.log| == |s.hist.log| + 1 && s.hist.log <= s'.hist.log
                 && XferFits(s.mem, IoctlArgs.PageSize(s.shift), s'.hist.log[|s.hist.log|])))
  {
    StepReplays(s, l);
    if l.CopyDone? {
      var th := s.threads[l.t];
      assert CallInv(s, th);
      TransferKeepsSizes(StoreOf(s), XferOf(l.t, th, l.outcome), IoctlArgs.PageSize(s.shift));
    }
    ShiftKept(s, l);
  }

  lemma ShiftKept(s: Sys, l: Label)
    requires Enabled(s, l)
    ensures Apply(s, l).shift == s.shift
  {
    match l
    case Step(t) => StepFrame(s, t);
    case _ =>
  }

  /** Over every run, concurrent or not: if the transfers performed are a good write to the device,
      then only reads of it, then a good read, the bytes of the window written are in the window
      read, up to the shorter of the two. */
  lemma RunRoundTrip(s: Sys, ls: seq<Label>, a: Xfer, mid: seq<Xfer>, b: Xfer)
    requires Inv(s) && Legal(s, ls)
    requires Run(s, ls).hist.log == s.hist.log + [a] + mid + [b]
    requires a.dir == ToDevice && a.outcome == Good && b.dir == FromDevice && b.outcome == Good
    requires forall k :: 0 <= k < |mid| ==> mid[k].dir == FromDevice
    ensures var n := Min(a.len, b.len);
            Slice(PageOf(Run(s, ls).mem, b.page), b.ofs, n) == Slice(PageOf(s.mem, a.page), a.ofs, n)
  {
    RunsLinearise(s, ls);
    LoggedFit(s, ls);
    var log, n := Run(s, ls).hist.log, |s.hist.log|;
    assert log[n..] == [a] + mid + [b];
    assert log[n] == a && log[|log| - 1] == b;
    StoreRoundTrip(StoreOf(s), a, mid, b, IoctlArgs.PageSize(s.shift));
  }

  // ---------------------------------------------------------------------------
  // Complete calls
  // ---------------------------------------------------------------------------

  /** The transfer that an ioctl for `vaddr` asks for, once `page` is pinned. */
  function Asked(s: Sys, t: Tid, dir: Dir, vaddr: nat, page: Page): Xfer
    requires IoctlArgs.IsPageShift(s.shift)
  {
    IoctlArgs.WindowInsidePage(vaddr, s.shift);
    Xfer(t, dir, page, IoctlArgs.Offset(vaddr, s.shift), IoctlArgs.Length(vaddr, s.shift), page, Good)
  }

  /** The state in which `t` has pinned `page` for a transfer at `vaddr`. */
  function PinnedCall(s: Sys, t: Tid, dir: Dir, vaddr: nat, page: Page): Sys
    requires Enabled(s, Start(t, dir, vaddr)) && page in s.mem
  {
    Pin(StartCall(s, t, dir, vaddr), t, page)
  }

  lemma PinnedCallShape(s: Sys, t: Tid, dir: Dir, vaddr: nat, page: Page)
    requires Inv(s) && Enabled(s, Start(t, dir, vaddr)) && page in s.mem
    ensures var s' := PinnedCall(s, t, dir, vaddr, page);
            && Inv(s') && s'.owner == s.owner && s'.shift == s.shift && s'.mem == s.mem
            && s'.threads == s.threads[t := s'.threads[t]] && At(s', t) == Pinned
            && s'.hist == s.hist.(taken := s.hist.taken + multiset{page}) && s'.drv.page == page
            && XferOf(t, s'.threads[t].(arg := page), Good) == Asked(s, t, dir, vaddr, page)
  {
    IoctlArgs.WindowInsidePage(vaddr, s.shift);
    StartStep(s, t, dir, vaddr);
    PinStep(StartCall(s, t, dir, vaddr), t, page);
  }

  /** A run from the pin, with the start and the pin before it. */
  lemma CallRuns(s: Sys, t: Tid, dir: Dir, vaddr: nat, page: Page, rest: seq<Label>) returns (ls: seq<Label>)
    requires Enabled(s, Start(t, dir, vaddr)) && page in s.mem && Legal(PinnedCall(s, t, dir, vaddr, page), rest)
    ensures |ls| >= 2 && ls[0] == Start(t, dir, vaddr) && ls[1] == PinOk(t, page) && ls[2..] == rest
    ensures Legal(s, ls) && Run(s, ls) == Run(PinnedCall(s, t, dir, vaddr, page), rest)
  {
    ls := [Start(t, dir, vaddr)] + ([PinOk(t, page)] + rest);
    RunCons(StartCall(s, t, dir, vaddr), PinOk(t, page), rest);
    RunCons(s, Start(t, dir, vaddr), [PinOk(t, page)] + rest);
  }

  lemma StepsTwice(s: Sys, t: Tid, rest: seq<Label>) returns (ls: seq<Label>)
    requires CanStep(s, t) && CanStep(ApplyStep(s, t), t) && Legal(ApplyStep(ApplyStep(s, t), t), rest)
    ensures ls == [Step(t)] + ([Step(t)] + rest)
    ensures Legal(s, ls) && Run(s, ls) == Run(ApplyStep(ApplyStep(s, t), t), rest)
  {
    ls := [Step(t)] + ([Step(t)] + rest);
    RunCons(ApplyStep(s, t), Step(t), rest);
    RunCons(s, Step(t), [Step(t)] + rest);
  }

  /** Fetching the page argument and taking the mutex. */
  lemma EnterShape(s: Sys, t: Tid)
    requires Inv(s) && s.owner == None && t in s.threads && At(s, t) == Pinned
    ensures CanStep(s, t) && CanStep(ApplyStep(s, t), t)
    ensures var s' := ApplyStep(ApplyStep(s, t), t);
            && Inv(s') && s' == s.(owner := Some(t), threads := s'.threads)
            && t in s'.threads && s'.threads == s.threads[t := s.threads[t].(pc := SetOffset, arg := s.drv.page)]
  {
    FetchStep(s, t);
    var s1 := ApplyStep(s, t);
    assert s1 == s.(threads := s.threads[t := s.threads[t].(pc := Locking, arg := s.drv.page)]);
    LockStep(s1, t);
    assert ApplyStep(s1, t) == GoTo(s1, t, SetOffset).(owner := Some(t));
  }

  /** A run to the return begins by fetching the page argument and taking the mutex. */
  lemma CompletesEnters(s: Sys, t: Tid, ls: seq<Label>)
    requires Inv(s) && s.owner == None && t in s.threads && At(s, t) == Pinned && Completes(s, t, ls)
    ensures |ls| >= 2 && CanStep(s, t) && CanStep(ApplyStep(s, t), t)
    ensures var s2 := ApplyStep(ApplyStep(s, t), t);
            Completes(s2, t, ls[2..]) && Run(s, ls) == Run(s2, ls[2..])
  {
    EnterShape(s, t);
    CompletesTail(s, t, ls);
    assert ls[0] == Step(t);
    var s1 := ApplyStep(s, t);
    assert s1 == s.(threads := s.threads[t := s.threads[t].(pc := Locking, arg := s.drv.page)]);
    CompletesTail(s1, t, ls[1..]);
    assert ls[1] == Step(t);
    assert ls[1..][1..] == ls[2..];
  }

  /** A caller that has pinned returns with its transfer logged and a page put: whatever page the
      shared field held when it began. */
  lemma CompletedCall(s: Sys, t: Tid, ls: seq<Label>)
    requires Inv(s) && s.owner == None && t in s.threads && At(s, t) == Pinned && Completes(s, t, ls)
    ensures var s' := Run(s, ls);
            && Inv(s') && s'.owner == None
            && t in s'.threads && s'.threads == s.threads[t := s'.threads[t]]
            && s'.shift == s.shift && s'.drv.page == s.drv.page && s'.mem.Keys == s.mem.Keys
            && s'.hist.log == s.hist.log + [XferOf(t, s.threads[t].(arg := s.drv.page), Good)]
            && s'.hist.put == s.hist.put + multiset{s.drv.page}
            && s'.hist.taken == s.hist.taken && s'.hist.leaked == s.hist.leaked
  {
    CompletesEnters(s, t, ls);
    EnterShape(s, t);
    var s2 := ApplyStep(ApplyStep(s, t), t);
    EveryFinish(s2, ls[2..]);
    FinishedCall(s, s2, Run(s2, ls[2..]), t);
  }

  lemma FinishedCall(s: Sys, s2: Sys, s': Sys, t: Tid)
    requires t in s.threads && s2.threads == s.threads[t := s.threads[t].(pc := SetOffset, arg := s.drv.page)]
    requires s2.hist == s.hist && s2.drv == s.drv && Advances(s2, s', t) && At(s', t) == Idle
    ensures s'.threads == s.threads[t := s'.threads[t]]
    ensures s'.hist.log == s.hist.log + [XferOf(t, s.threads[t].(arg := s.drv.page), Good)]
    ensures s'.hist.put == s.hist.put + multiset{s.drv.page}
  {
  }

  lemma CanComplete(s: Sys, t: Tid) returns (ls: seq<Label>)
    requires Inv(s) && s.owner == None && t in s.threads && At(s, t) == Pinned
    ensures Completes(s, t, ls)
  {
    EnterShape(s, t);
    var rest := CanFinish(ApplyStep(ApplyStep(s, t), t));
    CompletesCons(ApplyStep(s, t), t, Step(t), rest);
    CompletesCons(s, t, Step(t), [Step(t)] + rest);
    ls := [Step(t)] + ([Step(t)] + rest);
  }

  // ---------------------------------------------------------------------------
  // The example program
  // ---------------------------------------------------------------------------

  /** One ioctl alone, from its start to its return, nothing failing. */
  predicate IsCall(s: Sys, t: Tid, dir: Dir, vaddr: nat, page: Page, ls: seq<Label>) {
    && |ls| >= 2 && ls[0] == Start(t, dir, vaddr) && ls[1] == PinOk(t, page)
    && Legal(s, ls) && OwnSteps(ls[2..], t) && At(Run(s, ls), t) == Idle
  }

  lemma LegalTwo(s: Sys, ls: seq<Label>)
    requires Legal(s, ls) && |ls| >= 2
    ensures Enabled(s, ls[0]) && Enabled(Apply(s, ls[0]), ls[1])
    ensures var s2 := Apply(Apply(s, ls[0]), ls[1]); Legal(s2, ls[2..]) && Run(s, ls) == Run(s2, ls[2..])
  {
    assert ls[1..][1..] == ls[2..];
  }

  lemma CallAfterPin(s: Sys, t: Tid, dir: Dir, vaddr: nat, page: Page, ls: seq<Label>)
    requires Inv(s) && IsCall(s, t, dir, vaddr, page, ls)
    ensures Enabled(s, Start(t, dir, vaddr)) && page in s.mem
    ensures var s1 := PinnedCall(s, t, dir, vaddr, page);
            Completes(s1, t, ls[2..]) && Run(s, ls) == Run(s1, ls[2..])
  {
    LegalTwo(s, ls);
    assert StartCall(s, t, dir, vaddr).mem == s.mem;
  }

  /** Every run of a call performs exactly one transfer, of the window of its address in the page
      it pinned, and puts that page. */
  lemma FullCall(s: Sys, t: Tid, dir: Dir, vaddr: nat, page: Page, ls: seq<Label>)
    requires Inv(s) && s.owner == None && IsCall(s, t, dir, vaddr, page, ls)
    ensures IoctlArgs.Length(vaddr, s.shift) >= 0
    ensures var s' := Run(s, ls);
            && Inv(s') && s'.owner == None && s'.shift == s.shift && s'.mem.Keys == s.mem.Keys
            && s'.hist.log == s.hist.log + [Asked(s, t, dir, vaddr, page)]
            && s'.hist.taken == s.hist.taken + multiset{page} && s'.hist.put == s.hist.put + multiset{page}
            && s'.hist.leaked == s.hist.leaked
  {
    IoctlArgs.WindowInsidePage(vaddr, s.shift);
    CallAfterPin(s, t, dir, vaddr, page, ls);
    PinnedCallShape(s, t, dir, vaddr, page);
    CompletedCall(PinnedCall(s, t, dir, vaddr, page), t, ls[2..]);
  }

  /** A call whose page cannot be pinned returns at once: only its own arguments are left changed. */
  lemma FailedPinHasNoEffect(s: Sys, t: Tid, dir: Dir, vaddr: nat)
    requires Enabled(s, Start(t, dir, vaddr))
    ensures var ls := [Start(t, dir, vaddr)] + ([PinFail(t)] + []);
            && Legal(s, ls)
            && var s' := Run(s, ls);
               && s' == s.(threads := s'.threads) && OthersStay(s, s', t)
               && At(s', t) == Idle && s'.threads[t].returned == s.threads[t].returned
  {
    var s1 := StartCall(s, t, dir, vaddr);
    RunCons(s1, PinFail(t), []);
    RunCons(s, Start(t, dir, vaddr), [PinFail(t)] + []);
  }

  /** Such runs exist, for every address and page. */
  lemma CanCall(s: Sys, t: Tid, dir: Dir, vaddr: nat, page: Page) returns (ls: seq<Label>)
    requires Inv(s) && s.owner == None && t in s.threads && At(s, t) == Idle && vaddr < TWO_TO_THE_64 && page in s.mem
    ensures IsCall(s, t, dir, vaddr, page, ls)
  {
    var s1 := PinnedCall(s, t, dir, vaddr, page);
    PinnedCallShape(s, t, dir, vaddr, page);
    var rest := CanComplete(s1, t);
    ls := CallRuns(s, t, dir, vaddr, page, rest);
  }

  /** The int at `vaddr` lies in one page. */
  predicate InOnePage(s: Sys, vaddr: nat) {
    var p := IoctlArgs.PageSize(s.shift);
    p > 0 && vaddr / p == (vaddr + SIZEOF_INT - 1) / p
  }

  /** How much of the int at `vaddr` lies in its first page. */
  function InFirstPage(vaddr: nat, pageSize: nat): nat
    requires pageSize > 0
  {
    Min(SIZEOF_INT, pageSize - vaddr % pageSize)
  }

  /** Bytes `0` to `m` of the device buffer are those of memory from `ofs` in `page`, bytes from `m` to
      `n` those that were there, and all of them are at `at` in page `to`. */
  predicate Delivered(s: Sys, s': Sys, page: Page, ofs: nat, m: nat, to: Page, at: nat, n: nat)
    requires page in s.mem && ofs + m <= |s.mem[page]| && to in s'.mem && at + n <= |s'.mem[to]| && n <= |s.eng.buff|
  {
    forall j :: 0 <= j < n ==> s'.mem[to][at + j] == if j < m then s.mem[page][ofs + j] else s.eng.buff[j]
  }

  /** No byte of memory but the `n` from `at` in page `to` is changed. */
  predicate OnlyWindowChanged(s: Sys, s': Sys, to: Page, at: nat, n: nat) {
    && s'.mem.Keys == s.mem.Keys
    && forall q :: q in s.mem ==>
         && |s'.mem[q]| == |s.mem[q]|
         && forall k :: 0 <= k < |s.mem[q]| && !(q == to && at <= k < at + n) ==> s'.mem[q][k] == s.mem[q][k]
  }

  /** The example program of the driver: the int at `a` is sent and then read back at `b`, by one
      caller or by two. In every run from every state with no transaction in progress the bytes
      arrive: all four exactly when neither int straddles a page, and otherwise as many as are in
      the first page of both. A longer window at `b` is filled up from the buffer, and no byte of
      memory outside it changes. */
  lemma ExampleProgram(s: Sys, t: Tid, a: nat, pageA: Page, lsA: seq<Label>,
                       u: Tid, b: nat, pageB: Page, lsB: seq<Label>)
    requires Inv(s) && s.owner == None && IsCall(s, t, ToDevice, a, pageA, lsA)
    requires IsCall(Run(s, lsA), u, FromDevice, b, pageB, lsB)
    ensures Legal(s, lsA + lsB) && IoctlArgs.PageSize(s.shift) >= SIZEOF_INT
    ensures var s', p := Run(s, lsA + lsB), IoctlArgs.PageSize(s.shift);
            var n, m := InFirstPage(a, p), InFirstPage(b, p);
            && s'.owner == None && n >= 1 && m >= 1
            && (Min(n, m) == SIZEOF_INT <==> InOnePage(s, a) && InOnePage(s, b))
            && pageA in s.mem && a % p + n <= |s.mem[pageA]| && m <= |s.eng.buff|
            && pageB in s'.mem && b % p + m <= |s'.mem[pageB]|
            && Delivered(s, s', pageA, a % p, n, pageB, b % p, m)
            && OnlyWindowChanged(s, s', pageB, b % p, m)
            && s'.hist.taken == s.hist.taken + multiset{pageA, pageB}
            && s'.hist.put == s.hist.put + multiset{pageA, pageB}
  {
    var xa, xb := Asked(s, t, ToDevice, a, pageA), Asked(s, u, FromDevice, b, pageB);
    AskedWindow(s, xa, a);
    AskedWindow(s, xb, b);
    WholeIff(s, a);
    WholeIff(s, b);
    ProgramReturns(s, t, a, pageA, lsA, u, b, pageB, lsB);
    ProgramBytes(s, Run(s, lsA + lsB), xa, xb);
  }

  lemma AskedWindow(s: Sys, x: Xfer, vaddr: nat)
    requires IoctlArgs.IsPageShift(s.shift) && x == Asked(s, x.tid, x.dir, vaddr, x.page)
    ensures var p := IoctlArgs.PageSize(s.shift);
            p >= SIZEOF_INT && x.ofs == vaddr % p && x.len == InFirstPage(vaddr, p) >= 1
  {
    IoctlArgs.WindowInsidePage(vaddr, s.shift);
  }

  lemma WholeIff(s: Sys, vaddr: nat)
    requires IoctlArgs.IsPageShift(s.shift)
    ensures IoctlArgs.PageSize(s.shift) >= SIZEOF_INT
    ensures InFirstPage(vaddr, IoctlArgs.PageSize(s.shift)) == SIZEOF_INT <==> InOnePage(s, vaddr)
  {
    IoctlArgs.WindowInsidePage(vaddr, s.shift);
  }

  lemma ProgramReturns(s: Sys, t: Tid, a: nat, pageA: Page, lsA: seq<Label>,
                       u: Tid, b: nat, pageB: Page, lsB: seq<Label>)
    requires Inv(s) && s.owner == None && IsCall(s, t, ToDevice, a, pageA, lsA)
    requires IsCall(Run(s, lsA), u, FromDevice, b, pageB, lsB)
    ensures Legal(s, lsA + lsB)
    ensures var s', xa, xb := Run(s, lsA + lsB), Asked(s, t, ToDevice, a, pageA), Asked(s, u, FromDevice, b, pageB);
            && s'.owner == None
            && Returns(StoreOf(s), xa, xb) && StoreOf(s') == ApplyXfer(ApplyXfer(StoreOf(s), xa), xb)
            && s'.hist.taken == s.hist.taken + multiset{pageA, pageB}
            && s'.hist.put == s.hist.put + multiset{pageA, pageB}
  {
    var xa, xb := Asked(s, t, ToDevice, a, pageA), Asked(s, u, FromDevice, b, pageB);
    TwoCalls(s, t, a, pageA, lsA, u, b, pageB, lsB);
    TwoLogged(s, lsA + lsB, xa, xb);
    FitsWindow(s, xa);
    FitsWindow(s, xb);
  }

  lemma FitsWindow(s: Sys, x: Xfer)
    requires Inv(s) && XferFits(s.mem, IoctlArgs.PageSize(s.shift), x)
    ensures WindowFits(StoreOf(s), x)
  {
  }

  /** A run that logs two transfers performs them. */
  lemma TwoLogged(s: Sys, ls: seq<Label>, xa: Xfer, xb: Xfer)
    requires Inv(s) && Legal(s, ls) && Run(s, ls).hist.log == s.hist.log + [xa] + [] + [xb]
    ensures StoreOf(Run(s, ls)) == ApplyXfer(ApplyXfer(StoreOf(s), xa), xb)
    ensures forall x :: x == xa || x == xb ==> XferFits(s.mem, IoctlArgs.PageSize(s.shift), x)
  {
    RunsLinearise(s, ls);
    LoggedFit(s, ls);
    var log, n := Run(s, ls).hist.log, |s.hist.log|;
    assert log[n..] == [xa] + [] + [xb];
    assert log[n] == xa && log[n + 1] == xb;
    ReplaySplit(StoreOf(s), xa, [], xb);
  }

  /** To the device and back. */
  predicate Returns(st: Store, xa: Xfer, xb: Xfer) {
    && xa.dir == ToDevice && xa.outcome == Good && xb.dir == FromDevice && xb.outcome == Good
    && WindowFits(st, xa) && WindowFits(st, xb)
  }

  lemma FirstKeepsFit(st: Store, xa: Xfer, xb: Xfer)
    requires Returns(st, xa, xb)
    ensures WindowFits(ApplyXfer(st, xa), xb) && ApplyXfer(st, xa).mem == st.mem
  {
  }

  lemma ReturnedByte(st: Store, xa: Xfer, xb: Xfer, j: nat)
    requires Returns(st, xa, xb) && j < xb.len
    ensures var mem := ApplyXfer(ApplyXfer(st, xa), xb).mem;
            && mem.Keys == st.mem.Keys && xb.ofs + j < |mem[xb.page]|
            && mem[xb.page][xb.ofs + j] == if j < xa.len then st.mem[xa.page][xa.ofs + j] else st.buff[j]
  {
    FirstKeepsFit(st, xa, xb);
    XferBufferByte(st, xa, j);
    XferPageByte(ApplyXfer(st, xa), xb, xb.page, xb.ofs + j);
  }

  lemma KeptByte(st: Store, xa: Xfer, xb: Xfer, q: Page, k: nat)
    requires Returns(st, xa, xb) && q in st.mem && k < |st.mem[q]|
    ensures var mem := ApplyXfer(ApplyXfer(st, xa), xb).mem;
            && mem.Keys == st.mem.Keys && |mem[q]| == |st.mem[q]|
            && (!(q == xb.page && xb.ofs <= k < xb.ofs + xb.len) ==> mem[q][k] == st.mem[q][k])
  {
    FirstKeepsFit(st, xa, xb);
    XferPageByte(ApplyXfer(st, xa), xb, q, k);
  }

  lemma SizesKept(st: Store, xa: Xfer, xb: Xfer, q: Page)
    requires Returns(st, xa, xb) && q in st.mem
    ensures var mem := ApplyXfer(ApplyXfer(st, xa), xb).mem; mem.Keys == st.mem.Keys && |mem[q]| == |st.mem[q]|
  {
    FirstKeepsFit(st, xa, xb);
  }

  lemma ProgramBytes(s: Sys, s': Sys, xa: Xfer, xb: Xfer)
    requires Returns(StoreOf(s), xa, xb) && StoreOf(s') == ApplyXfer(ApplyXfer(StoreOf(s), xa), xb)
    ensures xb.page in s'.mem && xb.ofs + xb.len <= |s'.mem[xb.page]|
    ensures Delivered(s, s', xa.page, xa.ofs, xa.len, xb.page, xb.ofs, xb.len)
    ensures OnlyWindowChanged(s, s', xb.page, xb.ofs, xb.len)
  {
    SizesKept(StoreOf(s), xa, xb, xb.page);
    forall j | 0 <= j < xb.len
      ensures s'.mem[xb.page][xb.ofs + j] == if j < xa.len then s.mem[xa.page][xa.ofs + j] else s.eng.buff[j]
    {
      ReturnedByte(StoreOf(s), xa, xb, j);
    }
    forall q | q in s.mem
      ensures |s'.mem[q]| == |s.mem[q]|
    {
      SizesKept(StoreOf(s), xa, xb, q);
    }
    forall q, k | q in s.mem && 0 <= k < |s.mem[q]| && !(q == xb.page && xb.ofs <= k < xb.ofs + xb.len)
      ensures s'.mem[q][k] == s.mem[q][k]
    {
      KeptByte(StoreOf(s), xa, xb, q, k);
    }
  }

  lemma TwoCalls(s: Sys, t: Tid, a: nat, pageA: Page, lsA: seq<Label>,
                 u: Tid, b: nat, pageB: Page, lsB: seq<Label>)
    requires Inv(s) && s.owner == None && IsCall(s, t, ToDevice, a, pageA, lsA)
    requires IsCall(Run(s, lsA), u, FromDevice, b, pageB, lsB)
    ensures Legal(s, lsA + lsB)
    ensures var s' := Run(s, lsA + lsB);
            && s'.owner == None
            && s'.hist.log == s.hist.log + [Asked(s, t, ToDevice, a, pageA)] + [] + [Asked(s, u, FromDevice, b, pageB)]
            && s'.hist.taken == s.hist.taken + multiset{pageA, pageB}
            && s'.hist.put == s.hist.put + multiset{pageA, pageB}
  {
    FullCall(s, t, ToDevice, a, pageA, lsA);
    FullCall(Run(s, lsA), u, FromDevice, b, pageB, lsB);
    RunConcat(s, lsA, lsB);
  }

  // ---------------------------------------------------------------------------
  // Two ways to lose a page
  // ---------------------------------------------------------------------------

  /** Every caller but `t` is where it was. */
  predicate OthersStay(s: Sys, s': Sys, t: Tid) {
    && t in s'.threads && s'.threads.Keys == s.threads.Keys
    && forall u :: u in s.threads && u != t ==> s'.threads[u] == s.threads[u]
  }

  lemma OthersUpdate(s: Sys, s': Sys, t: Tid)
    requires t in s.threads && t in s'.threads && s'.threads == s.threads[t := s'.threads[t]]
    ensures OthersStay(s, s', t)
  {
  }

  lemma OthersTransitive(s: Sys, s1: Sys, s2: Sys, t: Tid)
    requires OthersStay(s, s1, t) && OthersStay(s1, s2, t)
    ensures OthersStay(s, s2, t)
  {
  }

  /** A step from the mutex to the mapping. */
  lemma SetupOne(s: Sys, t: Tid) returns (s': Sys)
    requires Inv(s) && s.owner == Some(t) && t in s.threads
    requires var pc := At(s, t); pc.SetOffset? || pc.SetLen? || pc.SetDir? || pc.InitCompletion?
    ensures CanStep(s, t) && s' == ApplyStep(s, t) && Inv(s')
    ensures s'.owner == Some(t) && OthersStay(s, s', t) && Follows(At(s, t), At(s', t))
    ensures s'.hist == s.hist && s'.threads[t].pinned == s.threads[t].pinned
  {
    s' := ApplyStep(s, t);
    SetupStep(s, t);
    StepFrame(s, t);
    OthersUpdate(s, s', t);
  }

  lemma SetupTwo(s: Sys, t: Tid) returns (s': Sys)
    requires Inv(s) && s.owner == Some(t) && t in s.threads && (At(s, t) == SetOffset || At(s, t) == SetDir)
    ensures CanStep(s, t) && CanStep(ApplyStep(s, t), t) && s' == ApplyStep(ApplyStep(s, t), t) && Inv(s')
    ensures s'.owner == Some(t) && OthersStay(s, s', t)
    ensures At(s', t) == if At(s, t) == SetOffset then SetDir else Map
    ensures s'.hist == s.hist && s'.threads[t].pinned == s.threads[t].pinned
  {
    var s1 := SetupOne(s, t);
    s' := SetupOne(s1, t);
    OthersTransitive(s, s1, s', t);
  }

  /** A mapping that fails and the error return after it. */
  lemma FailTwo(s: Sys, t: Tid) returns (s': Sys)
    requires s.owner == Some(t) && t in s.threads && At(s, t) == Map
    ensures CanStep(FailMap(s, t), t) && s' == ApplyStep(FailMap(s, t), t)
    ensures s'.owner == None && OthersStay(s, s', t) && At(s', t) == Idle
    ensures s'.hist.taken == s.hist.taken && s'.hist.put == s.hist.put
  {
    var s1 := FailMap(s, t);
    OthersUpdate(s, s1, t);
    StepFrame(s1, t);
    s' := ApplyStep(s1, t);
    OthersUpdate(s1, s', t);
    OthersTransitive(s, s1, s', t);
  }

  /** From the mutex to the error return. */
  lemma FailsToMap(s: Sys, t: Tid) returns (ls: seq<Label>)
    requires Inv(s) && s.owner == Some(t) && t in s.threads && At(s, t) == SetOffset
    ensures Legal(s, ls)
    ensures var s' := Run(s, ls);
            && s'.owner == None && OthersStay(s, s', t) && At(s', t) == Idle
            && s'.hist.taken == s.hist.taken && s'.hist.put == s.hist.put
  {
    var s1 := SetupTwo(s, t);
    var s2 := SetupTwo(s1, t);
    var s3 := FailTwo(s2, t);
    OthersTransitive(s, s1, s2, t);
    OthersTransitive(s, s2, s3, t);
    var fails := [MapFail(t)] + ([Step(t)] + []);
    RunCons(FailMap(s2, t), Step(t), []);
    RunCons(s2, MapFail(t), [Step(t)] + []);
    var rest := StepsTwice(s1, t, fails);
    ls := StepsTwice(s, t, rest);
  }

  /** A failed mapping loses a page: from every state with a free mutex and an idle caller, freshly
      probed or not, there is a run after which the caller has returned and the page it pinned
      was never put. */
  lemma LostPage(s: Sys, t: Tid, dir: Dir, vaddr: nat, page: Page) returns (ls: seq<Label>)
    requires Inv(s) && s.owner == None && t in s.threads && At(s, t) == Idle && vaddr < TWO_TO_THE_64 && page in s.mem
    ensures Legal(s, ls)
    ensures var s' := Run(s, ls);
            && s'.owner == None && OthersStay(s, s', t) && At(s', t) == Idle
            && s'.hist.taken == s.hist.taken + multiset{page} && s'.hist.put == s.hist.put
  {
    var s1 := PinnedCall(s, t, dir, vaddr, page);
    PinnedCallShape(s, t, dir, vaddr, page);
    OthersUpdate(s, s1, t);
    EnterShape(s1, t);
    var s2 := ApplyStep(ApplyStep(s1, t), t);
    OthersUpdate(s1, s2, t);
    OthersTransitive(s, s1, s2, t);
    var rest := FailsToMap(s2, t);
    OthersTransitive(s, s2, Run(s2, rest), t);
    var rest1 := StepsTwice(s1, t, rest);
    ls := CallRuns(s, t, dir, vaddr, page, rest1);
  }

  /** Page identity does not survive concurrency: whenever two callers can start with different
      pages, there is a run without any failure after which both have returned, one page was
      put twice and the other never, and the first transfer went to the wrong page. */
  lemma CrossedPages(s: Sys, t: Tid, u: Tid, p: Page, q: Page) returns (ls: seq<Label>)
    requires Inv(s) && s.owner == None && t != u && p != q && p in s.mem && q in s.mem
    requires t in s.threads && u in s.threads && At(s, t) == Idle && At(s, u) == Idle
    ensures Legal(s, ls)
    ensures var s' := Run(s, ls);
            && s'.owner == None && At(s', t) == Idle && At(s', u) == Idle
            && s'.hist.taken == s.hist.taken + multiset{p, q}
            && s'.hist.put == s.hist.put + multiset{q, q}
            && |s'.hist.log| == |s.hist.log| + 2
            && s'.hist.log[|s.hist.log|].pinned == p && s'.hist.log[|s.hist.log|].page == q
  {
    PinBoth(s, t, u, p, q);
    var s1 := PinnedCall(s, t, ToDevice, 0, p);
    var s2 := PinnedCall(s1, u, ToDevice, 0, q);
    var rest := CompleteBoth(s2, t, u);
    var ls1 := CallRuns(s1, u, ToDevice, 0, q, rest);
    ls := CallRuns(s, t, ToDevice, 0, p, ls1);
  }

  lemma PinBoth(s: Sys, t: Tid, u: Tid, p: Page, q: Page)
    requires Inv(s) && s.owner == None && t != u && p in s.mem && q in s.mem
    requires t in s.threads && u in s.threads && At(s, t) == Idle && At(s, u) == Idle
    ensures Enabled(s, Start(t, ToDevice, 0))
    ensures var s1 := PinnedCall(s, t, ToDevice, 0, p);
            && Enabled(s1, Start(u, ToDevice, 0)) && q in s1.mem
            && var s2 := PinnedCall(s1, u, ToDevice, 0, q);
               && Inv(s2) && s2.owner == None && t in s2.threads && u in s2.threads
               && At(s2, t) == Pinned && At(s2, u) == Pinned && s2.threads[t].pinned == p
               && s2.hist == s.hist.(taken := s.hist.taken + multiset{p, q}) && s2.drv.page == q
  {
    var s1 := PinnedCall(s, t, ToDevice, 0, p);
    PinnedCallShape(s, t, ToDevice, 0, p);
    assert u in s1.threads && At(s1, u) == Idle;
    PinnedCallShape(s1, u, ToDevice, 0, q);
    assert PinnedCall(s1, u, ToDevice, 0, q).threads[t] == s1.threads[t];
  }

  /** Two callers that have both pinned return one after the other. */
  lemma CompleteBoth(s: Sys, t: Tid, u: Tid) returns (ls: seq<Label>)
    requires Inv(s) && s.owner == None && t != u
    requires t in s.threads && u in s.threads && At(s, t) == Pinned && At(s, u) == Pinned
    ensures Legal(s, ls)
    ensures var s' := Run(s, ls);
            && s'.owner == None && At(s', t) == Idle && At(s', u) == Idle
            && s'.hist.taken == s.hist.taken
            && s'.hist.put == s.hist.put + multiset{s.drv.page, s.drv.page}
            && |s'.hist.log| == |s.hist.log| + 2
            && s'.hist.log[|s.hist.log|].pinned == s.threads[t].pinned && s'.hist.log[|s.hist.log|].page == s.drv.page
  {
    var ls1 := CanComplete(s, t);
    CompletedCall(s, t, ls1);
    var s1 := Run(s, ls1);
    assert s1.threads[u] == s.threads[u];
    var ls2 := CanComplete(s1, u);
    CompletedCall(s1, u, ls2);
    assert Run(s1, ls2).threads[t] == s1.threads[t];
    RunConcat(s, ls1, ls2);
    ls := ls1 + ls2;
  }
}
