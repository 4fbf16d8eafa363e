/** Page references: what the driver pins, what the handler puts, and what is lost. */
module TransactionPins {
  import opened Bytes
  import opened EngineModel
  import opened Transaction
  import opened TransactionInv
  import opened TransactionProof

  /** The handler has dropped the page of the transaction in progress. */
  predicate PutDone(s: Sys) {
    s.handler == HAck || s.handler == HComplete || (s.handler == HIdle && s.inFlight == 0)
  }

  /** A page reference is held on behalf of a caller at `pc`. */
  predicate Owes(pc: Pc, putDone: bool) {
    match pc
    case Idle | Pinning | Unlock | UnlockErr => false
    case StoreIdle | Wait => !putDone
    case _ => true
  }

  function Owing(s: Sys): set<Tid> {
    set t | t in s.threads && Owes(s.threads[t].pc, PutDone(s))
  }

  predicate Balanced(s: Sys) {
    |s.hist.taken| == |s.hist.put| + |s.hist.leaked| + |Owing(s)|
  }

  /** A step of `t` that changes no reference. */
  lemma OwingKept(s: Sys, s': Sys, t: Tid, th: Thread)
    requires t in s.threads && s'.threads == s.threads[t := th]
    requires Owes(th.pc, PutDone(s')) == Owes(s.threads[t].pc, PutDone(s))
    requires PutDone(s') == PutDone(s)
    ensures Owing(s') == Owing(s)
  {
  }

  lemma NoOtherWaits(s: Sys, t: Tid)
    requires Inv(s) && s.owner == Some(t)
    ensures forall u :: u in s.threads && u != t ==> !Holds(s.threads[u].pc)
  {
  }

  lemma OwesFollows(pc: Pc, next: Pc, done: bool)
    requires Follows(pc, next) && (pc == Ring ==> next == Check) && (pc == Check ==> next == Copy)
    requires pc == Wait ==> done
    ensures pc != Notify ==> Owes(next, done) == Owes(pc, done)
    ensures pc == Notify ==> Owes(pc, done) && Owes(next, false)
  {
  }

  /** Before its notification nothing of a transaction is with the handler; after its wait
      nothing is any more. */
  lemma HandlerIdle(s: Sys, t: Tid)
    requires Inv(s) && CanStep(s, t) && (At(s, t) == Notify || At(s, t) == Wait)
    ensures s.inFlight == 0 && s.handler == HIdle
  {
  }

  lemma OwesKept(s: Sys, t: Tid)
    requires Inv(s) && CanStep(s, t)
    ensures var s' := ApplyStep(s, t);
            && t in s'.threads
            && Owes(s'.threads[t].pc, PutDone(s')) == Owes(s.threads[t].pc, PutDone(s))
            && (At(s, t) != Notify ==> PutDone(s') == PutDone(s))
  {
    StepFrame(s, t);
    DoorbellsSucceed(s, t);
    if At(s, t) == Notify || At(s, t) == Wait {
      HandlerIdle(s, t);
    }
    OwesFollows(s.threads[t].pc, ApplyStep(s, t).threads[t].pc, PutDone(s));
  }

  lemma BalancedThread(s: Sys, t: Tid)
    requires Inv(s) && Balanced(s) && CanStep(s, t)
    ensures Balanced(ApplyStep(s, t))
  {
    StepFrame(s, t);
    OwesKept(s, t);
    var s' := ApplyStep(s, t);
    if At(s, t) == Notify {
      NoOtherWaits(s, t);
      OwingAlone(s, s', t, s'.threads[t]);
    } else {
      OwingKept(s, s', t, s'.threads[t]);
    }
  }

  /** The same when no other caller can be waiting for the handler. */
  lemma OwingAlone(s: Sys, s': Sys, t: Tid, th: Thread)
    requires t in s.threads && s'.threads == s.threads[t := th]
    requires Owes(th.pc, PutDone(s')) == Owes(s.threads[t].pc, PutDone(s))
    requires forall u :: u in s.threads && u != t ==> !Holds(s.threads[u].pc)
    ensures Owing(s') == Owing(s)
  {
  }

  lemma BalancedPin(s: Sys, t: Tid, page: Page)
    requires Balanced(s) && t in s.threads && At(s, t) == Pinning
    ensures Balanced(Pin(s, t, page))
  {
    assert t !in Owing(s);
    assert Owing(Pin(s, t, page)) == Owing(s) + {t};
  }

  lemma BalancedMapFail(s: Sys, t: Tid)
    requires Balanced(s) && t in s.threads && At(s, t) == Map
    ensures Balanced(FailMap(s, t))
  {
    assert t in Owing(s);
    assert Owing(FailMap(s, t)) == Owing(s) - {t};
  }

  lemma BalancedIrqEnter(s: Sys)
    requires Inv(s) && Balanced(s) && Enabled(s, IrqEnter)
    ensures Balanced(Apply(s, IrqEnter))
  {
  }

  lemma BalancedIrq(s: Sys)
    requires Inv(s) && Balanced(s) && s.handler != HIdle
    ensures Balanced(ApplyIrq(s))
  {
    HandlerHasHolder(s);
    var h := s.owner.value;
    NoOtherWaits(s, h);
    match s.handler {
      case HUnmap => assert Owing(ApplyIrq(s)) == Owing(s);
      case HPut =>
        assert h in Owing(s);
        assert Owing(ApplyIrq(s)) == Owing(s) - {h};
      case HAck => assert Owing(ApplyIrq(s)) == Owing(s);
      case HComplete => assert Owing(ApplyIrq(s)) == Owing(s);
    }
  }

  lemma BalancedStep(s: Sys, l: Label)
    requires Inv(s) && Balanced(s) && Enabled(s, l)
    ensures Balanced(Apply(s, l))
  {
    match l
    case Step(t) => BalancedThread(s, t);
    case IrqEnter => BalancedIrqEnter(s);
    case IrqStep => BalancedIrq(s);
    case MapFail(t) => BalancedMapFail(s, t);
    case PinOk(t, page) => BalancedPin(s, t, page);
    case _ => BalancedMove(s, l);
  }

  /** The remaining steps take and drop no reference. */
  lemma BalancedMove(s: Sys, l: Label)
    requires Balanced(s) && Enabled(s, l) && (l.Start? || l.PinFail? || l.MapOk? || l.CopyDone?)
    ensures Balanced(Apply(s, l))
  {
    match l
    case Start(t, dir, vaddr) => OwingKept(s, StartCall(s, t, dir, vaddr), t, StartCall(s, t, dir, vaddr).threads[t]);
    case PinFail(t) => OwingKept(s, GoTo(s, t, Idle), t, s.threads[t].(pc := Idle));
    case MapOk(t, handle) => OwingKept(s, MapPage(s, t, handle), t, s.threads[t].(pc := ReadStatus(Src)));
    case CopyDone(t, o) => OwingKept(s, EndCopy(s, t, o), t, s.threads[t].(pc := SetFlag));
  }

  lemma {:induction false} BalancedRun(s: Sys, ls: seq<Label>)
    requires Inv(s) && Balanced(s) && Legal(s, ls)
    ensures Balanced(Run(s, ls))
    decreases |ls|
  {
    if ls != [] {
      StepInv(s, ls[0]);
      BalancedStep(s, ls[0]);
      BalancedRun(Apply(s, ls[0]), ls[1..]);
    }
  }

  function MapFailures(ls: seq<Label>): nat {
    if ls == [] then 0 else (if ls[0].MapFail? then 1 else 0) + MapFailures(ls[1..])
  }

  lemma {:induction false} NoFailureIff(ls: seq<Label>)
    ensures MapFailures(ls) == 0 <==> forall k :: 0 <= k < |ls| ==> !ls[k].MapFail?
    decreases |ls|
  {
    if ls != [] {
      NoFailureIff(ls[1..]);
      assert ls == [ls[0]] + ls[1..];
    }
  }

  lemma LeakedStep(s: Sys, l: Label)
    requires Enabled(s, l)
    ensures |Apply(s, l).hist.leaked| == |s.hist.leaked| + (if l.MapFail? then 1 else 0)
  {
    match l {
      case Start(_, _, _) =>
      case PinFail(_) =>
      case PinOk(_, _) =>
      case Step(t) => StepFrame(s, t);
      case MapOk(_, _) =>
      case MapFail(_) =>
      case CopyDone(_, _) =>
      case IrqEnter =>
      case IrqStep =>
    }
  }

  lemma {:induction false} LeakedRun(s: Sys, ls: seq<Label>)
    requires Legal(s, ls)
    ensures |Run(s, ls).hist.leaked| == |s.hist.leaked| + MapFailures(ls)
    decreases |ls|
  {
    if ls != [] {
      LeakedStep(s, ls[0]);
      LeakedRun(Apply(s, ls[0]), ls[1..]);
    }
  }

  predicate AtRest(s: Sys) {
    forall t :: t in s.threads ==> s.threads[t].pc == Idle
  }

  /** In every interleaving, pages taken are pages put, plus one for each mapping that failed,
      plus calls that hold a reference. So with no call in progress as many pages were put as were
      taken if and only if no mapping failed. */
  lemma PinsConserved(s0: Sys, ls: seq<Label>)
    requires Init(s0) && Legal(s0, ls)
    ensures var s := Run(s0, ls);
            && |s.hist.taken| == |s.hist.put| + MapFailures(ls) + |Owing(s)|
            && (AtRest(s) ==> |s.hist.taken| == |s.hist.put| + MapFailures(ls))
            && (AtRest(s) ==> (|s.hist.taken| == |s.hist.put| <==> forall k :: 0 <= k < |ls| ==> !ls[k].MapFail?))
  {
    InitInv(s0);
    assert Owing(s0) == {};
    BalancedRun(s0, ls);
    LeakedRun(s0, ls);
    NoFailureIff(ls);
    var s := Run(s0, ls);
    if AtRest(s) {
      assert Owing(s) == {};
    }
  }

  // ---------------------------------------------------------------------------
  // Page identity
  // ---------------------------------------------------------------------------

  /** The page of the last successful pin among `ls`. */
  function LastPinned(p: Page, ls: seq<Label>): Page {
    if ls == [] then p
    else if ls[|ls| - 1].PinOk? then ls[|ls| - 1].page
    else LastPinned(p, ls[..|ls| - 1])
  }

  lemma {:induction false} LastPinnedCons(p: Page, ls: seq<Label>)
    requires ls != []
    ensures LastPinned(p, ls) == LastPinned(if ls[0].PinOk? then ls[0].page else p, ls[1..])
    decreases |ls|
  {
    if |ls| > 1 && !ls[|ls| - 1].PinOk? {
      LastPinnedCons(p, ls[..|ls| - 1]);
      assert ls[..|ls| - 1][1..] == ls[1..][..|ls[1..]| - 1];
    }
  }

  lemma PageFieldStep(s: Sys, l: Label)
    requires Enabled(s, l)
    ensures Apply(s, l).drv.page == if l.PinOk? then l.page else s.drv.page
  {
  }

  /** The shared page field is written outside the mutex: it holds the page of whichever caller
      pinned last. */
  lemma {:induction false} PageFieldIsLastPinned(s: Sys, ls: seq<Label>)
    requires Legal(s, ls)
    ensures Run(s, ls).drv.page == LastPinned(s.drv.page, ls)
    decreases |ls|
  {
    if ls != [] {
      PageFieldStep(s, ls[0]);
      LastPinnedCons(s.drv.page, ls);
      PageFieldIsLastPinned(Apply(s, ls[0]), ls[1..]);
    }
  }

  predicate NoPinBy(t: Tid, ls: seq<Label>) {
    forall k :: 0 <= k < |ls| && ls[k].PinOk? ==> ls[k].t != t
  }

  lemma CallKeptStep(s: Sys, t: Tid, l: Label)
    requires t in s.threads && Enabled(s, l) && !(l.PinOk? && l.t == t)
    ensures var s' := Apply(s, l);
            && t in s'.threads && s'.threads[t].pinned == s.threads[t].pinned
            && (At(s, t) != Pinned ==> At(s', t) != Pinned && s'.threads[t].arg == s.threads[t].arg)
  {
    match l {
      case Start(_, _, _) =>
      case PinFail(_) =>
      case PinOk(_, _) =>
      case Step(u) => StepFrame(s, u);
      case MapOk(_, _) =>
      case MapFail(_) =>
      case CopyDone(_, _) =>
      case IrqEnter =>
      case IrqStep =>
    }
  }

  /** Until it pins again a caller keeps the page it pinned and, once read, its page argument. */
  lemma {:induction false} CallKept(s: Sys, t: Tid, ls: seq<Label>)
    requires t in s.threads && Legal(s, ls) && NoPinBy(t, ls)
    ensures var s' := Run(s, ls);
            && t in s'.threads && s'.threads[t].pinned == s.threads[t].pinned
            && (At(s, t) != Pinned ==> At(s', t) != Pinned && s'.threads[t].arg == s.threads[t].arg)
    decreases |ls|
  {
    if ls != [] {
      CallKeptStep(s, t, ls[0]);
      CallKept(Apply(s, ls[0]), t, ls[1..]);
    }
  }

  /** A call pins `page`, reads the page field after `ls1` and makes its transfer after `ls2`. The
      transfer is of the last page that any caller pinned before the read: of the call's own page
      if and only if that was the last one. */
  lemma TransferPageIff(s: Sys, t: Tid, page: Page, ls1: seq<Label>, ls2: seq<Label>, o: Outcome)
    requires Enabled(s, PinOk(t, page)) && Legal(Pin(s, t, page), ls1) && NoPinBy(t, ls1)
    requires At(Run(Pin(s, t, page), ls1), t) == Pinned
    requires Legal(ApplyStep(Run(Pin(s, t, page), ls1), t), ls2) && NoPinBy(t, ls2)
    requires Enabled(Run(ApplyStep(Run(Pin(s, t, page), ls1), t), ls2), CopyDone(t, o))
    ensures var s' := Run(ApplyStep(Run(Pin(s, t, page), ls1), t), ls2);
            var log := EndCopy(s', t, o).hist.log;
            && |log| == |s'.hist.log| + 1
            && var x := log[|log| - 1];
               && x.tid == t && x.pinned == page && x.page == LastPinned(page, ls1)
               && (x.page == x.pinned <==> LastPinned(page, ls1) == page)
  {
    var s1 := Pin(s, t, page);
    PageFieldIsLastPinned(s1, ls1);
    CallKept(s1, t, ls1);
    var s2 := Run(s1, ls1);
    StepFrame(s2, t);
    CallKept(ApplyStep(s2, t), t, ls2);
  }

  /** The interrupt being handled is that of the holder, whose transfer is the last one made. */
  lemma HandledCall(s: Sys, t: Tid)
    requires Inv(s) && s.handler != HIdle && s.owner == Some(t)
    ensures t in s.threads && Logged(s, t, s.threads[t])
  {
    HandlerHasHolder(s);
  }

  lemma PutsField(s: Sys, page: Page)
    requires s.handler == HPut
    ensures ApplyIrq(s).hist.put == s.hist.put + multiset{s.drv.page}
    ensures ApplyIrq(s).hist.put == s.hist.put + multiset{page} <==> s.drv.page == page
  {
    var put, p := s.hist.put, s.drv.page;
    if p != page {
      assert (put + multiset{p})[p] == put[p] + 1;
      assert (put + multiset{page})[p] == put[p];
    }
  }

  /** A call pins `page` and its interrupt is handled after `ls`. The page put is the last that any
      caller pinned until then: the call's own if and only if that was the last one. */
  lemma PutPageIff(s: Sys, t: Tid, page: Page, ls: seq<Label>)
    requires Inv(s) && Enabled(s, PinOk(t, page)) && Legal(Pin(s, t, page), ls) && NoPinBy(t, ls)
    requires var s' := Run(Pin(s, t, page), ls); s'.owner == Some(t) && s'.handler == HPut
    ensures var s' := Run(Pin(s, t, page), ls);
            && t in s'.threads && s'.threads[t].pinned == page && Logged(s', t, s'.threads[t])
            && ApplyIrq(s').hist.put == s'.hist.put + multiset{LastPinned(page, ls)}
            && (ApplyIrq(s').hist.put == s'.hist.put + multiset{page} <==> LastPinned(page, ls) == page)
  {
    var s1 := Pin(s, t, page);
    PageFieldIsLastPinned(s1, ls);
    CallKept(s1, t, ls);
    PinStep(s, t, page);
    RunInv(s1, ls);
    HandledCall(Run(s1, ls), t);
    PutsField(Run(s1, ls), page);
  }

  // ---------------------------------------------------------------------------
  // One call at a time
  // ---------------------------------------------------------------------------

  predicate Active(pc: Pc) {
    pc != Idle && pc != Pinning
  }

  /** No page is pinned while another call is past its pin. */
  predicate Solo(s: Sys, l: Label) {
    l.PinOk? ==> forall u :: u in s.threads ==> !Active(s.threads[u].pc)
  }

  predicate SoloLegal(s: Sys, ls: seq<Label>)
    decreases |ls|
  {
    ls == [] || (Enabled(s, ls[0]) && Solo(s, ls[0]) && SoloLegal(Apply(s, ls[0]), ls[1..]))
  }

  predicate OwnPages(s: Sys, th: Thread) {
    && s.drv.page == th.pinned
    && (th.pc != Pinned ==> th.arg == th.pinned)
    && s.hist.taken
       == s.hist.put + s.hist.leaked + (if Owes(th.pc, PutDone(s)) then multiset{th.pinned} else multiset{})
  }

  predicate SoloInv(s: Sys) {
    && (forall t, u :: t in s.threads && u in s.threads && Active(s.threads[t].pc) && Active(s.threads[u].pc) ==>
          t == u)
    && (forall t :: t in s.threads && Active(s.threads[t].pc) ==> OwnPages(s, s.threads[t]))
    && ((forall t :: t in s.threads ==> !Active(s.threads[t].pc)) ==> s.hist.taken == s.hist.put + s.hist.leaked)
    && (forall k :: 0 <= k < |s.hist.log| ==> s.hist.log[k].page == s.hist.log[k].pinned)
  }

  /** A step of the only active call. */
  lemma SoloFrame(s: Sys, s': Sys, t: Tid, th: Thread)
    requires SoloInv(s) && t in s.threads && Active(s.threads[t].pc)
    requires s'.threads == s.threads[t := th]
    requires s'.hist.log == s.hist.log
    requires if Active(th.pc) then OwnPages(s', th) else s'.hist.taken == s'.hist.put + s'.hist.leaked
    ensures SoloInv(s')
  {
    assert s'.threads[t] == th;
    forall u | u in s'.threads && u != t
      ensures !Active(s'.threads[u].pc)
    {
      assert s'.threads[u] == s.threads[u];
    }
  }

  lemma SoloThread(s: Sys, t: Tid)
    requires Inv(s) && SoloInv(s) && CanStep(s, t)
    ensures SoloInv(ApplyStep(s, t))
  {
    assert OwnPages(s, s.threads[t]);
    StepFrame(s, t);
    OwesKept(s, t);
    var s' := ApplyStep(s, t);
    assert s'.threads[t].pc != Pinned;
    SoloFrame(s, s', t, s'.threads[t]);
  }

  lemma SoloPinOk(s: Sys, t: Tid, page: Page)
    requires SoloInv(s) && t in s.threads && At(s, t) == Pinning && Solo(s, PinOk(t, page))
    ensures SoloInv(Pin(s, t, page))
  {
    var s' := Pin(s, t, page);
    assert OwnPages(s', s'.threads[t]);
    assert forall u :: u in s'.threads && u != t ==> s'.threads[u] == s.threads[u];
  }

  /** A step of a call that neither had nor gets a page. */
  lemma InactiveFrame(s: Sys, s': Sys, t: Tid, th: Thread)
    requires SoloInv(s) && t in s.threads && !Active(s.threads[t].pc) && !Active(th.pc)
    requires s' == s.(threads := s.threads[t := th])
    ensures SoloInv(s')
  {
    forall u | u in s.threads && u != t
      ensures s'.threads[u] == s.threads[u]
    {
    }
    if forall u :: u in s'.threads ==> !Active(s'.threads[u].pc) {
      assert forall u :: u in s.threads && u != t ==> !Active(s'.threads[u].pc);
    }
  }

  lemma SoloMap(s: Sys, t: Tid, handle: nat)
    requires SoloInv(s) && t in s.threads && At(s, t) == Map
    ensures SoloInv(MapPage(s, t, handle))
  {
    assert OwnPages(s, s.threads[t]);
    SoloFrame(s, MapPage(s, t, handle), t, s.threads[t].(pc := ReadStatus(Src)));
  }

  lemma SoloMapFail(s: Sys, t: Tid)
    requires SoloInv(s) && t in s.threads && At(s, t) == Map
    ensures SoloInv(FailMap(s, t))
  {
    assert OwnPages(s, s.threads[t]);
    SoloFrame(s, FailMap(s, t), t, s.threads[t].(pc := UnlockErr));
  }

  lemma SoloCopy(s: Sys, t: Tid, o: Outcome)
    requires SoloInv(s) && t in s.threads && At(s, t) == Copy && InBuffer(s)
    ensures SoloInv(EndCopy(s, t, o))
  {
    var s' := EndCopy(s, t, o);
    assert OwnPages(s, s.threads[t]);
    var s1 := s'.(hist := s.hist);
    SoloFrame(s, s1, t, s.threads[t].(pc := SetFlag));
    SoloLog(s1, s', XferOf(t, s.threads[t], o));
  }

  lemma SoloLog(s: Sys, s': Sys, x: Xfer)
    requires SoloInv(s) && s' == s.(hist := s.hist.(log := s.hist.log + [x])) && x.page == x.pinned
    ensures SoloInv(s')
  {
  }

  /** A step of the handler, for the call of `h`. */
  lemma SoloHandler(s: Sys, s': Sys, h: Tid, th: Thread)
    requires SoloInv(s) && h in s.threads && th == s.threads[h] && (th.pc == StoreIdle || th.pc == Wait)
    requires s'.threads == s.threads && s'.drv.page == s.drv.page && s'.hist == s.hist.(put := s'.hist.put)
    requires PutDone(s') == PutDone(s) ==> s'.hist.put == s.hist.put
    requires PutDone(s') != PutDone(s) ==> PutDone(s') && s'.hist.put == s.hist.put + multiset{s.drv.page}
    ensures SoloInv(s')
  {
    assert OwnPages(s, th);
    assert s'.threads == s.threads[h := th];
    assert OwnPages(s', th);
    SoloFrame(s, s', h, th);
  }

  lemma SoloIrq(s: Sys)
    requires Inv(s) && SoloInv(s) && s.handler != HIdle
    ensures SoloInv(ApplyIrq(s))
  {
    HandlerHasHolder(s);
    var h := s.owner.value;
    match s.handler {
      case HUnmap => SoloHandler(s, ApplyIrq(s), h, s.threads[h]);
      case HPut => SoloHandler(s, ApplyIrq(s), h, s.threads[h]);
      case HAck => SoloHandler(s, ApplyIrq(s), h, s.threads[h]);
      case HComplete => SoloHandler(s, ApplyIrq(s), h, s.threads[h]);
    }
  }

  lemma SoloIrqEnter(s: Sys)
    requires Inv(s) && SoloInv(s) && Enabled(s, IrqEnter)
    ensures SoloInv(Apply(s, IrqEnter))
  {
    HandlerHasHolder(s);
    var h, s' := s.owner.value, s.(inFlight := s.inFlight - 1, handler := HUnmap);
    SoloHandler(s, s', h, s.threads[h]);
  }

  lemma SoloStep(s: Sys, l: Label)
    requires Inv(s) && SoloInv(s) && Enabled(s, l) && Solo(s, l)
    ensures SoloInv(Apply(s, l))
  {
    match l
    case Start(t, dir, vaddr) =>
      InactiveFrame(s, StartCall(s, t, dir, vaddr), t, StartCall(s, t, dir, vaddr).threads[t]);
    case PinFail(t) => InactiveFrame(s, GoTo(s, t, Idle), t, s.threads[t].(pc := Idle));
    case PinOk(t, page) => SoloPinOk(s, t, page);
    case Step(t) => SoloThread(s, t);
    case MapOk(t, handle) => SoloMap(s, t, handle);
    case MapFail(t) => SoloMapFail(s, t);
    case CopyDone(t, o) => SoloCopy(s, t, o);
    case IrqEnter => SoloIrqEnter(s);
    case IrqStep => SoloIrq(s);
  }

  lemma {:induction false} SoloRun(s: Sys, ls: seq<Label>)
    requires Inv(s) && SoloInv(s) && SoloLegal(s, ls)
    ensures Legal(s, ls) && SoloInv(Run(s, ls))
    decreases |ls|
  {
    if ls != [] {
      StepInv(s, ls[0]);
      SoloStep(s, ls[0]);
      SoloRun(Apply(s, ls[0]), ls[1..]);
    }
  }

  /** With calls one at a time every transfer uses the page that its caller pinned, and with no call
      in progress the pages put are the pages taken, one by one, if and only if no mapping failed. */
  lemma SequentialPins(s0: Sys, ls: seq<Label>)
    requires Init(s0) && SoloLegal(s0, ls)
    ensures Legal(s0, ls)
    ensures var s := Run(s0, ls);
            && (forall k :: 0 <= k < |s.hist.log| ==> s.hist.log[k].page == s.hist.log[k].pinned)
            && (AtRest(s) ==> s.hist.taken == s.hist.put + s.hist.leaked && |s.hist.leaked| == MapFailures(ls))
            && (AtRest(s) ==> (s.hist.taken == s.hist.put <==> forall k :: 0 <= k < |ls| ==> !ls[k].MapFail?))
  {
    InitInv(s0);
    SoloRun(s0, ls);
    LeakedRun(s0, ls);
    NoFailureIff(ls);
    var s := Run(s0, ls);
    if s.hist.taken == s.hist.put + s.hist.leaked && s.hist.taken == s.hist.put {
      assert |s.hist.taken| == |s.hist.put| + |s.hist.leaked|;
    }
  }
}
