/** The transaction protocol cannot get stuck: whoever holds the mutex releases it. */
module TransactionProgress {
  import opened Bytes
  import opened EngineModel
  import opened Transaction
  import opened TransactionInv
  import opened TransactionProof
  import opened TransactionPins

  /** Steps of the holder and of the handler. */
  predicate Drives(s: Sys, l: Label) {
    l.IrqEnter? || l.IrqStep? || s.owner == Some(l.t)
  }

  /** Steps of `t` and of the handler in which nothing fails. */
  predicate OwnStep(l: Label, t: Tid) {
    match l
    case Step(u) => u == t
    case MapOk(u, _) => u == t
    case CopyDone(u, o) => u == t && o == Good
    case IrqEnter | IrqStep => true
    case _ => false
  }

  predicate OwnSteps(ls: seq<Label>, t: Tid) {
    forall k :: 0 <= k < |ls| ==> OwnStep(ls[k], t)
  }

  function PcRank(pc: Pc): nat {
    match pc
    case SetOffset => 30
    case SetLen => 29
    case SetDir => 28
    case InitCompletion => 27
    case Map => 26
    case ReadStatus(f) => 25 - 2 * Slot(f)
    case WriteField(f) => 24 - 2 * Slot(f)
    case Ring => 17
    case Check => 16
    case Copy => 15
    case SetFlag => 14
    case Notify => 13
    case StoreIdle => 7
    case Wait => 6
    case Unlock | UnlockErr => 1
    case _ => 0
  }

  function IrqRank(h: Handler, inFlight: nat): nat {
    match h
    case HIdle => 5 * inFlight
    case HUnmap => 4 + 5 * inFlight
    case HPut => 3 + 5 * inFlight
    case HAck => 2 + 5 * inFlight
    case HComplete => 1 + 5 * inFlight
  }

  /** A bound on the steps that the transaction in progress still takes. */
  function Rank(s: Sys): nat {
    if s.owner.None? then 0 else PcRank(At(s, s.owner.value)) + IrqRank(s.handler, s.inFlight)
  }

  /** While the mutex is held, the holder or the handler can take a step. */
  lemma NeverStuck(s: Sys) returns (l: Label)
    requires Inv(s) && s.owner.Some?
    ensures Enabled(s, l) && Drives(s, l) && OwnStep(l, s.owner.value)
  {
    var t := s.owner.value;
    match s.threads[t].pc {
      case Map => l := MapOk(t, 0);
      case Copy =>
        DescriptorAccepted(s, t);
        CopyReachable(s, t);
        l := CopyDone(t, Good);
      case Wait =>
        l := if s.drv.completed then Step(t) else if s.handler == HIdle then IrqEnter else IrqStep;
      case _ => l := Step(t);
    }
  }

  lemma ThreadRank(s: Sys, t: Tid)
    requires CanStep(s, t) && s.owner == Some(t) && Holds(s.threads[t].pc)
    ensures var s' := ApplyStep(s, t); s'.owner == None || (s'.owner == s.owner && Rank(s') < Rank(s))
  {
    StepFrame(s, t);
  }

  lemma OtherRank(s: Sys, t: Tid)
    requires Inv(s) && CanStep(s, t) && s.owner.Some? && s.owner != Some(t)
    ensures ApplyStep(s, t).owner == s.owner && Rank(ApplyStep(s, t)) == Rank(s)
  {
    StepFrame(s, t);
    assert !Holds(s.threads[t].pc);
  }

  lemma IrqRankDrops(s: Sys)
    requires Inv(s) && s.handler != HIdle
    ensures ApplyIrq(s).owner == s.owner && Rank(ApplyIrq(s)) < Rank(s)
  {
    HandlerHasHolder(s);
    match s.handler {
      case HUnmap =>
      case HPut =>
      case HAck =>
      case HComplete =>
    }
  }

  lemma IrqEnterRankDrops(s: Sys)
    requires Inv(s) && Enabled(s, IrqEnter)
    ensures Apply(s, IrqEnter).owner == s.owner && Rank(Apply(s, IrqEnter)) < Rank(s)
  {
  }

  lemma CallRank(s: Sys, l: Label)
    requires Enabled(s, l) && s.owner.Some? && !l.Step? && !l.IrqEnter? && !l.IrqStep?
    ensures Apply(s, l).owner == s.owner
    ensures s.owner != Some(l.t) ==> Rank(Apply(s, l)) == Rank(s)
    ensures Holds(At(s, l.t)) && s.owner == Some(l.t) ==> Rank(Apply(s, l)) < Rank(s)
  {
    CallFrame(s, l);
    match l {
      case Start(_, _, _) =>
      case PinFail(_) =>
      case PinOk(_, _) =>
      case MapOk(_, _) =>
      case MapFail(_) =>
      case CopyDone(_, _) =>
    }
  }

  /** Each step of holder or handler brings the release nearer, and no step of another caller
      puts it off or takes the mutex away. */
  lemma RankStep(s: Sys, l: Label)
    requires Inv(s) && Enabled(s, l) && s.owner.Some?
    ensures var s' := Apply(s, l);
            if Drives(s, l) then s'.owner == None || (s'.owner == s.owner && Rank(s') < Rank(s))
            else s'.owner == s.owner && Rank(s') == Rank(s)
  {
    match l
    case Step(t) =>
      if s.owner == Some(t) {
        ThreadRank(s, t);
      } else {
        OtherRank(s, t);
      }
    case IrqEnter => IrqEnterRankDrops(s);
    case IrqStep => IrqRankDrops(s);
    case _ => CallRank(s, l);
  }

  predicate KeepsOwner(s: Sys, ls: seq<Label>)
    requires Legal(s, ls)
    decreases |ls|
  {
    ls == [] || (Apply(s, ls[0]).owner == s.owner && KeepsOwner(Apply(s, ls[0]), ls[1..]))
  }

  function DrivingSteps(s: Sys, ls: seq<Label>): nat
    requires Legal(s, ls)
    decreases |ls|
  {
    if ls == [] then 0
    else (if Drives(s, ls[0]) then 1 else 0) + DrivingSteps(Apply(s, ls[0]), ls[1..])
  }

  lemma {:induction false} HoldIsRanked(s: Sys, ls: seq<Label>)
    requires Inv(s) && s.owner.Some? && Legal(s, ls) && KeepsOwner(s, ls)
    ensures DrivingSteps(s, ls) + Rank(Run(s, ls)) <= Rank(s)
    decreases |ls|
  {
    if ls != [] {
      RankStep(s, ls[0]);
      StepInv(s, ls[0]);
      HoldIsRanked(Apply(s, ls[0]), ls[1..]);
    }
  }

  /** However the others are scheduled, holder and handler together take at most 30 steps
      before the mutex is released. */
  lemma HoldIsBounded(s: Sys, ls: seq<Label>)
    requires Inv(s) && s.owner.Some? && Legal(s, ls) && KeepsOwner(s, ls)
    ensures DrivingSteps(s, ls) <= 30
  {
    HoldIsRanked(s, ls);
    if s.inFlight > 0 || s.handler != HIdle {
      HandlerHasHolder(s);
    }
  }

  predicate BeforeCopy(pc: Pc) {
    Holds(pc) && !Copied(pc) && pc != UnlockErr
  }

  /** The transfer still to be logged for a caller. */
  function LogDue(t: Tid, th: Thread): seq<Xfer> {
    if BeforeCopy(th.pc) then [XferOf(t, th, Good)] else []
  }

  /** The page still to be put for a caller. */
  function PutDue(pc: Pc, putDone: bool, page: Page): multiset<Page> {
    if Owes(pc, putDone) then multiset{page} else multiset{}
  }

  /** What steps without failures leave as it was, for the transaction of `t` in progress. */
  predicate Advances(s: Sys, s': Sys, t: Tid) {
    && t in s.threads && t in s'.threads && s'.threads == s.threads[t := s'.threads[t]]
    && s'.shift == s.shift && s'.drv.page == s.drv.page && s'.mem.Keys == s.mem.Keys
    && s'.hist.log + LogDue(t, s'.threads[t]) == s.hist.log + LogDue(t, s.threads[t])
    && s'.hist.put + PutDue(At(s', t), PutDone(s'), s'.drv.page)
       == s.hist.put + PutDue(At(s, t), PutDone(s), s.drv.page)
    && s'.hist.taken == s.hist.taken && s'.hist.leaked == s.hist.leaked
  }

  lemma AdvancesTransitive(s: Sys, s1: Sys, s2: Sys, t: Tid)
    requires Advances(s, s1, t) && Advances(s1, s2, t)
    ensures Advances(s, s2, t)
  {
  }

  lemma ThreadAdvances(s: Sys, t: Tid)
    requires Inv(s) && CanStep(s, t) && s.owner == Some(t)
    ensures Advances(s, ApplyStep(s, t), t)
  {
    StepFrame(s, t);
    OwesKept(s, t);
    LogDueKept(s, t);
  }

  lemma DueFollows(pc: Pc, next: Pc)
    requires Holds(pc) && Follows(pc, next) && (pc == Ring ==> next == Check) && (pc == Check ==> next == Copy)
    ensures BeforeCopy(next) == BeforeCopy(pc)
  {
  }

  lemma LogDueKept(s: Sys, t: Tid)
    requires Inv(s) && CanStep(s, t) && s.owner == Some(t)
    ensures t in ApplyStep(s, t).threads && LogDue(t, ApplyStep(s, t).threads[t]) == LogDue(t, s.threads[t])
  {
    StepFrame(s, t);
    DoorbellsSucceed(s, t);
    DueFollows(s.threads[t].pc, ApplyStep(s, t).threads[t].pc);
  }

  lemma IrqAdvances(s: Sys)
    requires Inv(s) && s.handler != HIdle
    ensures s.owner.Some? && Advances(s, ApplyIrq(s), s.owner.value)
  {
    HandlerHasHolder(s);
    var t := s.owner.value;
    assert s.threads == s.threads[t := s.threads[t]];
    match s.handler {
      case HUnmap =>
      case HPut =>
      case HAck =>
      case HComplete =>
    }
  }

  lemma IrqEnterAdvances(s: Sys)
    requires Inv(s) && Enabled(s, IrqEnter)
    ensures s.owner.Some? && Advances(s, Apply(s, IrqEnter), s.owner.value)
  {
    HandlerHasHolder(s);
    var t, s' := s.owner.value, s.(inFlight := s.inFlight - 1, handler := HUnmap);
    assert s.threads == s.threads[t := s.threads[t]];
    assert Advances(s, s', t);
  }

  lemma MapAdvances(s: Sys, t: Tid, handle: nat)
    requires t in s.threads && At(s, t) == Map
    ensures Advances(s, MapPage(s, t, handle), t)
  {
  }

  lemma CopyAdvances(s: Sys, t: Tid)
    requires Inv(s) && t in s.threads && At(s, t) == Copy && InBuffer(s)
    ensures Advances(s, EndCopy(s, t, Good), t)
  {
  }

  lemma DriverAdvances(s: Sys, l: Label)
    requires Inv(s) && s.owner.Some? && Enabled(s, l) && OwnStep(l, s.owner.value)
    ensures Advances(s, Apply(s, l), s.owner.value)
  {
    match l
    case Step(t) => ThreadAdvances(s, t);
    case IrqEnter => IrqEnterAdvances(s);
    case IrqStep => IrqAdvances(s);
    case MapOk(t, handle) => MapAdvances(s, t, handle);
    case CopyDone(t, _) => CopyAdvances(s, t);
  }

  /** One step of the holder or its handler in which nothing fails. */
  lemma OwnStepAdvances(s: Sys, l: Label)
    requires Inv(s) && s.owner.Some? && Enabled(s, l) && OwnStep(l, s.owner.value)
    ensures var s', t := Apply(s, l), s.owner.value;
            && Inv(s') && Advances(s, s', t)
            && if s'.owner == None then At(s', t) == Idle else s'.owner == s.owner && Rank(s') < Rank(s)
  {
    RankStep(s, l);
    StepInv(s, l);
    DriverAdvances(s, l);
    if Apply(s, l).owner == None {
      ReleasedIdle(s, l);
    }
  }

  /** A run of `t` and the handler in which nothing fails and `t` returns. */
  predicate Completes(s: Sys, t: Tid, ls: seq<Label>) {
    Legal(s, ls) && OwnSteps(ls, t) && At(Run(s, ls), t) == Idle
  }

  lemma CompletesCons(s: Sys, t: Tid, l: Label, rest: seq<Label>)
    requires Enabled(s, l) && OwnStep(l, t) && Completes(Apply(s, l), t, rest)
    ensures Completes(s, t, [l] + rest)
  {
  }

  lemma CompletesTail(s: Sys, t: Tid, ls: seq<Label>)
    requires At(s, t) != Idle && Completes(s, t, ls)
    ensures ls != [] && Enabled(s, ls[0]) && OwnStep(ls[0], t)
    ensures Completes(Apply(s, ls[0]), t, ls[1..]) && Run(s, ls) == Run(Apply(s, ls[0]), ls[1..])
  {
  }

  /** With the mutex free and `t` between calls, neither `t` nor the handler can go on. */
  lemma NothingToDo(s: Sys, t: Tid, ls: seq<Label>)
    requires Inv(s) && s.owner == None && At(s, t) == Idle && ls != [] && OwnSteps(ls, t)
    ensures !Legal(s, ls)
  {
    assert OwnStep(ls[0], t);
    assert !Enabled(s, ls[0]);
  }

  lemma HolderBusy(s: Sys)
    requires Inv(s) && s.owner.Some?
    ensures s.owner.value in s.threads && At(s, s.owner.value) != Idle
  {
  }

  /** Every run of holder and handler alone in which nothing fails and the holder returns releases
      the mutex, with the holder's transfer performed, its page reference put and every other
      caller where it was. */
  lemma {:induction false} EveryFinish(s: Sys, ls: seq<Label>)
    requires Inv(s) && s.owner.Some? && Completes(s, s.owner.value, ls)
    ensures Inv(Run(s, ls)) && Run(s, ls).owner == None && Advances(s, Run(s, ls), s.owner.value)
    decreases |ls|
  {
    var t := s.owner.value;
    HolderBusy(s);
    CompletesTail(s, t, ls);
    OwnStepAdvances(s, ls[0]);
    var s1, rest := Apply(s, ls[0]), ls[1..];
    if s1.owner.Some? {
      EveryFinish(s1, rest);
      AdvancesTransitive(s, s1, Run(s1, rest), t);
    } else if rest != [] {
      NothingToDo(s1, t, rest);
    }
  }

  /** From any state such a run exists. */
  lemma {:induction false} CanFinish(s: Sys) returns (ls: seq<Label>)
    requires Inv(s) && s.owner.Some?
    ensures Completes(s, s.owner.value, ls)
    ensures Run(s, ls).owner == None && Advances(s, Run(s, ls), s.owner.value)
    decreases Rank(s)
  {
    var l := NeverStuck(s);
    OwnStepAdvances(s, l);
    var rest := [];
    if Apply(s, l).owner.Some? {
      rest := CanFinish(Apply(s, l));
    }
    CompletesCons(s, s.owner.value, l, rest);
    ls := [l] + rest;
    EveryFinish(s, ls);
  }

  lemma ReleasedIdle(s: Sys, l: Label)
    requires Enabled(s, l) && s.owner.Some? && Apply(s, l).owner == None
    ensures l.Step? && At(Apply(s, l), l.t) == Idle
  {
    match l
    case Step(t) => StepFrame(s, t);
    case IrqEnter =>
    case IrqStep =>
    case _ =>
  }
}
