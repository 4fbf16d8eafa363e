/**
 The engine without the driver's mutex: any number of threads write its configuration
 registers and ring its doorbell as they please. A configuration write reads the status and
 stores afterwards; a doorbell is a compare-and-swap, the execution, and the store of IDLE.
 */
module Race {
  import opened Bytes
  import opened EngineModel
  import Device

  type Tid = nat

  /** `readAt` is history: how many doorbells had won when the status was read. */
  datatype Pc =
    | Out
    | Reading(f: Field, v: nat)
    | Storing(f: Field, v: nat, seen: Status, readAt: nat)
    | Ringing
    | Executing

  /** `wins` counts the doorbells that won the compare-and-swap. */
  datatype Sys = Sys(status: Status, desc: Descriptor, wins: nat, threads: map<Tid, Pc>)

  datatype Label =
    | Write(t: Tid, f: Field, v: nat)
    | Read(t: Tid)
    | Commit(t: Tid)
    | Ring(t: Tid)
    | Cas(t: Tid)
    | Finish(t: Tid)

  predicate Enabled(s: Sys, l: Label) {
    && l.t in s.threads
    && match l {
         case Write(t, _, _) => s.threads[t].Out?
         case Read(t) => s.threads[t].Reading?
         case Commit(t) => s.threads[t].Storing?
         case Ring(t) => s.threads[t].Out?
         case Cas(t) => s.threads[t].Ringing?
         case Finish(t) => s.threads[t].Executing?
       }
  }

  function Apply(s: Sys, l: Label): Sys
    requires Enabled(s, l)
  {
    match l
    case Write(t, f, v) => s.(threads := s.threads[t := Reading(f, v)])
    case Read(t) =>
      var pc := s.threads[t];
      s.(threads := s.threads[t := Storing(pc.f, pc.v, s.status, s.wins)])
    case Commit(t) =>
      var pc := s.threads[t];
      s.(threads := s.threads[t := Out], desc := if pc.seen == IDLE then s.desc.Set(pc.f, pc.v) else s.desc)
    case Ring(t) => s.(threads := s.threads[t := Ringing])
    case Cas(t) =>
      if s.status == EXECUTING then s.(threads := s.threads[t := Out])
      else s.(threads := s.threads[t := Executing], wins := s.wins + 1,
              status := if s.status == IDLE then EXECUTING else s.status)
    case Finish(t) => s.(threads := s.threads[t := Out], status := IDLE)
  }

  predicate Legal(s: Sys, ls: seq<Label>)
    decreases |ls|
  {
    ls == [] || (Enabled(s, ls[0]) && Legal(Apply(s, ls[0]), ls[1..]))
  }

  function Run(s: Sys, ls: seq<Label>): Sys
    requires Legal(s, ls)
    decreases |ls|
  {
    if ls == [] then s else Run(Apply(s, ls[0]), ls[1..])
  }

  predicate Init(s: Sys) {
    s.status == IDLE && forall t :: t in s.threads ==> s.threads[t] == Out
  }

  predicate OneExecutes(s: Sys) {
    && (forall t, u :: t in s.threads && u in s.threads && s.threads[t].Executing? && s.threads[u].Executing? ==>
          t == u)
    && (s.status == EXECUTING <==> exists t :: t in s.threads && s.threads[t].Executing?)
  }

  /** A status read is of the execution it fell into, or of an idle time before a later win. */
  predicate ReadsDated(s: Sys) {
    forall t :: t in s.threads && s.threads[t].Storing? ==>
      && s.threads[t].readAt <= s.wins
      && (s.threads[t].seen == IDLE && s.status == EXECUTING ==> s.threads[t].readAt < s.wins)
  }

  predicate Inv(s: Sys) {
    s.status != OFF && OneExecutes(s) && ReadsDated(s)
  }

  lemma StepInv(s: Sys, l: Label)
    requires Inv(s) && Enabled(s, l)
    ensures Inv(Apply(s, l))
  {
    var s' := Apply(s, l);
    assert forall u :: u in s.threads && u != l.t ==> s'.threads[u] == s.threads[u];
    assert s'.threads[l.t].Executing? <==> l.Cas? && s.status != EXECUTING;
    match l {
      case Write(_, _, _) =>
      case Read(_) =>
      case Commit(_) =>
      case Ring(_) =>
      case Cas(_) =>
      case Finish(_) =>
    }
  }

  lemma {:induction false} RunInv(s: Sys, ls: seq<Label>)
    requires Inv(s) && Legal(s, ls)
    ensures Inv(Run(s, ls))
    decreases |ls|
  {
    if ls != [] {
      StepInv(s, ls[0]);
      RunInv(Apply(s, ls[0]), ls[1..]);
    }
  }

  /** In every interleaving the status is EXECUTING exactly while one thread is between its
      winning compare-and-swap and its store of IDLE, and never two threads are. */
  lemma MutualExclusion(s0: Sys, ls: seq<Label>)
    requires Init(s0) && Legal(s0, ls)
    ensures var s := Run(s0, ls);
            && (s.status == EXECUTING <==> exists t :: t in s.threads && s.threads[t].Executing?)
            && (forall t, u ::
                  t in s.threads && u in s.threads && s.threads[t].Executing? && s.threads[u].Executing? ==>
                  t == u)
  {
    RunInv(s0, ls);
  }

  /** During an execution a register changes only by a store whose status read was before the
      compare-and-swap that began it; a write that reads the status during it is dropped. */
  lemma OnlyStaleWrites(s0: Sys, ls: seq<Label>, l: Label)
    requires Init(s0) && Legal(s0, ls) && Enabled(Run(s0, ls), l) && Run(s0, ls).status == EXECUTING
    ensures var s := Run(s0, ls);
            && (Apply(s, l).desc != s.desc ==>
                  l.Commit? && s.threads[l.t].seen == IDLE && s.threads[l.t].readAt < s.wins)
            && (l.Commit? && s.threads[l.t].readAt == s.wins ==> Apply(s, l).desc == s.desc)
  {
    RunInv(s0, ls);
  }

  // ---------------------------------------------------------------------------
  // What the registers hold
  // ---------------------------------------------------------------------------

  /** A store whose read saw IDLE takes effect on its register alone, even during an execution; one
      whose read saw anything else is dropped, even if the engine is idle by then; and no other
      step changes a register. */
  lemma StoreIff(s: Sys, l: Label)
    requires Enabled(s, l)
    ensures var d, e := s.desc, Apply(s, l).desc;
            if l.Commit? && s.threads[l.t].seen == IDLE then
              e.Get(s.threads[l.t].f) == s.threads[l.t].v && forall g :: g != s.threads[l.t].f ==> e.Get(g) == d.Get(g)
            else e == d
  {
  }

  /** A configuration write on its way, as its labels tell: what it writes, and whether the status was
      IDLE when it was read. */
  datatype Intent = Intent(f: Field, v: nat, idle: bool)

  function Track(m: map<Tid, Intent>, status: Status, l: Label): map<Tid, Intent> {
    match l
    case Write(t, f, v) => m[t := Intent(f, v, false)]
    case Read(t) => if t in m then m[t := m[t].(idle := status == IDLE)] else m
    case _ => m
  }

  /** The value of the last store to `f` in `ls` whose read saw IDLE. */
  function LastStored(m: map<Tid, Intent>, s: Sys, ls: seq<Label>, f: Field, was: nat): nat
    requires Legal(s, ls)
    decreases |ls|
  {
    if ls == [] then was
    else
      var l := ls[0];
      LastStored(Track(m, s.status, l), Apply(s, l), ls[1..], f,
                 if l.Commit? && l.t in m && m[l.t].idle && m[l.t].f == f then m[l.t].v else was)
  }

  predicate Tracked(m: map<Tid, Intent>, s: Sys) {
    forall t :: t in s.threads ==>
      match s.threads[t]
      case Reading(f, v) => t in m && m[t].f == f && m[t].v == v
      case Storing(f, v, seen, _) => t in m && m[t] == Intent(f, v, seen == IDLE)
      case _ => true
  }

  lemma TrackStep(m: map<Tid, Intent>, s: Sys, l: Label)
    requires Tracked(m, s) && Enabled(s, l)
    ensures Tracked(Track(m, s.status, l), Apply(s, l))
  {
    var m', s' := Track(m, s.status, l), Apply(s, l);
    assert forall u :: u in s.threads && u != l.t ==>
        s'.threads[u] == s.threads[u] && (u in m ==> u in m' && m'[u] == m[u]);
  }

  lemma {:induction false} StoredRun(m: map<Tid, Intent>, s: Sys, ls: seq<Label>, f: Field)
    requires Tracked(m, s) && Legal(s, ls)
    ensures Run(s, ls).desc.Get(f) == LastStored(m, s, ls, f, s.desc.Get(f))
    decreases |ls|
  {
    if ls != [] {
      StoreIff(s, ls[0]);
      TrackStep(m, s, ls[0]);
      StoredRun(Track(m, s.status, ls[0]), Apply(s, ls[0]), ls[1..], f);
    }
  }

  /** In every interleaving each register holds the value written by the last store of the run whose
      status read saw IDLE, or the initial one. */
  lemma RegistersHoldLastStored(s0: Sys, ls: seq<Label>, f: Field)
    requires Init(s0) && Legal(s0, ls)
    ensures Run(s0, ls).desc.Get(f) == LastStored(map[], s0, ls, f, s0.desc.Get(f))
  {
    StoredRun(map[], s0, ls, f);
  }

  lemma RunCons(s: Sys, l: Label, rest: seq<Label>)
    requires Enabled(s, l) && Legal(Apply(s, l), rest)
    ensures Legal(s, [l] + rest) && Run(s, [l] + rest) == Run(Apply(s, l), rest)
  {
  }

  /** With nothing in between, a configuration write is that of the device, in every state of the
      engine. */
  lemma WriteAgrees(s: Sys, t: Tid, f: Field, v: nat, d: Device.Dev)
    requires t in s.threads && s.threads[t] == Out && Device.Valid(d)
    requires d.eng.desc == s.desc && d.eng.status == s.status
    ensures var ls := [Write(t, f, v)] + ([Read(t)] + ([Commit(t)] + []));
            && Legal(s, ls)
            && Run(s, ls) == s.(desc := Device.Write(d, Device.Config(Device.AddressOf(f), v)).dev.eng.desc)
  {
    var s1 := Apply(s, Write(t, f, v));
    var s2 := Apply(s1, Read(t));
    var s3 := Apply(s2, Commit(t));
    assert s3.threads == s.threads;
    Device.ConfigFieldOf(f);
    RunCons(s2, Commit(t), []);
    RunCons(s1, Read(t), [Commit(t)] + []);
    RunCons(s, Write(t, f, v), [Read(t)] + ([Commit(t)] + []));
  }

  // ---------------------------------------------------------------------------
  // When the descriptor is frozen
  // ---------------------------------------------------------------------------

  predicate WithinExecution(ls: seq<Label>) {
    forall k :: 0 <= k < |ls| ==> !ls[k].Finish?
  }

  /** Whatever happens until the execution ends, the descriptor stays as it is. */
  ghost predicate Frozen(s: Sys) {
    forall ls :: Legal(s, ls) && WithinExecution(ls) ==> Run(s, ls).desc == s.desc
  }

  /** No store with an old IDLE read is pending, unless it stores what is there already. */
  predicate NoStaleStore(s: Sys) {
    forall t :: t in s.threads && s.threads[t].Storing? && s.threads[t].seen == IDLE ==>
      s.desc.Get(s.threads[t].f) == s.threads[t].v
  }

  lemma SameFields(d: Descriptor, e: Descriptor)
    requires forall f :: d.Get(f) == e.Get(f)
    ensures d == e
  {
    assert d.Get(Src) == e.Get(Src) && d.Get(Dst) == e.Get(Dst) && d.Get(Len) == e.Get(Len) && d.Get(Cmd) == e.Get(Cmd);
  }

  lemma {:induction false} FrozenRun(s: Sys, ls: seq<Label>)
    requires s.status == EXECUTING && NoStaleStore(s) && Legal(s, ls) && WithinExecution(ls)
    ensures Run(s, ls).desc == s.desc
    decreases |ls|
  {
    if ls != [] {
      var s' := Apply(s, ls[0]);
      assert !ls[0].Finish?;
      if ls[0].Commit? && s.threads[ls[0].t].seen == IDLE {
        SameFields(s.desc, s'.desc);
      }
      FrozenRun(s', ls[1..]);
    }
  }

  /** The descriptor of an execution is frozen if and only if no stale store is pending. */
  lemma FrozenIff(s: Sys)
    requires s.status == EXECUTING
    ensures Frozen(s) <==> NoStaleStore(s)
  {
    if NoStaleStore(s) {
      forall ls | Legal(s, ls) && WithinExecution(ls)
        ensures Run(s, ls).desc == s.desc
      {
        FrozenRun(s, ls);
      }
    } else {
      var t :| t in s.threads && s.threads[t].Storing? && s.threads[t].seen == IDLE
               && s.desc.Get(s.threads[t].f) != s.threads[t].v;
      var ls := [Commit(t)];
      assert ls[1..] == [];
      assert Legal(s, ls) && WithinExecution(ls);
      assert Run(s, ls) == Apply(s, Commit(t));
      assert Run(s, ls).desc.Get(s.threads[t].f) == s.threads[t].v;
    }
  }

  /** And one can be pending: nothing but the driver's mutex keeps another thread's store out. */
  lemma StaleStoreReachable(s0: Sys, t: Tid, u: Tid, f: Field, v: nat) returns (ls: seq<Label>)
    requires Init(s0) && t in s0.threads && u in s0.threads && t != u && s0.desc.Get(f) != v
    ensures Legal(s0, ls) && Run(s0, ls).status == EXECUTING && !Frozen(Run(s0, ls))
  {
    var s1 := Apply(s0, Write(t, f, v));
    var s2 := Apply(s1, Read(t));
    var s3 := Apply(s2, Ring(u));
    var s4 := Apply(s3, Cas(u));
    RunCons(s3, Cas(u), []);
    RunCons(s2, Ring(u), [Cas(u)] + []);
    RunCons(s1, Read(t), [Ring(u)] + ([Cas(u)] + []));
    RunCons(s0, Write(t, f, v), [Read(t)] + ([Ring(u)] + ([Cas(u)] + [])));
    ls := [Write(t, f, v)] + ([Read(t)] + ([Ring(u)] + ([Cas(u)] + [])));
    assert !NoStaleStore(s4) by {
      assert s4.threads[t] == Storing(f, v, IDLE, s0.wins);
    }
    FrozenIff(s4);
  }
}
