/** What register writes, however nested, do to the interrupt state of the device. */
module DeviceIrq {
  import opened EngineModel
  import opened Hw
  import opened Device
  import Irq

  // ---------------------------------------------------------------------------
  // The completion interrupt
  // ---------------------------------------------------------------------------

  function RaiseWrites(accesses: seq<Access>): nat {
    if accesses == [] then 0
    else (if accesses[0].addr == IRQ_0_RAISE then 1 else 0) + RaiseWrites(accesses[1..])
  }

  /** `n` notifications of the completion vector. */
  function Completions(n: nat): (r: seq<nat>)
    ensures |r| == n && forall i :: 0 <= i < n ==> r[i] == IRQ_DMA_ENDED_VECTOR
  {
    seq(n, _ => IRQ_DMA_ENDED_VECTOR)
  }

  /** Vectors other than that of DMA completion are as they were. */
  predicate OthersKept(s: Irq.State, r: Irq.State)
    requires Irq.Valid(s) && Irq.Valid(r)
  {
    forall v :: 0 <= v < Irq.MAX_VECTORS_MSIX && v != IRQ_DMA_ENDED_VECTOR ==> Irq.Flag(r, v) == Irq.Flag(s, v)
  }

  lemma NestedNotify(d: Dev, a: Access)
    requires Valid(d) && d.eng.status == EXECUTING
    ensures var r := Write(d, a).dev;
            && r.irq.mode == d.irq.mode && OthersKept(d.irq, r.irq)
            && r.irq.notified == d.irq.notified + if a.addr == IRQ_0_RAISE && d.irq.mode != Irq.Pin then [0] else []
  {
  }

  /** While the engine executes only writes to the raise register notify, once each. */
  lemma {:induction false} NestedNotifyAll(d: Dev, accesses: seq<Access>)
    requires Valid(d) && d.eng.status == EXECUTING
    ensures var r := WriteAll(d, accesses).dev;
            && r.irq.mode == d.irq.mode && OthersKept(d.irq, r.irq)
            && r.irq.notified
               == d.irq.notified + Completions(if d.irq.mode != Irq.Pin then RaiseWrites(accesses) else 0)
    decreases |accesses|
  {
    if accesses != [] {
      NestedNotify(d, accesses[0]);
      WriteDuringExecution(d, accesses[0]);
      NestedNotifyAll(Write(d, accesses[0]).dev, accesses[1..]);
    }
  }

  /** A doorbell signals completion if and only if its descriptor is accepted, a bus error or not.
      Accepted, and whatever its copy wrote to the device in between: the completion flag is set
      when it is done, even if the copy lowered it; it notifies once, besides the notifications
      that the copy asked for; and no other vector changes. In pin mode the line is up and nothing
      is notified. Rejected, it has no effect at all. */
  lemma InterruptIffAccepted(d: Dev, a: Access)
    requires Valid(d) && d.eng.status == IDLE && a.addr == DMA_DOORBELL_RING
    ensures var r := Write(d, a).dev;
            if !Accepts(d.eng.desc) then r == d
            else if d.irq.mode == Irq.Pin then
              && r.irq.line && r.irq.bytes[Irq.PIN_RAISED_AT] != 0
              && r.irq.notified == d.irq.notified && OthersKept(d.irq, r.irq) && r.irq.mode == d.irq.mode
            else
              && Irq.Flag(r.irq, IRQ_DMA_ENDED_VECTOR) && OthersKept(d.irq, r.irq) && r.irq.mode == d.irq.mode
              && r.irq.notified == d.irq.notified + Completions(RaiseWrites(a.nested) + 1)
  {
    DoorbellRaises(d, a);
    if Accepts(d.eng.desc) {
      var d1 := d.(eng := d.eng.(status := EXECUTING));
      NestedNotifyAll(d1, a.nested);
      RaiseCompletes(d.irq, WriteAll(d1, a.nested).dev.irq, RaiseWrites(a.nested));
    }
  }

  lemma DoorbellRaises(d: Dev, a: Access)
    requires Valid(d) && d.eng.status == IDLE && a.addr == DMA_DOORBELL_RING
    ensures if Accepts(d.eng.desc) then
              Write(d, a).dev.irq
                == Irq.Raise(WriteAll(d.(eng := d.eng.(status := EXECUTING)), a.nested).dev.irq, IRQ_DMA_ENDED_VECTOR)
            else Write(d, a).dev == d
  {
  }

  /** The raise at the end, after `n` notifications in between. */
  lemma RaiseCompletes(s: Irq.State, mid: Irq.State, n: nat)
    requires Irq.Valid(s) && Irq.Valid(mid) && mid.mode == s.mode && OthersKept(s, mid)
    requires mid.notified == s.notified + Completions(if s.mode != Irq.Pin then n else 0)
    ensures var r := Irq.Raise(mid, IRQ_DMA_ENDED_VECTOR);
            && OthersKept(s, r)
            && if s.mode == Irq.Pin then r.line && r.bytes[Irq.PIN_RAISED_AT] != 0 && r.notified == s.notified
               else Irq.Flag(r, IRQ_DMA_ENDED_VECTOR) && r.notified == s.notified + Completions(n + 1)
  {
    assert Completions(n + 1) == Completions(n) + [IRQ_DMA_ENDED_VECTOR];
  }

  // ---------------------------------------------------------------------------
  // Register writes as interrupt operations
  // ---------------------------------------------------------------------------

  /** The interrupt operations behind `r` raise the completion vector alone. */
  predicate Explains(s: Irq.State, ops: seq<Irq.Op>, r: Irq.State)
    requires Irq.Valid(s)
  {
    r == Irq.Run(s, ops) && Irq.RaisesOnlyDmaVector(ops)
  }

  lemma Nothing(s: Irq.State)
    requires Irq.Valid(s)
    ensures Explains(s, [], s)
  {
  }

  lemma Single(s: Irq.State, op: Irq.Op)
    requires Irq.Valid(s) && (op.DoRaise? ==> op.v == IRQ_DMA_ENDED_VECTOR)
    ensures Explains(s, [op], Irq.Apply(s, op))
  {
    assert [op][..0] == [];
  }

  lemma Chained(s: Irq.State, a: seq<Irq.Op>, mid: Irq.State, b: seq<Irq.Op>, r: Irq.State)
    requires Irq.Valid(s) && Explains(s, a, mid) && Explains(mid, b, r)
    ensures Explains(s, a + b, r)
  {
    Irq.RunConcat(s, a, b);
  }

  /** Whatever a register write does to interrupt state, its copy's own writes included, is a
      sequence of interrupt operations, and the only vector they raise is that of completion. */
  lemma {:induction false} WriteOps(d: Dev, a: Access) returns (ops: seq<Irq.Op>)
    requires Valid(d)
    ensures Explains(d.irq, ops, Write(d, a).dev.irq)
    decreases a, 1
  {
    if a.addr == IRQ_0_RAISE {
      ops := [Irq.DoRaise(0)];
      Single(d.irq, ops[0]);
    } else if a.addr == IRQ_0_LOWER {
      ops := [Irq.DoLower(0)];
      Single(d.irq, ops[0]);
    } else if a.addr == DMA_DOORBELL_RING && d.eng.status != EXECUTING {
      ops := ExecuteOps(d.(eng := d.eng.(status := if d.eng.status == IDLE then EXECUTING else d.eng.status)), a);
    } else {
      ops := [];
      Nothing(d.irq);
    }
  }

  lemma {:induction false} ExecuteOps(d: Dev, a: Access) returns (ops: seq<Irq.Op>)
    requires Valid(d)
    ensures Explains(d.irq, ops, Execute(d, a).dev.irq)
    decreases a, 0
  {
    if Accepts(d.eng.desc) {
      var before := AllOps(d, a.nested);
      var mid := WriteAll(d, a.nested).dev.irq;
      Single(mid, Irq.DoRaise(IRQ_DMA_ENDED_VECTOR));
      ops := before + [Irq.DoRaise(IRQ_DMA_ENDED_VECTOR)];
      Chained(d.irq, before, mid, [Irq.DoRaise(IRQ_DMA_ENDED_VECTOR)], Execute(d, a).dev.irq);
    } else {
      ops := [];
      Nothing(d.irq);
    }
  }

  lemma {:induction false} AllOps(d: Dev, accesses: seq<Access>) returns (ops: seq<Irq.Op>)
    requires Valid(d)
    ensures Explains(d.irq, ops, WriteAll(d, accesses).dev.irq)
    decreases accesses, 0
  {
    if accesses == [] {
      ops := [];
      Nothing(d.irq);
    } else {
      var d1 := Write(d, accesses[0]).dev;
      var first := WriteOps(d, accesses[0]);
      var rest := AllOps(d1, accesses[1..]);
      ops := first + rest;
      Chained(d.irq, first, d1.irq, rest, WriteAll(d1, accesses[1..]).dev.irq);
    }
  }

  // ---------------------------------------------------------------------------
  // Reset of the device
  // ---------------------------------------------------------------------------

  /** What happens to a device: register writes, the host enabling another kind of interrupt, and
      resets, of the interrupts and then of the engine. */
  datatype Input = Writes(a: Access) | Enables(m: Irq.Mode) | Resets

  function DeviceReset(d: Dev): (r: Dev)
    requires Valid(d)
    ensures Valid(r)
  {
    Reset(d.(irq := Irq.Reset(d.irq)))
  }

  function Feed(d: Dev, i: Input): (r: Dev)
    requires Valid(d)
    ensures Valid(r)
  {
    match i
    case Writes(a) => Write(d, a).dev
    case Enables(m) => d.(irq := d.irq.(mode := m))
    case Resets => DeviceReset(d)
  }

  function FeedAll(d: Dev, inputs: seq<Input>): (r: Dev)
    requires Valid(d)
    ensures Valid(r)
    decreases |inputs|
  {
    if inputs == [] then d else FeedAll(Feed(d, inputs[0]), inputs[1..])
  }

  lemma FeedOps(d: Dev, i: Input) returns (ops: seq<Irq.Op>)
    requires Valid(d)
    ensures Explains(d.irq, ops, Feed(d, i).irq)
  {
    match i
    case Writes(a) => ops := WriteOps(d, a);
    case Enables(m) =>
      ops := [Irq.SwitchTo(m)];
      Single(d.irq, ops[0]);
    case Resets =>
      ops := [Irq.DoReset];
      Single(d.irq, ops[0]);
  }

  lemma {:induction false} FeedAllOps(d: Dev, inputs: seq<Input>) returns (ops: seq<Irq.Op>)
    requires Valid(d)
    ensures Explains(d.irq, ops, FeedAll(d, inputs).irq)
    decreases |inputs|
  {
    if inputs == [] {
      ops := [];
      Nothing(d.irq);
    } else {
      var d1 := Feed(d, inputs[0]);
      var first := FeedOps(d, inputs[0]);
      var rest := FeedAllOps(d1, inputs[1..]);
      ops := first + rest;
      Chained(d.irq, first, d1.irq, rest, FeedAll(d1, inputs[1..]).irq);
    }
  }

  predicate NoFlags(s: Irq.State)
    requires Irq.Valid(s)
  {
    forall v :: 0 <= v < Irq.MAX_VECTORS_MSIX ==> !Irq.Flag(s, v)
  }

  /** From cleared state and after any run of register writes, mode switches and resets no vector
      but that of completion is flagged, and a reset of the device leaves no vector flag set if and
      only if MSI-X or MSI is enabled, or the completion flag was not set. */
  lemma ResetLeavesNothingIff(d: Dev, inputs: seq<Input>)
    requires Valid(d) && NoFlags(d.irq)
    ensures var r := FeedAll(d, inputs);
            && OthersKept(d.irq, r.irq)
            && (NoFlags(DeviceReset(r).irq) <==> r.irq.mode != Irq.Pin || !Irq.Flag(r.irq, IRQ_DMA_ENDED_VECTOR))
  {
    var ops := FeedAllOps(d, inputs);
    Irq.OthersStayLow(d.irq, ops);
    var r := FeedAll(d, inputs);
    if r.irq.mode != Irq.Pin {
      Irq.ResetExact(r.irq);
    } else {
      assert forall v :: 0 <= v < Irq.MAX_VECTORS_MSIX ==> Irq.Flag(Irq.Reset(r.irq), v) == Irq.Flag(r.irq, v);
    }
  }

  /** An interrupt raised with MSI-X enabled, and the pin in use when the device is reset. */
  function RaisedThenPin(v: nat): seq<Input> {
    [Enables(Irq.Msix)] + ([Writes(Config(IRQ_0_RAISE, v))] + [Enables(Irq.Pin)])
  }

  /** From every cleared state this leaves the completion flag set across a reset. */
  lemma PinResetKeepsFlag(d: Dev, v: nat)
    requires Valid(d) && NoFlags(d.irq)
    ensures var r := FeedAll(d, RaisedThenPin(v));
            && r.irq.mode == Irq.Pin && Irq.Flag(r.irq, IRQ_DMA_ENDED_VECTOR)
            && !NoFlags(DeviceReset(r).irq)
  {
    var d1 := Feed(d, Enables(Irq.Msix));
    var d2 := Feed(d1, Writes(Config(IRQ_0_RAISE, v)));
    var d3 := Feed(d2, Enables(Irq.Pin));
    assert d2.irq == Irq.Raise(d1.irq, 0);
    FeedCons(d2, Enables(Irq.Pin), []);
    assert [Enables(Irq.Pin)] + [] == [Enables(Irq.Pin)];
    FeedCons(d1, Writes(Config(IRQ_0_RAISE, v)), [Enables(Irq.Pin)]);
    FeedCons(d, Enables(Irq.Msix), [Writes(Config(IRQ_0_RAISE, v))] + [Enables(Irq.Pin)]);
    ResetLeavesNothingIff(d, RaisedThenPin(v));
  }

  lemma FeedCons(d: Dev, i: Input, rest: seq<Input>)
    requires Valid(d)
    ensures FeedAll(d, [i] + rest) == FeedAll(Feed(d, i), rest)
  {
  }
}
