/**
 The interrupt state of the device. MSI-X, MSI and pin state are members of one C union, so
 they are modelled as the bytes they share: a vector entry is a pointer followed by its flag.
 The limits are those of section 6.8 of the PCI Local Bus Specification 3.0.
 */
module Irq {
  import opened Bytes
  import opened Hw

  const MAX_VECTORS_MSI := 32
  const MAX_VECTORS_MSIX := 2048
  const RAISED_OFFSET := 8
  const SIZEOF_VECTOR := 16
  const SIZEOF_STATUS := MAX_VECTORS_MSIX * SIZEOF_VECTOR

  /** What the host has enabled; MSI-X is preferred to MSI, and MSI to the pin. */
  datatype Mode = Msix | Msi | Pin

  /** `notified` lists the vectors notified so far, `line` is the level of the pin. */
  datatype State = State(mode: Mode, bytes: seq<byte>, notified: seq<nat>, line: bool)

  // Offsets in the union of msix.msix_vectors[v].raised, msi.msi_vectors[v].raised and pin.raised.
  function MsixRaisedAt(v: nat): nat { v * SIZEOF_VECTOR + RAISED_OFFSET }
  function MsiRaisedAt(v: nat): nat { v * SIZEOF_VECTOR + RAISED_OFFSET }
  const PIN_RAISED_AT := 0

  predicate Valid(s: State) {
    |s.bytes| == SIZEOF_STATUS
  }

  function Limit(m: Mode): nat {
    match m
    case Msix => MAX_VECTORS_MSIX
    case Msi => MAX_VECTORS_MSI
    case Pin => 0
  }

  predicate Flag(s: State, v: nat)
    requires Valid(s) && v < MAX_VECTORS_MSIX
  {
    s.bytes[MsixRaisedAt(v)] != 0
  }

  function SetFlag(s: State, v: nat, b: byte): (r: State)
    requires Valid(s) && v < MAX_VECTORS_MSIX
    ensures Valid(r)
  {
    s.(bytes := s.bytes[MsixRaisedAt(v) := b])
  }

  function SetPin(s: State, b: byte): (r: State)
    requires Valid(s)
    ensures Valid(r)
  {
    s.(bytes := s.bytes[PIN_RAISED_AT := b], line := b != 0)
  }

  function Raise(s: State, v: nat): (r: State)
    requires Valid(s)
    ensures Valid(r)
  {
    if s.mode == Pin then SetPin(s, 1)
    else if v >= Limit(s.mode) then s
    else SetFlag(s, v, 1).(notified := s.notified + [v])
  }

  function Lower(s: State, v: nat): (r: State)
    requires Valid(s)
    ensures Valid(r)
  {
    if s.mode == Pin then SetPin(s, 0)
    else if v >= Limit(s.mode) then s
    else SetFlag(s, v, 0)
  }

  /** The last vector that a reset lowers. */
  function ResetEnd(m: Mode): nat {
    if m == Msix then IRQ_MSIX_VECTOR_END else IRQ_VECTOR_END
  }

  /** Lowering vectors 0 to n - 1, in this order. */
  function LowerBelow(s: State, n: nat): (r: State)
    requires Valid(s)
    ensures Valid(r)
  {
    if n == 0 then s else Lower(LowerBelow(s, n - 1), n - 1)
  }

  function Reset(s: State): (r: State)
    requires Valid(s)
    ensures Valid(r)
  {
    if s.mode == Pin then SetPin(s, 0) else LowerBelow(s, ResetEnd(s.mode) + 1)
  }

  lemma {:induction false} LowerBelowExact(s: State, n: nat)
    requires Valid(s) && s.mode != Pin && n <= Limit(s.mode)
    ensures var r := LowerBelow(s, n);
            && r == s.(bytes := r.bytes)
            && (forall v :: 0 <= v < MAX_VECTORS_MSIX ==> Flag(r, v) == (v >= n && Flag(s, v)))
            && (forall k :: 0 <= k < SIZEOF_STATUS && k % SIZEOF_VECTOR != RAISED_OFFSET ==> r.bytes[k] == s.bytes[k])
  {
    if n > 0 {
      LowerBelowExact(s, n - 1);
      var p, r := LowerBelow(s, n - 1), LowerBelow(s, n);
      assert r == SetFlag(p, n - 1, 0);
      forall v | 0 <= v < MAX_VECTORS_MSIX
        ensures Flag(r, v) == (v >= n && Flag(s, v))
      {
        assert Flag(p, v) == (v >= n - 1 && Flag(s, v));
      }
    }
  }

  /** A reset by vectors clears exactly vectors 0 to 127, or with MSI vector 0 alone, and nothing else
      in the union. So it leaves no flag set if and only if none was set above. */
  lemma ResetExact(s: State)
    requires Valid(s) && s.mode != Pin
    ensures var r, end := Reset(s), if s.mode == Msix then 127 else 0;
            && r == s.(bytes := r.bytes)
            && (forall v :: 0 <= v < MAX_VECTORS_MSIX ==> Flag(r, v) == (v > end && Flag(s, v)))
            && (forall k :: 0 <= k < SIZEOF_STATUS && k % SIZEOF_VECTOR != RAISED_OFFSET ==> r.bytes[k] == s.bytes[k])
    ensures (forall v :: 0 <= v < MAX_VECTORS_MSIX ==> !Flag(Reset(s), v)) <==>
            (forall v :: (if s.mode == Msix then 127 else 0) < v < MAX_VECTORS_MSIX ==> !Flag(s, v))
  {
    LowerBelowExact(s, ResetEnd(s.mode) + 1);
  }

  // ---------------------------------------------------------------------------
  // Any sequence of operations
  // ---------------------------------------------------------------------------

  datatype Op = DoRaise(v: nat) | DoLower(v: nat) | DoReset | SwitchTo(m: Mode)

  function Apply(s: State, op: Op): (r: State)
    requires Valid(s)
    ensures Valid(r)
  {
    match op
    case DoRaise(v) => Raise(s, v)
    case DoLower(v) => Lower(s, v)
    case DoReset => Reset(s)
    case SwitchTo(m) => s.(mode := m)
  }

  function Run(s: State, ops: seq<Op>): (r: State)
    requires Valid(s)
    ensures Valid(r)
    decreases |ops|
  {
    if ops == [] then s else Apply(Run(s, ops[..|ops| - 1]), ops[|ops| - 1])
  }

  /** The mode in force after `ops`, by the last switch. */
  function ModeAfter(m: Mode, ops: seq<Op>): Mode {
    if ops == [] then m
    else if ops[|ops| - 1].SwitchTo? then ops[|ops| - 1].m
    else ModeAfter(m, ops[..|ops| - 1])
  }

  /** In mode `m` this operation sets or clears the flag of vector `v`. */
  predicate Reaches(op: Op, m: Mode, v: nat) {
    match op
    case DoRaise(u) => u == v && ((m == Msix && v < 2048) || (m == Msi && v < 32))
    case DoLower(u) => u == v && ((m == Msix && v < 2048) || (m == Msi && v < 32))
    case DoReset => (m == Msix && v <= 127) || (m == Msi && v == 0)
    case SwitchTo(_) => false
  }

  /** The last of `ops` to reach vector `v` decides; if none does, the flag is as it was. */
  function LastEffect(m: Mode, ops: seq<Op>, v: nat, was: bool): bool {
    if ops == [] then was
    else
      var before, op := ops[..|ops| - 1], ops[|ops| - 1];
      if Reaches(op, ModeAfter(m, before), v) then op.DoRaise? else LastEffect(m, before, v, was)
  }

  /** The same for the pin, which only pin mode reaches. */
  function LastPinEffect(m: Mode, ops: seq<Op>, was: bool): bool {
    if ops == [] then was
    else
      var before, op := ops[..|ops| - 1], ops[|ops| - 1];
      if !op.SwitchTo? && ModeAfter(m, before) == Pin then op.DoRaise? else LastPinEffect(m, before, was)
  }

  /** The notifications that `ops` send, in order. */
  function Notifications(m: Mode, ops: seq<Op>): seq<nat> {
    if ops == [] then []
    else
      var before, op := ops[..|ops| - 1], ops[|ops| - 1];
      Notifications(m, before) + if op.DoRaise? && Reaches(op, ModeAfter(m, before), op.v) then [op.v] else []
  }

  lemma ApplyExact(s: State, op: Op)
    requires Valid(s)
    ensures var r := Apply(s, op);
            && r.notified == s.notified + (if op.DoRaise? && Reaches(op, s.mode, op.v) then [op.v] else [])
            && r.line == (if !op.SwitchTo? && s.mode == Pin then op.DoRaise? else s.line)
            && r.mode == (if op.SwitchTo? then op.m else s.mode)
            && (forall v :: 0 <= v < MAX_VECTORS_MSIX ==>
                  Flag(r, v) == if Reaches(op, s.mode, v) then op.DoRaise? else Flag(s, v))
            && (r.bytes[PIN_RAISED_AT] != 0)
               == (if !op.SwitchTo? && s.mode == Pin then op.DoRaise? else s.bytes[PIN_RAISED_AT] != 0)
            && (forall k :: 0 < k < SIZEOF_STATUS && k % SIZEOF_VECTOR != RAISED_OFFSET ==> r.bytes[k] == s.bytes[k])
  {
    if op.DoReset? && s.mode != Pin {
      ResetExact(s);
    }
  }

  /** Over any sequence of raises, lowers, resets and mode switches each vector flag is the effect
      of the last operation that reached it, whether as MSI or as MSI-X; the pin and its line
      likewise; neither disturbs the other, nor anything else in the union; and the vectors
      notified are those raised within the limit, once each, in order. */
  lemma {:induction false} LastOperationDecides(s: State, ops: seq<Op>)
    requires Valid(s)
    ensures var r := Run(s, ops);
            && r.mode == ModeAfter(s.mode, ops)
            && (forall v :: 0 <= v < MAX_VECTORS_MSIX ==> Flag(r, v) == LastEffect(s.mode, ops, v, Flag(s, v)))
            && (r.bytes[PIN_RAISED_AT] != 0) == LastPinEffect(s.mode, ops, s.bytes[PIN_RAISED_AT] != 0)
            && r.line == LastPinEffect(s.mode, ops, s.line)
            && r.notified == s.notified + Notifications(s.mode, ops)
            && (forall k :: 0 < k < SIZEOF_STATUS && k % SIZEOF_VECTOR != RAISED_OFFSET ==> r.bytes[k] == s.bytes[k])
    decreases |ops|
  {
    if ops != [] {
      var before := ops[..|ops| - 1];
      LastOperationDecides(s, before);
      ApplyExact(Run(s, before), ops[|ops| - 1]);
    }
  }

  /** MSI flag i and MSI-X flag i are one byte, so each is seen through the other. */
  lemma MsiAndMsixShareFlags(s: State, v: nat)
    requires Valid(s) && v < MAX_VECTORS_MSI
    ensures MsiRaisedAt(v) == MsixRaisedAt(v) != PIN_RAISED_AT
    ensures var raised := Raise(s.(mode := Msi), v);
            && (forall u :: 0 <= u < MAX_VECTORS_MSIX ==> Flag(raised, u) == (u == v || Flag(s, u)))
            && (forall u :: 0 <= u < MAX_VECTORS_MSIX ==>
                  Flag(Lower(raised.(mode := Msix), v), u) == (u != v && Flag(s, u)))
    ensures Raise(s.(mode := Msi), v).bytes == Raise(s.(mode := Msix), v).bytes
  {
  }

  /** With MSI-X or MSI enabled, the completion vector is flagged and notified once by a raise, and
      its flag is cleared by a lower, whatever vectors and modes came before. */
  lemma CompletionVector(s: State)
    requires Valid(s) && s.mode != Pin
    ensures var up, down := Raise(s, IRQ_DMA_ENDED_VECTOR), Lower(s, IRQ_DMA_ENDED_VECTOR);
            && Flag(up, IRQ_DMA_ENDED_VECTOR) && up.notified == s.notified + [IRQ_DMA_ENDED_VECTOR]
            && !Flag(down, IRQ_DMA_ENDED_VECTOR) && down.notified == s.notified
            && (forall v :: 0 < v < MAX_VECTORS_MSIX ==> Flag(up, v) == Flag(down, v) == Flag(s, v))
  {
  }

  predicate RaisesOnlyDmaVector(ops: seq<Op>) {
    forall k :: 0 <= k < |ops| && ops[k].DoRaise? ==> ops[k].v == IRQ_DMA_ENDED_VECTOR
  }

  lemma {:induction false} OtherVectorsStayLow(m: Mode, ops: seq<Op>, v: nat)
    requires RaisesOnlyDmaVector(ops) && v != IRQ_DMA_ENDED_VECTOR
    ensures !LastEffect(m, ops, v, false)
    decreases |ops|
  {
    if ops != [] {
      OtherVectorsStayLow(m, ops[..|ops| - 1], v);
    }
  }

  /** Where only that vector is raised, no other is ever flagged. */
  lemma OthersStayLow(s: State, ops: seq<Op>)
    requires Valid(s) && (forall v :: 0 <= v < MAX_VECTORS_MSIX ==> !Flag(s, v)) && RaisesOnlyDmaVector(ops)
    ensures forall v :: 0 <= v < MAX_VECTORS_MSIX && v != IRQ_DMA_ENDED_VECTOR ==> !Flag(Run(s, ops), v)
  {
    LastOperationDecides(s, ops);
    forall v | 0 <= v < MAX_VECTORS_MSIX && v != IRQ_DMA_ENDED_VECTOR
      ensures !Flag(Run(s, ops), v)
    {
      OtherVectorsStayLow(s.mode, ops, v);
    }
  }

  lemma {:induction false} RunConcat(s: State, a: seq<Op>, b: seq<Op>)
    requires Valid(s)
    ensures Run(s, a + b) == Run(Run(s, a), b)
    decreases |b|
  {
    if b == [] {
      assert a + b == a;
    } else {
      assert (a + b)[..|a + b| - 1] == a + b[..|b| - 1];
      RunConcat(s, a, b[..|b| - 1]);
    }
  }
}
