/** The DMA engine as a value: what each of its operations reads and changes. */
module EngineModel {
  import opened Bits
  import opened Bytes
  import opened Hw

  datatype Status = IDLE | EXECUTING | OFF

  /** A register of the transfer descriptor, or the command register. */
  datatype Field = Src | Dst | Len | Cmd

  datatype Descriptor = Descriptor(src: nat, dst: nat, len: nat, cmd: nat) {
    function Get(f: Field): nat {
      match f
      case Src => src
      case Dst => dst
      case Len => len
      case Cmd => cmd
    }

    function Set(f: Field, v: nat): (d: Descriptor)
      ensures d.Get(f) == v
      ensures forall g :: g != f ==> d.Get(g) == Get(g)
    {
      match f
      case Src => this.(src := v)
      case Dst => this.(dst := v)
      case Len => this.(len := v)
      case Cmd => this.(cmd := v)
    }
  }

  datatype Engine = Engine(status: Status, desc: Descriptor, mask: nat, buff: seq<byte>)

  /** A bus copy that reports an error may have left anything in a prefix of its target. */
  datatype Outcome = Good | Bad(junk: seq<byte>)

  /** What a copy of the `n` bytes `good` leaves in its target. */
  function Payload(o: Outcome, good: seq<byte>, n: nat): seq<byte> {
    match o
    case Good => good
    case Bad(junk) => junk[..Min(|junk|, n)]
  }

  /** DMA_BIT_MASK(n) */
  function BitMask(n: nat): nat {
    if n == 64 then TWO_TO_THE_64 - 1 else Pow2(n) - 1
  }

  function InitialEngine(): Engine {
    Engine(IDLE, Descriptor(0, 0, 0, 0), BitMask(DMA_ADDR_CAPABILITY), seq(DMA_AREA_SIZE, _ => 0))
  }

  predicate WellFormed(e: Engine) {
    |e.buff| == DMA_AREA_SIZE && e.mask == BitMask(DMA_ADDR_CAPABILITY)
  }

  predicate KnownCommand(d: Descriptor) {
    d.cmd == DIRECTION_TO_DEVICE || d.cmd == DIRECTION_FROM_DEVICE
  }

  /** The address inside the device: destination or source, by the direction. */
  function DeviceAddress(d: Descriptor): nat {
    if d.cmd == DIRECTION_TO_DEVICE then d.dst else d.src
  }

  /** The bus address before masking. */
  function BusAddress(d: Descriptor): nat {
    if d.cmd == DIRECTION_TO_DEVICE then d.src else d.dst
  }

  /** The only test made on the device address: its start, and both ends included. */
  predicate InsideDeviceBoundaries(a: nat) {
    DMA_AREA_START <= a <= DMA_AREA_START + DMA_AREA_SIZE
  }

  /** A doorbell performs a transfer, and raises its interrupt, exactly when this holds. */
  predicate Accepts(d: Descriptor) {
    KnownCommand(d) && InsideDeviceBoundaries(DeviceAddress(d))
  }

  function BuffOffset(d: Descriptor): nat
    requires Accepts(d)
  {
    DeviceAddress(d) - DMA_AREA_START
  }

  /** The transfer stays in the buffer. The device does not check this. */
  predicate Fits(d: Descriptor)
    requires Accepts(d)
  {
    BuffOffset(d) + d.len <= DMA_AREA_SIZE
  }

  function Masked(e: Engine, a: nat): nat {
    And(a, e.mask)
  }

  /** The 32-bit mask of the device and the 32-bit conversion of the driver agree on every
      address, and change no address that a 32-bit DMA mapping can have. */
  lemma MaskIsLow32(e: Engine, a: nat)
    requires WellFormed(e)
    ensures Masked(e, a) == Low32(a)
    ensures Masked(e, Low32(a)) == Low32(a)
    ensures a < TWO_TO_THE_32 ==> Masked(e, a) == a
  {
    MaskedIs(e, a);
    MaskedIs(e, Low32(a));
    Low32OfLow(a);
  }

  lemma MaskedIs(e: Engine, a: nat)
    requires WellFormed(e)
    ensures Masked(e, a) == Low32(a)
  {
    MaskValue(e);
    LowMaskIsLow32(a);
  }

  lemma MaskValue(e: Engine)
    requires WellFormed(e)
    ensures e.mask == TWO_TO_THE_32 - 1
  {
    Pow2Landmarks();
  }
}
