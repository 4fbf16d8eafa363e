/** The device as it runs: fields updated in place, copies made byte by byte. */
module AuroraDevices {
  import opened Bits
  import opened Bytes
  import opened EngineModel
  import opened Hw
  import opened IrqBlocks
  import Device

  class AuroraDevice {
    var status: Status
    var desc: Descriptor
    var mask: nat
    const buff: array<byte>
    const regs: array<nat>
    const irq: IrqBlock
    /** Memory on the bus. */
    const ram: array<byte>

    ghost predicate Valid()
      reads this, irq
    {
      && buff.Length == DMA_AREA_SIZE && regs.Length == REG_CNT && mask == BitMask(DMA_ADDR_CAPABILITY)
      && irq.Valid()
      && buff != ram && irq.bytes != buff && irq.bytes != ram
    }

    ghost function Footprint(): set<object> {
      {this, buff, regs, irq, irq.bytes, ram}
    }

    ghost function View(): (d: Device.Dev)
      reads Footprint()
    {
      Device.Dev(Engine(status, desc, mask, buff[..]), regs[..], irq.View(), ram[..])
    }

    /** aurora_backend_init. The scratch registers are not initialised. */
    constructor (irq: IrqBlock, ram: array<byte>)
      requires irq.Valid() && irq.bytes != ram
      ensures Valid() && this.irq == irq && this.ram == ram && fresh(buff) && fresh(regs)
      ensures View().eng == InitialEngine() && View().irq == irq.View() && View().mem == ram[..]
      ensures status == IDLE && desc == Descriptor(0, 0, 0, 0) && forall k :: 0 <= k < buff.Length ==> buff[k] == 0
    {
      this.irq := irq;
      this.ram := ram;
      buff := new byte[DMA_AREA_SIZE](_ => 0);
      regs := new nat[REG_CNT];
      status, desc, mask := IDLE, Descriptor(0, 0, 0, 0), BitMask(DMA_ADDR_CAPABILITY);
      new;
      assert buff[..] == seq(DMA_AREA_SIZE, _ => 0);
    }

    /** aurora_dma_reset */
    method Reset()
      requires Valid()
      modifies this`status, this`desc, buff
      ensures Valid() && View() == Device.Reset(old(View()))
      ensures status == IDLE && desc == Descriptor(0, 0, 0, 0) && forall k :: 0 <= k < buff.Length ==> buff[k] == 0
    {
      status, desc := IDLE, Descriptor(0, 0, 0, 0);
      var i := 0;
      while i < DMA_AREA_SIZE
        invariant 0 <= i <= DMA_AREA_SIZE
        invariant status == IDLE && desc == Descriptor(0, 0, 0, 0)
        invariant forall k :: 0 <= k < i ==> buff[k] == 0
      {
        buff[i] := 0;
        i := i + 1;
      }
      assert buff[..] == InitialEngine().buff;
    }

    /** The configuration registers: stored only when the engine is idle. */
    method Configure(f: Field, v: nat)
      modifies this`desc
      ensures desc == if status == IDLE then old(desc).Set(f, v) else old(desc)
    {
      if status == IDLE {
        desc := desc.Set(f, v);
      }
    }

    /** The bus copy into the device, byte by byte. */
    method CopyIn(a: nat, at: nat, n: nat)
      requires a + n <= ram.Length && at + n <= buff.Length && buff != ram
      modifies buff
      ensures buff[..] == Patch(old(buff[..]), at, ram[a..a + n])
    {
      var i := 0;
      while i < n
        invariant 0 <= i <= n
        invariant forall k :: 0 <= k < buff.Length ==>
                    buff[k] == if at <= k < at + i then ram[a + k - at] else old(buff[k])
      {
        buff[at + i] := ram[a + i];
        i := i + 1;
      }
    }

    /** The bus copy out of the device, byte by byte. */
    method CopyOut(a: nat, at: nat, n: nat)
      requires a + n <= ram.Length && at + n <= buff.Length && buff != ram
      modifies ram
      ensures ram[..] == Patch(old(ram[..]), a, buff[at..at + n])
    {
      var i := 0;
      while i < n
        invariant 0 <= i <= n
        invariant forall k :: 0 <= k < ram.Length ==> ram[k] == if a <= k < a + i then buff[at + k - a] else old(ram[k])
      {
        ram[a + i] := buff[at + i];
        i := i + 1;
      }
    }

    /** What a failing bus copy leaves in its target. */
    method Scribble(target: array<byte>, at: nat, junk: seq<byte>)
      modifies target
      ensures target[..] == Patch(old(target[..]), at, junk)
    {
      var i := 0;
      while i < |junk| && at + i < target.Length
        invariant 0 <= i <= |junk|
        invariant forall k :: 0 <= k < target.Length ==>
                    target[k] == if at <= k < at + i then junk[k - at] else old(target[k])
      {
        target[at + i] := junk[i];
        i := i + 1;
      }
    }

    /** The copy of an accepted descriptor that fits the buffer. */
    method Transfer(d: Descriptor, bus: Outcome)
      requires Valid() && Accepts(d) && Fits(d)
      modifies buff, ram
      ensures View() == Device.ApplyEvent(old(View()), Device.CopyEvent(old(View()), d, bus))
    {
      var at, a := BuffOffset(d), And(BusAddress(d), mask);
      if bus.Bad? {
        var junk := bus.junk[..Min(|bus.junk|, d.len)];
        if d.cmd == DIRECTION_TO_DEVICE {
          Scribble(buff, at, junk);
        } else {
          Scribble(ram, a, junk);
        }
      } else if a + d.len <= ram.Length {
        if d.cmd == DIRECTION_TO_DEVICE {
          CopyIn(a, at, d.len);
        } else {
          CopyOut(a, at, d.len);
        }
      } else {
        assert Patch(buff[..], at, []) == buff[..] && Patch(ram[..], a, []) == ram[..];
      }
    }

    /** aurora_dma_execute. The bus may call back into the device before it is done. */
    method Execute(access: Device.Access)
      requires Valid() && status == EXECUTING && !Device.Execute(View(), access).overrun
      modifies Footprint()
      ensures Valid() && View() == Device.Execute(old(View()), access).dev
      decreases access, 0
    {
      if !Accepts(desc) {
        return;
      }
      ghost var d0 := View();
      var d := desc;
      Device.WritesDuringExecution(d0, access.nested);
      WriteRegs(access.nested);
      Transfer(d, access.bus);
      irq.Raise(IRQ_DMA_ENDED_VECTOR);
    }

    /** aurora_dma_doorbell_ring */
    method RingDoorbell(access: Device.Access)
      requires Valid() && status != OFF && access.addr == DMA_DOORBELL_RING && !Device.Write(View(), access).overrun
      modifies Footprint()
      ensures Valid() && View() == Device.Write(old(View()), access).dev
      decreases access, 1
    {
      if status == EXECUTING {
        return;
      }
      status := EXECUTING;
      Execute(access);
      status := IDLE;
    }

    /** aurora_dma_reg_write */
    method WriteDmaReg(access: Device.Access)
      requires Valid() && status != OFF && DMA_CFG_TXDESC_SRC <= access.addr <= DMA_DOORBELL_RING
      requires !Device.Write(View(), access).overrun
      modifies Footprint()
      ensures Valid() && View() == Device.Write(old(View()), access).dev
      decreases access, 2
    {
      if access.addr == DMA_CFG_TXDESC_SRC {
        Configure(Src, access.value);
      } else if access.addr == DMA_CFG_TXDESC_DST {
        Configure(Dst, access.value);
      } else if access.addr == DMA_CFG_TXDESC_LEN {
        Configure(Len, access.value);
      } else if access.addr == DMA_CFG_CMD {
        Configure(Cmd, access.value);
      } else if access.addr == DMA_DOORBELL_RING {
        RingDoorbell(access);
      }
    }

    /** aurora_write_reg_by_addr */
    method WriteReg(access: Device.Access) returns (rc: int)
      requires Valid() && status != OFF && !Device.Write(View(), access).overrun
      modifies Footprint()
      ensures Valid() && View() == Device.Write(old(View()), access).dev
      ensures rc == if access.addr <= 0x800_0000 then 0 else -1
      decreases access, 3
    {
      if !Device.RegbarValid(access.addr) {
        return -1;
      }
      if access.addr == REG_0 {
        regs[0] := access.value;
      } else if access.addr == REG_1 {
        regs[1] := access.value;
      } else if access.addr == REG_2 {
        regs[2] := access.value;
      } else if access.addr == REG_3 {
        regs[3] := access.value;
      } else if access.addr == IRQ_0_RAISE {
        irq.Raise(0);
      } else if access.addr == IRQ_0_LOWER {
        irq.Lower(0);
      } else if DMA_CFG_TXDESC_SRC <= access.addr <= DMA_DOORBELL_RING {
        WriteDmaReg(access);
      }
      return 0;
    }

    /** Register writes that arrive while the engine executes. */
    method WriteRegs(accesses: seq<Device.Access>)
      requires Valid() && status == EXECUTING
      modifies Footprint()
      ensures Valid() && View() == Device.WriteAll(old(View()), accesses).dev
      decreases accesses, 4
    {
      if accesses != [] {
        Device.WriteDuringExecution(View(), accesses[0]);
        var _ := WriteReg(accesses[0]);
        WriteRegs(accesses[1..]);
      }
    }

    /** aurora_read_reg_by_addr: a register without a value leaves the result as it was. */
    method ReadReg(addr: nat, before: nat) returns (rc: int, value: nat)
      requires Valid()
      ensures rc == if addr <= 0x800_0000 then 0 else -1
      ensures value == if addr > 0x800_0000 then 0xdeadbeef
                       else if addr % 8 == 0 && addr <= 0x18 then View().regs[addr / 8]
                       else before
    {
      if !Device.RegbarValid(addr) {
        return -1, 0xdeadbeef;
      }
      value := before;
      if addr == REG_0 {
        value := regs[0];
      } else if addr == REG_1 {
        value := regs[1];
      } else if addr == REG_2 {
        value := regs[2];
      } else if addr == REG_3 {
        value := regs[3];
      }
      return 0, value;
    }
  }
}
