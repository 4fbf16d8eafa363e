/** The interrupt routines as they run, over the bytes of the union. */
module IrqBlocks {
  import opened Bytes
  import opened Hw
  import Irq

  class IrqBlock {
    const bytes: array<byte>
    var mode: Irq.Mode
    var notified: seq<nat>
    var line: bool

    ghost predicate Valid()
      reads this
    {
      bytes.Length == Irq.SIZEOF_STATUS
    }

    ghost function View(): (s: Irq.State)
      reads this, bytes
    {
      Irq.State(mode, bytes[..], notified, line)
    }

    /** The device structure is allocated zeroed. */
    constructor (m: Irq.Mode)
      ensures Valid() && fresh(bytes)
      ensures View() == Irq.State(m, seq(Irq.SIZEOF_STATUS, _ => 0), [], false)
    {
      bytes := new byte[Irq.SIZEOF_STATUS](_ => 0);
      mode, notified, line := m, [], false;
      new;
      assert bytes[..] == seq(Irq.SIZEOF_STATUS, _ => 0);
    }

    method RaiseMsix(v: nat)
      requires Valid() && mode == Irq.Msix
      modifies this`notified, bytes
      ensures View() == Irq.Raise(old(View()), v)
    {
      if v >= Irq.MAX_VECTORS_MSIX {
        return;
      }
      bytes[Irq.MsixRaisedAt(v)] := 1;
      notified := notified + [v];
    }

    method RaiseMsi(v: nat)
      requires Valid() && mode == Irq.Msi
      modifies this`notified, bytes
      ensures View() == Irq.Raise(old(View()), v)
    {
      if v >= Irq.MAX_VECTORS_MSI {
        return;
      }
      bytes[Irq.MsiRaisedAt(v)] := 1;
      notified := notified + [v];
    }

    method RaiseIntx()
      requires Valid()
      modifies this`line, bytes
      ensures View() == Irq.SetPin(old(View()), 1)
    {
      bytes[Irq.PIN_RAISED_AT] := 1;
      line := true;
    }

    method LowerMsix(v: nat)
      requires Valid() && mode == Irq.Msix
      modifies bytes
      ensures View() == Irq.Lower(old(View()), v)
    {
      if v >= Irq.MAX_VECTORS_MSIX {
        return;
      }
      if bytes[Irq.MsixRaisedAt(v)] == 0 {
        return;
      }
      bytes[Irq.MsixRaisedAt(v)] := 0;
    }

    method LowerMsi(v: nat)
      requires Valid() && mode == Irq.Msi
      modifies bytes
      ensures View() == Irq.Lower(old(View()), v)
    {
      if v >= Irq.MAX_VECTORS_MSI {
        return;
      }
      if bytes[Irq.MsiRaisedAt(v)] == 0 {
        return;
      }
      bytes[Irq.MsiRaisedAt(v)] := 0;
    }

    method LowerIntx()
      requires Valid()
      modifies this`line, bytes
      ensures View() == Irq.SetPin(old(View()), 0)
    {
      bytes[Irq.PIN_RAISED_AT] := 0;
      line := false;
    }

    method Raise(v: nat)
      requires Valid()
      modifies this`notified, this`line, bytes
      ensures View() == Irq.Raise(old(View()), v)
    {
      if mode == Irq.Msix {
        RaiseMsix(v);
        return;
      }
      if mode == Irq.Msi {
        RaiseMsi(v);
        return;
      }
      RaiseIntx();
    }

    method Lower(v: nat)
      requires Valid()
      modifies this`line, bytes
      ensures View() == Irq.Lower(old(View()), v)
    {
      if mode == Irq.Msix {
        LowerMsix(v);
        return;
      }
      if mode == Irq.Msi {
        LowerMsi(v);
        return;
      }
      LowerIntx();
    }

    method Reset()
      requires Valid()
      modifies this`line, bytes
      ensures View() == Irq.Reset(old(View()))
    {
      if mode == Irq.Msix {
        var i := 0;
        while i <= IRQ_MSIX_VECTOR_END
          invariant 0 <= i <= IRQ_MSIX_VECTOR_END + 1
          invariant View() == Irq.LowerBelow(old(View()), i)
        {
          LowerMsix(i);
          i := i + 1;
        }
        return;
      }
      if mode == Irq.Msi {
        var i := 0;
        while i <= IRQ_VECTOR_END
          invariant 0 <= i <= IRQ_VECTOR_END + 1
          invariant View() == Irq.LowerBelow(old(View()), i)
        {
          LowerMsi(i);
          i := i + 1;
        }
        return;
      }
      LowerIntx();
    }
  }
}
