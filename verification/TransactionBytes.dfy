/** Which bytes of user memory and of the device buffer a run changes, and to what. */
module TransactionBytes {
  import opened Bytes
  import opened EngineModel
  import opened Hw
  import opened Transaction
  import opened TransactionInv
  import opened TransactionProof
  import opened TransactionSafety

  /** The step moves byte `i` of its caller's window in direction `dir`. A copy that fails may have
      moved any bytes to the front of the window. */
  predicate Moves(s: Sys, l: Label, dir: Dir, i: int) {
    && l.CopyDone? && l.t in s.threads && s.threads[l.t].dir == dir && 0 <= i < s.threads[l.t].len
    && (l.outcome.Bad? ==> i < |l.outcome.junk|)
  }

  /** The step stores to byte `k` of page `q`. */
  predicate StoresTo(s: Sys, l: Label, q: Page, k: nat) {
    l.CopyDone? && l.t in s.threads && q == s.threads[l.t].arg && Moves(s, l, FromDevice, k - s.threads[l.t].ofs)
  }

  lemma WindowBounds(s: Sys, l: Label)
    requires Inv(s) && Enabled(s, l) && l.CopyDone?
    ensures var th := s.threads[l.t];
            && th.len <= |s.eng.buff| && th.arg in s.mem && th.ofs + th.len <= |s.mem[th.arg]|
  {
    assert CallInv(s, s.threads[l.t]);
  }

  /** The byte stored: that of the buffer as it is, unless the copy fails. */
  function StoredByte(s: Sys, l: Label, q: Page, k: nat): byte
    requires Inv(s) && Enabled(s, l) && StoresTo(s, l, q, k)
  {
    WindowBounds(s, l);
    var i := k - s.threads[l.t].ofs;
    if l.outcome.Good? then s.eng.buff[i] else l.outcome.junk[i]
  }

  /** The byte brought into the buffer: that of the caller's page as it is, unless the copy fails. */
  function BroughtByte(s: Sys, l: Label, k: nat): byte
    requires Inv(s) && Enabled(s, l) && Moves(s, l, ToDevice, k)
  {
    WindowBounds(s, l);
    var th := s.threads[l.t];
    if l.outcome.Good? then s.mem[th.arg][th.ofs + k] else l.outcome.junk[k]
  }

  /** Byte `i` of the window of `x` is moved. */
  predicate Covered(x: Xfer, dir: Dir, i: int) {
    x.dir == dir && 0 <= i < x.len && (x.outcome.Bad? ==> i < |x.outcome.junk|)
  }

  predicate WindowFits(st: Store, x: Xfer) {
    x.page in st.mem && x.ofs + x.len <= |st.mem[x.page]| && x.len <= |st.buff|
  }

  /** One transfer, at one byte of memory and at one byte of the buffer. */
  lemma XferPageByte(st: Store, x: Xfer, q: Page, k: nat)
    requires WindowFits(st, x) && q in st.mem && k < |st.mem[q]|
    ensures var r := ApplyXfer(st, x);
            && r.mem.Keys == st.mem.Keys && |r.mem[q]| == |st.mem[q]|
            && r.mem[q][k] == if q != x.page || !Covered(x, FromDevice, k - x.ofs) then st.mem[q][k]
                              else if x.outcome.Good? then st.buff[k - x.ofs] else x.outcome.junk[k - x.ofs]
  {
  }

  lemma XferBufferByte(st: Store, x: Xfer, k: nat)
    requires WindowFits(st, x) && k < |st.buff|
    ensures var r := ApplyXfer(st, x);
            && |r.buff| == |st.buff|
            && r.buff[k] == if !Covered(x, ToDevice, k) then st.buff[k]
                            else if x.outcome.Good? then st.mem[x.page][x.ofs + k] else x.outcome.junk[k]
  {
  }

  lemma CopyReplays(s: Sys, l: Label)
    requires Inv(s) && Enabled(s, l) && l.CopyDone?
    ensures var x := XferOf(l.t, s.threads[l.t], l.outcome);
            WindowFits(StoreOf(s), x) && StoreOf(Apply(s, l)) == ApplyXfer(StoreOf(s), x)
  {
    WindowBounds(s, l);
    StepReplays(s, l);
  }

  lemma CopyPageByte(s: Sys, l: Label, q: Page, k: nat)
    requires Inv(s) && Enabled(s, l) && l.CopyDone? && q in s.mem && k < |s.mem[q]|
    ensures var mem := ApplyXfer(StoreOf(s), XferOf(l.t, s.threads[l.t], l.outcome)).mem;
            && q in mem && |mem[q]| == |s.mem[q]|
            && mem[q][k] == if StoresTo(s, l, q, k) then StoredByte(s, l, q, k) else s.mem[q][k]
  {
    WindowBounds(s, l);
    XferPageByte(StoreOf(s), XferOf(l.t, s.threads[l.t], l.outcome), q, k);
  }

  lemma CopyBufferByte(s: Sys, l: Label, k: nat)
    requires Inv(s) && Enabled(s, l) && l.CopyDone? && k < |s.eng.buff|
    ensures var buff := ApplyXfer(StoreOf(s), XferOf(l.t, s.threads[l.t], l.outcome)).buff;
            && |buff| == |s.eng.buff|
            && buff[k] == if Moves(s, l, ToDevice, k) then BroughtByte(s, l, k) else s.eng.buff[k]
  {
    WindowBounds(s, l);
    XferBufferByte(StoreOf(s), XferOf(l.t, s.threads[l.t], l.outcome), k);
  }

  /** Every step changes only the bytes that it moves: of all user memory and of the buffer, every
      byte outside the window of a copy, and every byte at any other step, stays as it is. */
  lemma PageByteStep(s: Sys, l: Label, q: Page, k: nat)
    requires Inv(s) && Enabled(s, l) && q in s.mem && k < |s.mem[q]|
    ensures var s' := Apply(s, l);
            && q in s'.mem && |s'.mem[q]| == |s.mem[q]|
            && s'.mem[q][k] == if StoresTo(s, l, q, k) then StoredByte(s, l, q, k) else s.mem[q][k]
  {
    if l.CopyDone? {
      CopyReplays(s, l);
      CopyPageByte(s, l, q, k);
    } else {
      StepReplays(s, l);
    }
  }

  lemma BufferByteStep(s: Sys, l: Label, k: nat)
    requires Inv(s) && Enabled(s, l) && k < |s.eng.buff|
    ensures var s' := Apply(s, l);
            && |s'.eng.buff| == |s.eng.buff|
            && s'.eng.buff[k] == if Moves(s, l, ToDevice, k) then BroughtByte(s, l, k) else s.eng.buff[k]
  {
    if l.CopyDone? {
      CopyReplays(s, l);
      CopyBufferByte(s, l, k);
    } else {
      StepReplays(s, l);
    }
  }

  /** The byte that the last step of `ls` to store to byte `k` of page `q` put there. */
  function LastStored(s: Sys, ls: seq<Label>, q: Page, k: nat, was: byte): byte
    requires Inv(s) && Legal(s, ls)
    decreases |ls|
  {
    if ls == [] then was
    else
      StepInv(s, ls[0]);
      LastStored(Apply(s, ls[0]), ls[1..], q, k, if StoresTo(s, ls[0], q, k) then StoredByte(s, ls[0], q, k) else was)
  }

  /** The same for byte `k` of the device buffer. */
  function LastBrought(s: Sys, ls: seq<Label>, k: nat, was: byte): byte
    requires Inv(s) && Legal(s, ls)
    decreases |ls|
  {
    if ls == [] then was
    else
      StepInv(s, ls[0]);
      LastBrought(Apply(s, ls[0]), ls[1..], k, if Moves(s, ls[0], ToDevice, k) then BroughtByte(s, ls[0], k) else was)
  }

  /** Over every run each byte of every user page is the one that the last transfer to cover it
      brought from the device, or what it was. */
  lemma {:induction false} PagesByLastWriter(s: Sys, ls: seq<Label>, q: Page, k: nat)
    requires Inv(s) && Legal(s, ls) && q in s.mem && k < |s.mem[q]|
    ensures var s' := Run(s, ls);
            && q in s'.mem && |s'.mem[q]| == |s.mem[q]|
            && s'.mem[q][k] == LastStored(s, ls, q, k, s.mem[q][k])
    decreases |ls|
  {
    if ls != [] {
      StepInv(s, ls[0]);
      PageByteStep(s, ls[0], q, k);
      PagesByLastWriter(Apply(s, ls[0]), ls[1..], q, k);
    }
  }

  /** And each byte of the device buffer is the one that the last transfer to cover it brought from
      its caller's page, or what it was. */
  lemma {:induction false} BufferByLastWriter(s: Sys, ls: seq<Label>, k: nat)
    requires Inv(s) && Legal(s, ls) && k < |s.eng.buff|
    ensures var s' := Run(s, ls);
            && |s'.eng.buff| == |s.eng.buff|
            && s'.eng.buff[k] == LastBrought(s, ls, k, s.eng.buff[k])
    decreases |ls|
  {
    if ls != [] {
      StepInv(s, ls[0]);
      BufferByteStep(s, ls[0], k);
      BufferByLastWriter(Apply(s, ls[0]), ls[1..], k);
    }
  }
}
