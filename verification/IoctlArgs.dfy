/** The part of a user page that an ioctl transfers: offset and length arithmetic. */
module IoctlArgs {
  import opened Bits
  import opened Bytes
  import opened Hw

  predicate IsPageShift(shift: nat) {
    2 <= shift < 64
  }

  function PageSize(shift: nat): nat {
    Pow2(shift)
  }

  lemma PageSizeBounds(shift: nat)
    requires IsPageShift(shift)
    ensures SIZEOF_INT <= PageSize(shift) <= TWO_TO_THE_64 / 2
  {
    Pow2Landmarks();
    Pow2Monotone(2, shift);
    Pow2Monotone(shift, 63);
    assert Pow2(64) == 2 * Pow2(63);
  }

  /** PAGE_MASK: all bits but the low `shift` ones. */
  function PageMask(shift: nat): (r: nat)
    requires IsPageShift(shift)
    ensures r < TWO_TO_THE_64
  {
    PageSizeBounds(shift);
    Not64(PageSize(shift) - 1)
  }

  /** `vaddr & ~PAGE_MASK` */
  function Offset(vaddr: nat, shift: nat): nat
    requires IsPageShift(shift)
  {
    And(vaddr, Not64(PageMask(shift)))
  }

  /** An int, cut at the end of the page. */
  function Length(vaddr: nat, shift: nat): int
    requires IsPageShift(shift)
  {
    var ofs := Offset(vaddr, shift);
    if ofs + SIZEOF_INT > PageSize(shift) then PageSize(shift) - ofs else SIZEOF_INT
  }

  /** For every address and page size the transfer is the part of the int at that address that lies
      in its first page: non-empty, ending at the end of the int or of the page, and a whole int
      exactly when the int does not straddle pages. */
  lemma WindowInsidePage(vaddr: nat, shift: nat)
    requires IsPageShift(shift)
    ensures Offset(vaddr, shift) == vaddr % PageSize(shift)
    ensures PageSize(shift) >= SIZEOF_INT
    ensures Length(vaddr, shift) == Min(SIZEOF_INT, PageSize(shift) - vaddr % PageSize(shift))
    ensures 1 <= Length(vaddr, shift) <= SIZEOF_INT
    ensures Offset(vaddr, shift) + Length(vaddr, shift) <= PageSize(shift)
    ensures Length(vaddr, shift) == SIZEOF_INT <==>
            vaddr / PageSize(shift) == (vaddr + SIZEOF_INT - 1) / PageSize(shift)
  {
    PageSizeBounds(shift);
    AndLowMask(vaddr, shift);
    StraddleIff(vaddr, PageSize(shift));
  }

  /** The last byte of an int lies in the page of its first byte exactly when it fits there. */
  lemma StraddleIff(vaddr: nat, p: nat)
    requires SIZEOF_INT <= p
    ensures vaddr % p + SIZEOF_INT <= p <==> vaddr / p == (vaddr + SIZEOF_INT - 1) / p
  {
    var q, r := vaddr / p, vaddr % p;
    assert vaddr == q * p + r;
    if r + SIZEOF_INT <= p {
      DivisionIsUnique(vaddr + SIZEOF_INT - 1, q, p, r + SIZEOF_INT - 1);
    } else {
      assert (q + 1) * p == q * p + p;
      DivisionIsUnique(vaddr + SIZEOF_INT - 1, q + 1, p, r + SIZEOF_INT - 1 - p);
    }
  }

  /** Naturally aligned ints are always transferred whole. */
  lemma AlignedIntIsWhole(vaddr: nat, shift: nat)
    requires IsPageShift(shift) && vaddr % SIZEOF_INT == 0
    ensures Length(vaddr, shift) == SIZEOF_INT
  {
    WindowInsidePage(vaddr, shift);
    Pow2Landmarks();
    Pow2Sum(2, shift - 2);
    AlignedRemainder(vaddr, Pow2(shift - 2));
  }

  lemma AlignedRemainder(a: nat, k: nat)
    requires 1 <= k && a % SIZEOF_INT == 0
    ensures a % (SIZEOF_INT * k) + SIZEOF_INT <= SIZEOF_INT * k
  {
    var p := SIZEOF_INT * k;
    var q, r := a / p, a % p;
    assert a == q * p + r;
    assert q * p == SIZEOF_INT * (q * k);
    assert r == SIZEOF_INT * (a / SIZEOF_INT - q * k);
  }
}
