/** Virtual addresses as 64-bit words, and the page numbers that the page-table model uses for them. */
module Addresses {
  import opened PageTables
  import opened PmlWord
  import opened AddressSpace

  // ----- the number a word stands for -----

  function Half(w: bv64): bv64 {
    w >> 1
  }

  function LowBit(w: bv64): nat {
    if w & 1 == 1 then 1 else 0
  }

  /** The value of a word, bit by bit. */
  function Value(w: bv64): nat
    decreases w
  {
    if w == 0 then 0 else HalfLess(w); 2 * Value(Half(w)) + LowBit(w)
  }

  lemma HalfLess(w: bv64)
    requires w != 0
    ensures Half(w) < w
  {
  }

  lemma Halve(w: bv64)
    ensures Value(w) == 2 * Value(Half(w)) + LowBit(w) && LowBit(w) <= 1
  {
    if w == 0 {
      assert Half(w) == 0;
    }
  }

  lemma ValueZero()
    ensures Value(0) == 0
  {
  }

  // Shifts and masks by three and by nine bits, named so that only the lemmas below look inside.

  function Shift3(w: bv64): bv64 {
    w >> 3
  }

  function Mask3(w: bv64): bv64 {
    w & 7
  }

  function Shift9(w: bv64): bv64 {
    w >> 9
  }

  function Mask9(w: bv64): bv64 {
    w & 0x1FF
  }

  lemma ThreeHalves(w: bv64)
    ensures Half(Half(Half(w))) == Shift3(w) && Half(Half(Half(Mask3(w)))) == 0
  {
  }

  lemma ThreeLows(w: bv64)
    ensures LowBit(Mask3(w)) == LowBit(w) && LowBit(Half(Mask3(w))) == LowBit(Half(w)) && LowBit(Half(Half(Mask3(w)))) == LowBit(Half(Half(w)))
  {
  }

  lemma ThreeBits(w: bv64)
    ensures Value(w) == 8 * Value(Shift3(w)) + Value(Mask3(w)) && Value(Mask3(w)) < 8
  {
    ThreeHalves(w);
    ThreeLows(w);
    ValueZero();
    hide Half, LowBit, Shift3, Mask3, Value;
    Halve(w);
    Halve(Half(w));
    Halve(Half(Half(w)));
    Halve(Mask3(w));
    Halve(Half(Mask3(w)));
    Halve(Half(Half(Mask3(w))));
  }

  lemma NineShifts(w: bv64)
    ensures Shift3(Shift3(Shift3(w))) == Shift9(w) && Shift3(Shift3(Shift3(Mask9(w)))) == 0
    ensures Mask3(Mask9(w)) == Mask3(w) && Mask3(Shift3(Mask9(w))) == Mask3(Shift3(w)) && Mask3(Shift3(Shift3(Mask9(w)))) == Mask3(Shift3(Shift3(w)))
  {
  }

  /** The nine low bits are the remainder, the others the quotient. */
  lemma NineBits(w: bv64)
    ensures Value(w) == 512 * Value(Shift9(w)) + Value(Mask9(w)) && Value(Mask9(w)) < 512
  {
    NineShifts(w);
    ValueZero();
    hide Shift3, Mask3, Shift9, Mask9, Value;
    ThreeBits(w);
    ThreeBits(Shift3(w));
    ThreeBits(Shift3(Shift3(w)));
    ThreeBits(Mask9(w));
    ThreeBits(Shift3(Mask9(w)));
    ThreeBits(Shift3(Shift3(Mask9(w))));
  }

  // ----- pages -----

  /** Bits 12 to 47 of an address. */
  function PageBits(a: bv64): bv64 {
    (a >> 12) & 0xF_FFFF_FFFF
  }

  /** The page number of a virtual address. */
  function PageOf(a: bv64): nat {
    Value(PageBits(a))
  }

  /** The index into a level-k table that the code extracts from an address. */
  function IndexWord(a: bv64, level: nat): bv64 {
    if level <= 1 then (a >> 12) & 0x1FF
    else if level == 2 then (a >> 21) & 0x1FF
    else if level == 3 then (a >> 30) & 0x1FF
    else (a >> 39) & 0x1FF
  }

  lemma IndexBits(a: bv64)
    ensures var w := PageBits(a);
      && Mask9(w) == IndexWord(a, 1) && Mask9(Shift9(w)) == IndexWord(a, 2)
      && Mask9(Shift9(Shift9(w))) == IndexWord(a, 3) && Mask9(Shift9(Shift9(Shift9(w)))) == IndexWord(a, 4)
      && Shift9(Shift9(Shift9(Shift9(w)))) == 0
  {
  }

  lemma PageDigits(a: bv64)
    ensures PageOf(a) == PageNumber(Value(IndexWord(a, 4)), Value(IndexWord(a, 3)), Value(IndexWord(a, 2)), Value(IndexWord(a, 1)))
    ensures Value(IndexWord(a, 4)) < 512 && Value(IndexWord(a, 3)) < 512 && Value(IndexWord(a, 2)) < 512 && Value(IndexWord(a, 1)) < 512
  {
    var w := PageBits(a);
    IndexBits(a);
    ValueZero();
    hide Value, Shift9, Mask9, PageBits, IndexWord;
    NineBits(w);
    NineBits(Shift9(w));
    NineBits(Shift9(Shift9(w)));
    NineBits(Shift9(Shift9(Shift9(w))));
  }

  /** The shifts and masks of the walk compute the indices of the page number. */
  lemma WalkIndices(a: bv64)
    ensures PageOf(a) < PAGES
    ensures forall k :: 1 <= k <= 4 ==> Value(IndexWord(a, k)) == Index(PageOf(a), k)
  {
    hide Value, IndexWord, Index, PageOf, PageNumber;
    PageDigits(a);
    PageNumberIndices(Value(IndexWord(a, 4)), Value(IndexWord(a, 3)), Value(IndexWord(a, 2)), Value(IndexWord(a, 1)));
    forall k | 1 <= k <= 4 ensures Value(IndexWord(a, k)) == Index(PageOf(a), k) {
      assert k == 1 || k == 2 || k == 3 || k == 4;
    }
  }

  lemma PackedIndices(i4: bv64, i3: bv64, i2: bv64, i1: bv64)
    requires i4 < 512 && i3 < 512 && i2 < 512 && i1 < 512
    ensures var a := Canonical(Pack(i4, i3, i2, i1));
      IndexWord(a, 4) == i4 && IndexWord(a, 3) == i3 && IndexWord(a, 2) == i2 && IndexWord(a, 1) == i1 && a & 0xFFF == 0
  {
    hide Canonical, Pack;
    PackExtracts(i4, i3, i2, i1);
  }

  /** The address that findFreePages returns for the indices of a page is the canonical address of that page. */
  lemma FoundAddress(page: nat, i4: bv64, i3: bv64, i2: bv64, i1: bv64)
    requires page < PAGES && i4 < 512 && i3 < 512 && i2 < 512 && i1 < 512
    requires Value(i4) == Index(page, 4) && Value(i3) == Index(page, 3) && Value(i2) == Index(page, 2) && Value(i1) == Index(page, 1)
    ensures var a := Canonical(Pack(i4, i3, i2, i1));
      PageOf(a) == page && Canonical(a) == a && a & 0xFFF == 0
  {
    hide Canonical, Pack, Value, Index, IndexWord, PageOf;
    PackedIndices(i4, i3, i2, i1);
    CanonicalTwice(Pack(i4, i3, i2, i1));
    PageOfIndices(Canonical(Pack(i4, i3, i2, i1)), page);
  }

  lemma PageOfIndices(a: bv64, page: nat)
    requires page < PAGES
    requires Value(IndexWord(a, 4)) == Index(page, 4) && Value(IndexWord(a, 3)) == Index(page, 3)
    requires Value(IndexWord(a, 2)) == Index(page, 2) && Value(IndexWord(a, 1)) == Index(page, 1)
    ensures PageOf(a) == page
  {
    hide Value, Index, IndexWord, PageOf;
    PageDigits(a);
    PageFromIndices(page);
  }

  lemma CanonicalTwice(a: bv64)
    ensures Canonical(Canonical(a)) == Canonical(a)
  {
    if a & 0x8000_0000_0000 != 0 {
      assert (a | 0xFFFF_0000_0000_0000) & 0x8000_0000_0000 != 0;
    } else {
      assert (a & 0xFFFF_FFFF_FFFF) & 0x8000_0000_0000 == 0;
    }
  }
}
