/** The 64-bit words behind the page-table model: how an entry is laid out, what the shifts and
    masks of the code compute, and how a virtual address splits into table indices. */
module PmlWord {
  import opened PageTables

  function Bit(b: bool, mask: bv64): bv64 {
    if b then mask else 0
  }

  /** The flags argument of mapPage, built from the PageFlags constants. */
  function FlagBits(f: Flags): bv64 {
    Bit(f.write, 2) | Bit(f.user, 4) | Bit(f.writeThrough, 8) | Bit(f.noCache, 16) | Bit(f.global, 256) | Bit(f.nx, 0x8000_0000_0000_0000)
  }

  /** The one-bit fields of an entry. */
  function FieldBits(present: bool, size: bool, f: Flags): bv64 {
    Bit(present, 1) | Bit(size, 128) | FlagBits(f)
  }

  /** An entry as the PML bit-fields lay it out; frame is the 28-bit address field. */
  function Word(present: bool, size: bool, frame: bv64, f: Flags): bv64 {
    (frame << 12) | FieldBits(present, size, f)
  }

  /** `bits.address` */
  function AddressField(w: bv64): bv64 {
    (w >> 12) & 0xFFF_FFFF
  }

  function FlagsOf(w: bv64): Flags {
    Flags(w & 2 != 0, w & 4 != 0, w & 8 != 0, w & 16 != 0, w & 256 != 0, w & 0x8000_0000_0000_0000 != 0)
  }

  const ONE_BIT_FIELDS: bv64 := 0x8000_0000_0000_019F

  lemma FieldBitsRead(present: bool, size: bool, f: Flags)
    ensures var w := FieldBits(present, size, f);
      (w & 1 != 0 <==> present) && (w & 128 != 0 <==> size) && FlagsOf(w) == f && w & ONE_BIT_FIELDS == w
  {
  }

  /** The address field does not reach the one-bit fields, nor they it. */
  lemma FieldsApart(frame: bv64, bits: bv64)
    requires frame <= 0xFFF_FFFF && bits & ONE_BIT_FIELDS == bits
    ensures ((frame << 12) | bits) & ONE_BIT_FIELDS == bits
    ensures AddressField((frame << 12) | bits) == frame
  {
  }

  lemma WordParts(present: bool, size: bool, frame: bv64, f: Flags)
    requires frame <= 0xFFF_FFFF
    ensures Word(present, size, frame, f) & ONE_BIT_FIELDS == FieldBits(present, size, f)
    ensures AddressField(Word(present, size, frame, f)) == frame
  {
    hide FieldBits, AddressField;
    FieldBitsRead(present, size, f);
    FieldsApart(frame, FieldBits(present, size, f));
  }

  lemma OneBitRead(w: bv64, bits: bv64, mask: bv64)
    requires w & ONE_BIT_FIELDS == bits && mask & ONE_BIT_FIELDS == mask
    ensures w & mask == bits & mask
  {
  }

  /** Reading the fields of a word gives back what was laid out. */
  lemma WordFields(present: bool, size: bool, frame: bv64, f: Flags)
    requires frame <= 0xFFF_FFFF
    ensures var w := Word(present, size, frame, f);
      && (w & 1 != 0 <==> present) && (w & 128 != 0 <==> size)
      && AddressField(w) == frame && FlagsOf(w) == f
  {
    hide FieldBits, AddressField, Word;
    var bits, w := FieldBits(present, size, f), Word(present, size, frame, f);
    FieldBitsRead(present, size, f);
    WordParts(present, size, frame, f);
    OneBitRead(w, bits, 1);
    OneBitRead(w, bits, 128);
    OneBitRead(w, bits, 2);
    OneBitRead(w, bits, 4);
    OneBitRead(w, bits, 8);
    OneBitRead(w, bits, 16);
    OneBitRead(w, bits, 256);
    OneBitRead(w, bits, 0x8000_0000_0000_0000);
  }

  lemma ClearOffset(frame: bv64, offset: bv64)
    requires frame <= 0xFFF_FFFF && offset <= 0xFFF
    ensures ((frame << 12) | offset) & !0xFFF == frame << 12
  {
  }

  lemma TableBits(user: bool)
    ensures FieldBits(true, false, Flags(true, user, false, false, false, false)) == if user then 7 else 3
  {
  }

  /** The two words that mapPage stores: `address | 7` (or 3) for a table ... */
  lemma TableWord(frame: bv64, user: bool)
    ensures (frame << 12) | (if user then 7 else 3) == Word(true, false, frame, Flags(true, user, false, false, false, false))
  {
    hide FieldBits;
    TableBits(user);
  }

  lemma OrShuffle(x: bv64, y: bv64)
    ensures (x | y) | 1 == x | (1 | 0 | y)
  {
  }

  lemma PageWordParts(x: bv64, f: Flags)
    ensures (x | FlagBits(f)) | 1 == x | FieldBits(true, false, f)
  {
    hide FlagBits;
    OrShuffle(x, FlagBits(f));
  }

  /** ... and `physicalAddress | flags | 1` for a page, its low 12 address bits cleared first. */
  lemma PageWord(frame: bv64, offset: bv64, f: Flags)
    requires frame <= 0xFFF_FFFF && offset <= 0xFFF
    ensures (((frame << 12) | offset) & !0xFFF) | FlagBits(f) | 1 == Word(true, false, frame, f)
  {
    hide FlagBits, FieldBits;
    ClearOffset(frame, offset);
    PageWordParts(frame << 12, f);
  }

  lemma ClearLowBit(x: bv64, y: bv64, z: bv64)
    requires y & !1 == z
    ensures ((x << 12) | y) & !1 == (x << 12) | z
  {
  }

  lemma FieldBitsClear(size: bool, f: Flags)
    ensures FieldBits(true, size, f) & !1 == FieldBits(false, size, f)
  {
  }

  /** unmapPage clears the present bit and nothing else. */
  lemma ClearPresent(size: bool, frame: bv64, f: Flags)
    ensures Word(true, size, frame, f) & !1 == Word(false, size, frame, f)
  {
    hide FieldBits;
    FieldBitsClear(size, f);
    ClearLowBit(frame, FieldBits(true, size, f), FieldBits(false, size, f));
  }

  /** `UNSHIFT(entry->bits.address)`: a 28-bit bit-field promotes to int, so the shift is done in
      32 bits and the result is sign-extended to 64. */
  function Unshift(field: bv64): bv64 {
    var low := (field << 12) & 0xFFFF_FFFF;
    if low & 0x8000_0000 != 0 then low | 0xFFFF_FFFF_0000_0000 else low
  }

  /** It is the frame's address exactly for frames below 2^19. */
  lemma UnshiftExact(field: bv64)
    requires field <= 0xFFF_FFFF
    ensures Unshift(field) == field << 12 <==> field < 0x8_0000
  {
  }

  // ----- addresses -----

  function Canonical(a: bv64): bv64 {
    if a & 0x8000_0000_0000 != 0 then a | 0xFFFF_0000_0000_0000 else a & 0xFFFF_FFFF_FFFF
  }

  function Pack(i4: bv64, i3: bv64, i2: bv64, i1: bv64): bv64 {
    (i1 | ((i2 | ((i3 | (i4 << 9)) << 9)) << 9)) << 12
  }

  /** Packing four indices, as findFreePages does, is undone by the walk's extraction. */
  lemma PackExtracts(i4: bv64, i3: bv64, i2: bv64, i1: bv64)
    requires i4 < 512 && i3 < 512 && i2 < 512 && i1 < 512
    ensures var a := Canonical(Pack(i4, i3, i2, i1));
      && (a >> 39) & 0x1FF == i4 && (a >> 30) & 0x1FF == i3 && (a >> 21) & 0x1FF == i2 && (a >> 12) & 0x1FF == i1
      && a & 0xFFF == 0
  {
  }

  lemma PackKeepsBits(a: bv64)
    ensures Pack((a >> 39) & 0x1FF, (a >> 30) & 0x1FF, (a >> 21) & 0x1FF, (a >> 12) & 0x1FF) == a & 0xFFFF_FFFF_F000
  {
  }

  lemma CanonicalBits(a: bv64)
    requires a & 0xFFF == 0 && Canonical(a) == a
    ensures Canonical(a & 0xFFFF_FFFF_F000) == a
  {
    if a & 0x8000_0000_0000 != 0 {
      HighBits(a);
    } else {
      LowBits(a);
    }
  }

  lemma HighBits(a: bv64)
    requires a & 0xFFF == 0 && a & 0x8000_0000_0000 != 0 && a | 0xFFFF_0000_0000_0000 == a
    ensures a & 0xFFFF_FFFF_F000 & 0x8000_0000_0000 != 0 && (a & 0xFFFF_FFFF_F000) | 0xFFFF_0000_0000_0000 == a
  {
  }

  lemma LowBits(a: bv64)
    requires a & 0xFFF == 0 && a & 0x8000_0000_0000 == 0 && a & 0xFFFF_FFFF_FFFF == a
    ensures a & 0xFFFF_FFFF_F000 & 0x8000_0000_0000 == 0 && a & 0xFFFF_FFFF_F000 & 0xFFFF_FFFF_FFFF == a
  {
  }

  /** And extraction is undone by packing, on page-aligned canonical addresses. */
  lemma ExtractPacks(a: bv64)
    requires a & 0xFFF == 0 && Canonical(a) == a
    ensures Canonical(Pack((a >> 39) & 0x1FF, (a >> 30) & 0x1FF, (a >> 21) & 0x1FF, (a >> 12) & 0x1FF)) == a
  {
    hide Canonical, Pack;
    PackKeepsBits(a);
    CanonicalBits(a);
  }
}
