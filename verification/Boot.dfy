/** The kernel's page tables at boot: the window over physical memory in pages of 1 GiB, and the image of
    the kernel in pages of 2 MiB. */
module Boot {
  import opened Common
  import opened Physical
  import opened PageTables

  /** The frames of the four tables. */
  datatype Frames = Frames(root: nat, window: nat, image: nat, directory: nat) {
    ghost predicate Apart(n: nat) {
      && root < n && window < n && image < n && directory < n
      && root != window && root != image && root != directory && window != image && window != directory && image != directory
    }

    ghost function All(): set<nat> {
      {root, window, image, directory}
    }
  }

  const WINDOW_SLOT: nat := 256
  const IMAGE_SLOT: nat := 511
  const IMAGE_INDEX: nat := 510

  /** The value of a word holding `address | 131`. */
  function LargePage(frame: nat): Pml {
    Pml(true, true, frame, Flags(true, false, false, false, false, false))
  }

  function BootEntry(b: Frames, f: nat, i: nat): Pml {
    if f == b.root then
      if i == WINDOW_SLOT then Link(b.window, false) else if i == IMAGE_SLOT then Link(b.image, false) else ABSENT
    else if f == b.image then
      if i == IMAGE_INDEX then Link(b.directory, false) else ABSENT
    else if f == b.window then LargePage(i * 0x4_0000)
    else LargePage(i * 512)
  }

  function BootMemory(n: nat, b: Frames): Memory {
    seq(n, f => if f == b.root || f == b.window || f == b.image || f == b.directory
                then Table(seq(ENTRIES, (i: nat) => BootEntry(b, f, i))) else Bytes([]))
  }

  ghost function BootTree(b: Frames): Tree {
    map[b.root := Node(4, Some(b.root), Root), b.window := Node(3, None, Shared(WINDOW_SLOT)),
        b.image := Node(3, None, Shared(IMAGE_SLOT)), b.directory := Node(2, None, Under(b.image, IMAGE_INDEX))]
  }

  lemma BootEntries(n: nat, b: Frames, f: nat, i: nat)
    requires b.Apart(n) && f in b.All() && i < ENTRIES
    ensures IsTable(BootMemory(n, b), f) && EntryAt(BootMemory(n, b), f, i) == BootEntry(b, f, i)
  {
  }

  lemma BootWellFormed(n: nat, b: Frames)
    requires b.Apart(n)
    ensures WellFormed(BootMemory(n, b), BootTree(b))
  {
    hide BootMemory;
    var mem, tree := BootMemory(n, b), BootTree(b);
    forall f | f in tree ensures NodeOk(mem, tree, f) && LinksOk(mem, tree, f) {
      forall i: nat | i < ENTRIES ensures LinkOk(mem, tree, f, i) {
        BootEntries(n, b, f, i);
      }
      BootEntries(n, b, f, 0);
      BootEntries(n, b, b.image, IMAGE_INDEX);
    }
  }

  /** The window begins at address 0xFFFF800000000000 and has 512 GiB, the image at 0xFFFFFFFF80000000 and has 1 GiB. */
  predicate InWindow(page: nat) {
    0xFFFF_8000_0000_0000 / 4096 % PAGES <= page < 0xFFFF_8000_0000_0000 / 4096 % PAGES + 0x80_0000_0000 / 4096
  }

  predicate InImage(page: nat) {
    0xFFFF_FFFF_8000_0000 / 4096 % PAGES <= page < 0xFFFF_FFFF_8000_0000 / 4096 % PAGES + 0x4000_0000 / 4096
  }

  lemma FirstPages()
    ensures 0xFFFF_8000_0000_0000 / 4096 % PAGES == 0x8_0000_0000 && 0x80_0000_0000 / 4096 == 0x800_0000
    ensures 0xFFFF_FFFF_8000_0000 / 4096 % PAGES == 0xF_FFF8_0000 && 0x4000_0000 / 4096 == 0x4_0000
  {
  }

  lemma TopIndex(page: nat, i: nat)
    requires page < PAGES && i < 512
    ensures Index(page, 4) == i <==> i * 0x800_0000 <= page < (i + 1) * 0x800_0000
  {
    assert page / 0x800_0000 < 512;
  }

  lemma NextIndex(page: nat, i: nat)
    requires 511 * 0x800_0000 <= page < PAGES && i < 512
    ensures Index(page, 3) == i <==> 511 * 0x800_0000 + i * 0x4_0000 <= page < 511 * 0x800_0000 + (i + 1) * 0x4_0000
  {
    var x: nat := page - 511 * 0x800_0000;
    assert page / 0x4_0000 == 511 * 512 + x / 0x4_0000 && x / 0x4_0000 < 512;
  }

  lemma WindowIndices(page: nat)
    requires page < PAGES
    ensures InWindow(page) <==> Index(page, 4) == WINDOW_SLOT
    ensures InImage(page) <==> Index(page, 4) == IMAGE_SLOT && Index(page, 3) == IMAGE_INDEX
  {
    hide Index;
    FirstPages();
    TopIndex(page, WINDOW_SLOT);
    TopIndex(page, IMAGE_SLOT);
    if page >= 511 * 0x800_0000 { NextIndex(page, IMAGE_INDEX); }
  }

  /** Nothing is mapped by 4 KiB pages, and large pages lie in the window and in the image only. */
  lemma BootPages(n: nat, b: Frames, page: nat)
    requires b.Apart(n) && page < PAGES
    ensures Translate(BootMemory(n, b), b.root, page).None?
    ensures Clear(BootMemory(n, b), b.root, 4, page) <==> !InWindow(page) && !InImage(page)
  {
    hide BootMemory, Index, Walk, Clear, InWindow, InImage;
    WindowIndices(page);
    BootWalks(n, b, page);
  }

  /** The large page that a page of the window lies in maps the physical address as far into memory as the page is into
      the window; so does the image's. */
  lemma BootMaps(n: nat, b: Frames, page: nat)
    requires b.Apart(n) && page < PAGES
    ensures InWindow(page) ==>
      var e := EntryAt(BootMemory(n, b), b.window, Index(page, 3));
      e.present && e.size && e.address == (page - 0xFFFF_8000_0000_0000 / 4096 % PAGES) / 0x4_0000 * 0x4_0000
    ensures InImage(page) ==>
      var e := EntryAt(BootMemory(n, b), b.directory, Index(page, 2));
      e.present && e.size && e.address == (page - 0xFFFF_FFFF_8000_0000 / 4096 % PAGES) / 512 * 512
  {
    hide BootMemory, Index, BootEntry;
    FirstPages();
    if InWindow(page) { WindowEntry(n, b, page - 0x8_0000_0000); }
    if InImage(page) { ImageEntry(n, b, page - 0xF_FFF8_0000); }
  }

  lemma WindowEntry(n: nat, b: Frames, x: nat)
    requires b.Apart(n) && x < 0x800_0000
    ensures EntryAt(BootMemory(n, b), b.window, Index(0x8_0000_0000 + x, 3)) == LargePage(x / 0x4_0000 * 0x4_0000)
  {
    hide BootMemory, Index;
    InsideWindow(x);
    BootEntries(n, b, b.window, x / 0x4_0000);
  }

  lemma ImageEntry(n: nat, b: Frames, x: nat)
    requires b.Apart(n) && x < 0x4_0000
    ensures EntryAt(BootMemory(n, b), b.directory, Index(0xF_FFF8_0000 + x, 2)) == LargePage(x / 512 * 512)
  {
    hide BootMemory, Index;
    InsideImage(x);
    BootEntries(n, b, b.directory, x / 512);
  }

  lemma InsideWindow(x: nat)
    requires x < 0x800_0000
    ensures Index(0x8_0000_0000 + x, 3) == x / 0x4_0000
  {
    assert (0x8_0000_0000 + x) / 0x4_0000 == 0x2_0000 + x / 0x4_0000;
  }

  lemma InsideImage(x: nat)
    requires x < 0x4_0000
    ensures Index(0xF_FFF8_0000 + x, 2) == x / 512
  {
    assert (0xF_FFF8_0000 + x) / 512 == 0x7FF_FC00 + x / 512;
  }

  lemma BootWalks(n: nat, b: Frames, page: nat)
    requires b.Apart(n)
    ensures Translate(BootMemory(n, b), b.root, page).None?
    ensures Clear(BootMemory(n, b), b.root, 4, page) <==>
      Index(page, 4) != WINDOW_SLOT && !(Index(page, 4) == IMAGE_SLOT && Index(page, 3) == IMAGE_INDEX)
  {
    hide BootMemory, Index;
    BootEntries(n, b, b.root, Index(page, 4));
    BootEntries(n, b, b.window, Index(page, 3));
    BootEntries(n, b, b.image, Index(page, 3));
    BootEntries(n, b, b.directory, Index(page, 2));
    var mem := BootMemory(n, b);
    assert Slot(mem, b.directory, 2, page).None? && !Clear(mem, b.directory, 2, page);
    assert Slot(mem, b.image, 3, page).None? && (Clear(mem, b.image, 3, page) <==> Index(page, 3) != IMAGE_INDEX);
    assert Slot(mem, b.window, 3, page).None? && !Clear(mem, b.window, 3, page);
  }
}
