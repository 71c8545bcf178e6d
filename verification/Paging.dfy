/** include/paging.h and CalcPhyAddr of paging.c: entry layouts, the index macros, and the
    4-level walk with 1 GB, 2 MB and 4 KB leaves (section 4.5 of the Intel SDM, Volume 3A). */
module Paging {
  import opened Util
  import opened Memory

  const PAGE_SIZE: nat := 0x1000

  // Fields of an entry: 2 to the offset, 2 to the width.
  const PRESENT: Field := Field(0x1, 2)
  const READ_WRITE: Field := Field(0x2, 2)
  const USER: Field := Field(0x4, 2)
  const WRITE_THROUGH: Field := Field(0x8, 2)
  const CACHE_DISABLE: Field := Field(0x10, 2)
  const ACCESSED: Field := Field(0x20, 2)
  /** Dirty in leaves, _ignored1 in table entries. */
  const DIRTY: Field := Field(0x40, 2)
  /** PageSize; PAT in a 4 KB leaf. */
  const LARGE: Field := Field(0x80, 2)
  const TABLE_IGNORED2: Field := Field(0x100, 0x10)
  const GLOBAL: Field := Field(0x100, 2)
  const LEAF_IGNORED: Field := Field(0x200, 8)
  /** L3PTPhysAddr, L2PTPhysAddr, L1PTPhysAddr, and PageFramePhysAddr of a 4 KB leaf. */
  const FRAME: Field := Field(0x1000, 0x100_0000_0000)
  const LARGE_PAT: Field := Field(0x1000, 2)
  const RESERVED_1GB: Field := Field(0x2000, 0x2_0000)
  const FRAME_2MB: Field := Field(0x20_0000, 0x8000_0000)
  const FRAME_1GB: Field := Field(0x4000_0000, 0x40_0000)
  const TABLE_IGNORED3: Field := Field(0x10_0000_0000_0000, 0x800)
  const LEAF_IGNORED2: Field := Field(0x10_0000_0000_0000, 0x80)
  const PROTECTION_KEY: Field := Field(0x800_0000_0000_0000, 0x10)
  const EXECUTE_DISABLE: Field := Field(0x8000_0000_0000_0000, 2)

  function L4Index(a: Word): (i: nat)
    ensures i < 512
  {
    a / 0x80_0000_0000 % 512
  }

  function L3Index(a: Word): (i: nat)
    ensures i < 512
  {
    a / 0x4000_0000 % 512
  }

  function L2Index(a: Word): (i: nat)
    ensures i < 512
  {
    a / 0x20_0000 % 512
  }

  function L1Index(a: Word): (i: nat)
    ensures i < 512
  {
    a / 0x1000 % 512
  }

  /** The pointer the walk follows: the frame field shifted left by 12 in 40 bits, which
      leaves the field's low 28 bits. */
  function TablePointer(entry: Word): (p: nat)
    ensures p % PAGE_SIZE == 0 && p + PAGE_SIZE <= SPACE
  {
    Get(entry, FRAME) % 0x1000_0000 * 0x1000
  }

  /** What CalcPhyAddr prints and returns; it returns 0 for everything not mapped. */
  datatype Translation = NotCanonical | NotPresent(level: nat) | Mapped(address: nat)

  function EntryAt(m: seq<Byte>, table: nat, i: nat): Word
    requires |m| == SPACE && table + PAGE_SIZE <= SPACE && i < 512
  {
    Load(m, table + 8 * i)
  }

  function CalcPhyAddr(m: seq<Byte>, a: Word, cr3: nat): Translation
    requires |m| == SPACE && cr3 + PAGE_SIZE <= SPACE
  {
    if 0x7fff_ffff_ffff < a < 0xffff_8000_0000_0000 then NotCanonical
    else
      var l4 := EntryAt(m, cr3, L4Index(a));
      if Get(l4, PRESENT) != 1 then NotPresent(4)
      else
        var l3 := EntryAt(m, TablePointer(l4), L3Index(a));
        if Get(l3, PRESENT) != 1 then NotPresent(3)
        else if Get(l3, LARGE) == 1 then Mapped(Get(l3, FRAME_1GB) * 0x4000_0000 + a % 0x4000_0000)
        else
          var l2 := EntryAt(m, TablePointer(l3), L2Index(a));
          if Get(l2, PRESENT) != 1 then NotPresent(2)
          else if Get(l2, LARGE) == 1 then Mapped(Get(l2, FRAME_2MB) * 0x20_0000 + a % 0x20_0000)
          else
            var l1 := EntryAt(m, TablePointer(l2), L1Index(a));
            if Get(l1, PRESENT) != 1 then NotPresent(1)
            else Mapped(Get(l1, FRAME) * 0x1000 + a % 0x1000)
  }

  /** The entries a translation uses, from the L4 table down to the leaf (section 4.5 of the
      Intel SDM, Volume 3A). Bit 7 of an L3 or L2 entry makes it a leaf. */
  function Walk(m: seq<Byte>, a: Word, cr3: nat): (w: seq<Word>)
    requires |m| == SPACE && cr3 + PAGE_SIZE <= SPACE
    ensures 2 <= |w| <= 4
  {
    var l4 := EntryAt(m, cr3, L4Index(a));
    var l3 := EntryAt(m, TablePointer(l4), L3Index(a));
    var l2 := EntryAt(m, TablePointer(l3), L2Index(a));
    if l3 / 0x80 % 2 == 1 then [l4, l3]
    else if l2 / 0x80 % 2 == 1 then [l4, l3, l2]
    else [l4, l3, l2, EntryAt(m, TablePointer(l2), L1Index(a))]
  }

  /** A canonical address, and bit 0 of every entry used is set. */
  ghost predicate Translates(m: seq<Byte>, a: Word, cr3: nat)
    requires |m| == SPACE && cr3 + PAGE_SIZE <= SPACE
  {
    !(0x8000_0000_0000 <= a < 0xffff_8000_0000_0000) && forall e :: e in Walk(m, a, cr3) ==> e % 2 == 1
  }

  // Access rights (section 4.6 of the Intel SDM, Volume 3A): bit 2 of every entry used allows
  // user mode, bit 1 allows writing, and bit 63 of any forbids fetching instructions.

  ghost predicate UserAllowed(m: seq<Byte>, a: Word, cr3: nat)
    requires |m| == SPACE && cr3 + PAGE_SIZE <= SPACE
  {
    Translates(m, a, cr3) && forall e :: e in Walk(m, a, cr3) ==> e / 4 % 2 == 1
  }

  ghost predicate Writable(m: seq<Byte>, a: Word, cr3: nat)
    requires |m| == SPACE && cr3 + PAGE_SIZE <= SPACE
  {
    Translates(m, a, cr3) && forall e :: e in Walk(m, a, cr3) ==> e / 2 % 2 == 1
  }

  ghost predicate UserWritable(m: seq<Byte>, a: Word, cr3: nat)
    requires |m| == SPACE && cr3 + PAGE_SIZE <= SPACE
  {
    UserAllowed(m, a, cr3) && Writable(m, a, cr3)
  }

  ghost predicate Fetchable(m: seq<Byte>, a: Word, cr3: nat)
    requires |m| == SPACE && cr3 + PAGE_SIZE <= SPACE
  {
    Translates(m, a, cr3) && forall e :: e in Walk(m, a, cr3) ==> e / 0x8000_0000_0000_0000 == 0
  }

  // ---------------------------------------------------------------- the walk on any tables

  /** The four indices and the offset are the digits of the low 48 bits of an address. */
  lemma IndicesSpell(a: Word)
    ensures a % 0x1_0000_0000_0000 ==
            L4Index(a) * 0x80_0000_0000 + L3Index(a) * 0x4000_0000 + L2Index(a) * 0x20_0000 +
            L1Index(a) * 0x1000 + a % 0x1000
  {
    Digit(a, 0x1000, 512, 0x20_0000);
    Digit(a, 0x20_0000, 512, 0x4000_0000);
    Digit(a, 0x4000_0000, 512, 0x80_0000_0000);
    Digit(a, 0x80_0000_0000, 512, 0x1_0000_0000_0000);
  }

  /** Where the fields the walk reads lie in an entry. */
  lemma FieldsLie(w: Word)
    ensures Get(w, PRESENT) == w % 2 && Get(w, READ_WRITE) == w / 2 % 2 && Get(w, USER) == w / 4 % 2
    ensures Get(w, LARGE) == w / 0x80 % 2 && Get(w, EXECUTE_DISABLE) == w / 0x8000_0000_0000_0000
    ensures Get(w, FRAME) == w / 0x1000 % 0x100_0000_0000
    ensures Get(w, FRAME_2MB) == w / 0x20_0000 % 0x8000_0000 && Get(w, FRAME_1GB) == w / 0x4000_0000 % 0x40_0000
  {
    assert w / 0x8000_0000_0000_0000 < 2;
  }

  /** The pointer the walk follows is the low 40 bits of the entry without its low 12. */
  lemma PointerLies(w: Word)
    ensures TablePointer(w) == w % 0x100_0000_0000 - w % 0x1000
  {
    var x := w / 0x1000;
    Digit(w, 0x1000, 0x1000_0000, 0x100_0000_0000);
    AddMultiple(x % 0x100_0000_0000, 0x1000 * (x / 0x100_0000_0000), 0x1000_0000);
    assert x == x % 0x100_0000_0000 + 0x1000_0000 * (0x1000 * (x / 0x100_0000_0000));
  }

  /** Every answer of CalcPhyAddr, read off the entries used: the level at which the first
      entry is not present, or the leaf's frame with the address's offset in it. */
  lemma WalkMeaning(m: seq<Byte>, a: Word, cr3: nat)
    requires |m| == SPACE && cr3 + PAGE_SIZE <= SPACE
    ensures var w, t := Walk(m, a, cr3), CalcPhyAddr(m, a, cr3);
            && (t == NotCanonical <==> 0x8000_0000_0000 <= a < 0xffff_8000_0000_0000)
            && (t.NotPresent? ==>
                  && 1 <= t.level <= 4 && 4 - t.level < |w| && w[4 - t.level] % 2 == 0
                  && forall i: nat :: i < 4 - t.level ==> w[i] % 2 == 1)
            && (t.Mapped? ==>
                  && (forall i: nat :: i < |w| ==> w[i] % 2 == 1)
                  && var size := if |w| == 2 then 0x4000_0000 else if |w| == 3 then 0x20_0000 else 0x1000;
                     t.address == w[|w| - 1] % 0x10_0000_0000_0000 / size * size + a % size)
  {
    var w := Walk(m, a, cr3);
    forall i: nat | i < |w| ensures Get(w[i], PRESENT) == w[i] % 2 && Get(w[i], LARGE) == w[i] / 0x80 % 2 {
      FieldsLie(w[i]);
    }
    LeafFrame(w[|w| - 1]);
  }

  lemma TranslatesMeans(m: seq<Byte>, a: Word, cr3: nat)
    requires |m| == SPACE && cr3 + PAGE_SIZE <= SPACE
    ensures Translates(m, a, cr3) <==> CalcPhyAddr(m, a, cr3).Mapped?
  {
    WalkMeaning(m, a, cr3);
    var w, t := Walk(m, a, cr3), CalcPhyAddr(m, a, cr3);
    if t.NotPresent? {
      assert w[4 - t.level] in w;
    }
  }

  lemma LeafFrame(w: Word)
    ensures Get(w, FRAME) * 0x1000 == w % 0x10_0000_0000_0000 / 0x1000 * 0x1000
    ensures Get(w, FRAME_2MB) * 0x20_0000 == w % 0x10_0000_0000_0000 / 0x20_0000 * 0x20_0000
    ensures Get(w, FRAME_1GB) * 0x4000_0000 == w % 0x10_0000_0000_0000 / 0x4000_0000 * 0x4000_0000
  {
    Digit(w, 0x1000, 0x100_0000_0000, 0x10_0000_0000_0000);
    Digit(w, 0x20_0000, 0x8000_0000, 0x10_0000_0000_0000);
    Digit(w, 0x4000_0000, 0x40_0000, 0x10_0000_0000_0000);
  }

  // ---------------------------------------------------------------- entries

  /** Writable, and user or supervisor, with no bar on fetching. */
  predicate Rights(w: Word, user: bool) {
    w / 2 % 2 == 1 && (w / 4 % 2 == 1 <==> user) && w / 0x8000_0000_0000_0000 == 0
  }

  /** A present, writable table entry or 4 KB leaf for page frame number n. */
  function PageEntry(user: bool, n: nat): (w: Word)
    requires n < 0x100_0000_0000
  {
    3 + (if user then 4 else 0) + 0x1000 * n
  }

  /** A present, writable supervisor leaf for gigabyte n. */
  function GigabyteEntry(n: nat): (w: Word)
    requires n < 0x40_0000
  {
    0x83 + 0x4000_0000 * n
  }

  lemma PageEntryFields(user: bool, n: nat)
    requires n < 0x100_0000_0000
    ensures var w := PageEntry(user, n);
            && Get(w, PRESENT) == 1 && Get(w, LARGE) == 0 && Get(w, FRAME) == n
            && Rights(w, user) && w / 0x80 % 2 == 0
  {
    var w, u := PageEntry(user, n), if user then 1 else 0;
    FieldIs(w, PRESENT, 1 + 2 * u + 0x800 * n, 1, 0);
    FieldIs(w, READ_WRITE, u + 0x400 * n, 1, 1);
    FieldIs(w, USER, 0x200 * n, u, 3);
    FieldIs(w, LARGE, 0x10 * n, 0, 3 + 4 * u);
    FieldIs(w, FRAME, 0, n, 3 + 4 * u);
    FieldsLie(w);
  }

  lemma GigabyteEntryFields(n: nat)
    requires n < 0x40_0000
    ensures var w := GigabyteEntry(n);
            && Get(w, PRESENT) == 1 && Get(w, LARGE) == 1 && Get(w, FRAME_1GB) == n
            && Rights(w, false) && w / 0x80 % 2 == 1
  {
    var w := GigabyteEntry(n);
    FieldIs(w, PRESENT, 0x41 + 0x2000_0000 * n, 1, 0);
    FieldIs(w, READ_WRITE, 0x20 + 0x1000_0000 * n, 1, 1);
    FieldIs(w, USER, 0x10 + 0x800_0000 * n, 0, 3);
    FieldIs(w, LARGE, 0x40_0000 * n, 1, 3);
    FieldIs(w, FRAME_1GB, 0, n, 0x83);
    FieldsLie(w);
  }

  /** A table pointer survives the round through an entry exactly when the table lies below 2^40. */
  lemma PointerRoundTrip(user: bool, table: nat)
    requires table % PAGE_SIZE == 0 && table < 0x10_0000_0000_0000
    ensures TablePointer(PageEntry(user, table / 0x1000)) == table <==> table < SPACE
  {
  }

  /** A present, writable 2 MB leaf for 2 MB frame number n. */
  function LargeEntry(user: bool, n: nat): (w: Word)
    requires n < 0x8000_0000
  {
    0x83 + (if user then 4 else 0) + 0x20_0000 * n
  }

  lemma LargeEntryFields(user: bool, n: nat)
    requires n < 0x8000_0000
    ensures var w := LargeEntry(user, n);
            && Get(w, PRESENT) == 1 && Get(w, LARGE) == 1 && Get(w, FRAME_2MB) == n
            && Rights(w, user) && w / 0x80 % 2 == 1
  {
    var w, u := LargeEntry(user, n), if user then 1 else 0;
    FieldIs(w, PRESENT, 0x41 + 2 * u + 0x10_0000 * n, 1, 0);
    FieldIs(w, READ_WRITE, 0x20 + u + 0x8_0000 * n, 1, 1);
    FieldIs(w, USER, 0x10 + 0x4_0000 * n, u, 3);
    FieldIs(w, LARGE, 0x2000 * n, 1, 3 + 4 * u);
    FieldIs(w, FRAME_2MB, 0, n, 0x83 + 4 * u);
    FieldsLie(w);
  }

  /** A 2 MB leaf maps its whole region, each address at its offset. */
  lemma LargePageMeaning(m: seq<Byte>, a: Word, cr3: nat, user: bool, n: nat)
    requires |m| == SPACE && cr3 + PAGE_SIZE <= SPACE && n < 0x8000_0000
    requires a <= 0x7fff_ffff_ffff || a >= 0xffff_8000_0000_0000
    requires var l4 := EntryAt(m, cr3, L4Index(a));
             var l3 := EntryAt(m, TablePointer(l4), L3Index(a));
             && Get(l4, PRESENT) == 1 && Get(l3, PRESENT) == 1 && Get(l3, LARGE) == 0
             && EntryAt(m, TablePointer(l3), L2Index(a)) == LargeEntry(user, n)
    ensures CalcPhyAddr(m, a, cr3) == Mapped(0x20_0000 * n + a % 0x20_0000)
    ensures UserAllowed(m, a, cr3) ==> user
  {
    var l4 := EntryAt(m, cr3, L4Index(a));
    var l3 := EntryAt(m, TablePointer(l4), L3Index(a));
    LargeEntryFields(user, n);
    FieldsLie(l3);
    assert Walk(m, a, cr3) == [l4, l3, LargeEntry(user, n)];
    assert Walk(m, a, cr3)[2] in Walk(m, a, cr3);
  }

  /** On any tables whatever, the walk moves a 4 KB page as a whole: both addresses fail in
      the same way, or both land in the same frame, each at its own offset. */
  lemma PageMovesAsWhole(m: seq<Byte>, a: Word, b: Word, cr3: nat)
    requires |m| == SPACE && cr3 + PAGE_SIZE <= SPACE && a / 0x1000 == b / 0x1000
    ensures match CalcPhyAddr(m, a, cr3)
            case Mapped(x) => x % 0x1000 == a % 0x1000 && CalcPhyAddr(m, b, cr3) == Mapped(x - a % 0x1000 + b % 0x1000)
            case failure => CalcPhyAddr(m, b, cr3) == failure
  {
    SameIndices(a, b);
    var l4 := EntryAt(m, cr3, L4Index(a));
    var l3 := EntryAt(m, TablePointer(l4), L3Index(a));
    var l2 := EntryAt(m, TablePointer(l3), L2Index(a));
    SameLeaf(a, b, 0x4_0000, 0x4000_0000, Get(l3, FRAME_1GB));
    SameLeaf(a, b, 0x200, 0x20_0000, Get(l2, FRAME_2MB));
    SameLeaf(a, b, 1, 0x1000, Get(EntryAt(m, TablePointer(l2), L1Index(a)), FRAME));
  }

  lemma SameIndices(a: Word, b: Word)
    requires a / 0x1000 == b / 0x1000
    ensures L4Index(a) == L4Index(b) && L3Index(a) == L3Index(b) && L2Index(a) == L2Index(b) && L1Index(a) == L1Index(b)
    ensures 0x7fff_ffff_ffff < a < 0xffff_8000_0000_0000 <==> 0x7fff_ffff_ffff < b < 0xffff_8000_0000_0000
  {
    SameBlock(a, b, 0x800_0000, 0x80_0000_0000);
    SameBlock(a, b, 0x4_0000, 0x4000_0000);
    SameBlock(a, b, 0x200, 0x20_0000);
  }

  /** Addresses in the same page lie in the same block of k pages, as far apart. */
  lemma SameBlock(a: nat, b: nat, k: nat, size: nat)
    requires k > 0 && size == 0x1000 * k && a / 0x1000 == b / 0x1000
    ensures a / size == b / size
    ensures exists g: nat :: a % size == 0x1000 * g + a % 0x1000 && b % size == 0x1000 * g + b % 0x1000
  {
    var q := a / 0x1000;
    var h, g := q / k, q % k;
    assert 0x1000 * (k * h + g) == size * h + 0x1000 * g;
    assert g <= k - 1;
    DivModUnique(a, size, h, 0x1000 * g + a % 0x1000);
    DivModUnique(b, size, h, 0x1000 * g + b % 0x1000);
  }

  lemma SameLeaf(a: nat, b: nat, k: nat, size: nat, n: nat)
    requires k > 0 && size == 0x1000 * k && a / 0x1000 == b / 0x1000
    ensures var x, y := n * size + a % size, n * size + b % size;
            x % 0x1000 == a % 0x1000 && y == x - a % 0x1000 + b % 0x1000
  {
    SameBlock(a, b, k, size);
    var g: nat :| a % size == 0x1000 * g + a % 0x1000 && b % size == 0x1000 * g + b % 0x1000;
    assert n * size == 0x1000 * (n * k);
    DivModUnique(n * size + a % size, 0x1000, n * k + g, a % 0x1000);
  }

  // ---------------------------------------------------------------- an address space

  /** The frames of one process's address space. */
  datatype Space = Space(l4: nat, l3Lower: nat, l3Higher: nat, l2Higher: nat, l1Higher: nat, text: nat, stack: nat)

  predicate IsFrame(a: nat) {
    a % PAGE_SIZE == 0 && a + PAGE_SIZE <= SPACE
  }

  predicate Frames(s: Space) {
    && IsFrame(s.l4) && IsFrame(s.l3Lower) && IsFrame(s.l3Higher) && IsFrame(s.l2Higher) && IsFrame(s.l1Higher)
    && IsFrame(s.text) && IsFrame(s.stack)
  }

  /** The table holds the given entries and is not present everywhere else. */
  ghost predicate Table(m: seq<Byte>, table: nat, entries: map<nat, Word>)
    requires |m| == SPACE && table + PAGE_SIZE <= SPACE
  {
    forall i: nat :: i < 512 ==>
      if i in entries then EntryAt(m, table, i) == entries[i] else Get(EntryAt(m, table, i), PRESENT) == 0
  }

  function Pointer(user: bool, table: nat): Word
    requires IsFrame(table)
  {
    PageEntry(user, table / 0x1000)
  }

  function LowerEntries(): map<nat, Word> {
    map i: nat | 0 <= i < 5 :: GigabyteEntry(i)
  }

  /** The five tables as SetUpPageTable fills them. */
  ghost predicate Built(m: seq<Byte>, s: Space)
    requires |m| == SPACE && Frames(s)
  {
    && Table(m, s.l3Lower, LowerEntries())
    && Table(m, s.l1Higher, map[510 := Pointer(true, s.text), 511 := Pointer(true, s.stack)])
    && Table(m, s.l2Higher, map[511 := Pointer(true, s.l1Higher)])
    && Table(m, s.l3Higher, map[511 := Pointer(true, s.l2Higher)])
    && Table(m, s.l4, map[0 := Pointer(false, s.l3Lower), 511 := Pointer(true, s.l3Higher)])
  }

  const TEXT: nat := 0xffff_ffff_ffff_e000
  const STACK: nat := 0xffff_ffff_ffff_f000
  const IDENTITY: nat := 0x1_4000_0000

  lemma PointerFields(user: bool, table: nat)
    requires IsFrame(table)
    ensures var w := Pointer(user, table);
            && Get(w, PRESENT) == 1 && Get(w, LARGE) == 0 && Rights(w, user) && w / 0x80 % 2 == 0
            && Get(w, FRAME) == table / 0x1000 && TablePointer(w) == table
  {
    PageEntryFields(user, table / 0x1000);
  }

  /** Canonical addresses by their top index. */
  lemma TopIndex(a: Word)
    ensures a <= 0x7fff_ffff_ffff ==> (L4Index(a) < 256 && (L4Index(a) == 0 <==> a < 0x80_0000_0000))
    ensures a >= 0xffff_8000_0000_0000 ==> (L4Index(a) >= 256 && (L4Index(a) == 511 <==> a >= 0xffff_ff80_0000_0000))
  {
  }

  lemma LowIndex(a: Word)
    requires a < 0x80_0000_0000
    ensures L3Index(a) < 5 <==> a < IDENTITY
    ensures a == L3Index(a) * 0x4000_0000 + a % 0x4000_0000
  {
  }

  lemma HighIndex(a: Word)
    requires a >= 0xffff_ff80_0000_0000
    ensures L3Index(a) == 511 <==> a >= 0xffff_ffff_c000_0000
    ensures a >= 0xffff_ffff_c000_0000 ==> (L2Index(a) == 511 <==> a >= 0xffff_ffff_ffe0_0000)
    ensures a >= 0xffff_ffff_ffe0_0000 ==> (L1Index(a) == 511 <==> a >= STACK)
    ensures a >= 0xffff_ffff_ffe0_0000 ==> (L1Index(a) == 510 <==> TEXT <= a < STACK)
  {
    IndexAbove(a, 0x4000_0000, 0x3_ffff_fe00);
    if a >= 0xffff_ffff_c000_0000 {
      IndexAbove(a, 0x20_0000, 0x7ff_ffff_fe00);
    }
    if a >= 0xffff_ffff_ffe0_0000 {
      IndexAbove(a, 0x1000, 0xf_ffff_ffff_fe00);
    }
  }

  /** The index of an address at or above block `base` of 512 blocks that end at 2^64. */
  lemma IndexAbove(a: Word, size: nat, base: nat)
    requires size > 0 && base % 512 == 0 && size * base <= a && size * (base + 512) == WORD
    ensures base <= a / size < base + 512 && a / size % 512 == a / size - base
  {
    var q := a / size;
    assert a == size * q + a % size;
    TimesMore(size, q + 1, base);
    TimesMore(size, base + 512, q);
    DivModUnique(q, 512, base / 512, q - base);
  }

  /** The page tables mean what they are built for, at every 64-bit address: CalcPhyAddr is
      the identity on the first five gigabytes, maps the last two pages to the text and
      stack frames, and maps nothing else. User mode reaches just those two pages; whatever
      is mapped can be written and fetched from, by user mode where it reaches at all. */
  lemma BuiltMeaning(m: seq<Byte>, s: Space, a: Word)
    requires |m| == SPACE && Frames(s) && Built(m, s)
    ensures a < 0x1_4000_0000 ==> CalcPhyAddr(m, a, s.l4) == Mapped(a)
    ensures 0xffff_ffff_ffff_e000 <= a < 0xffff_ffff_ffff_f000 ==>
              CalcPhyAddr(m, a, s.l4) == Mapped(s.text + a % 0x1000)
    ensures 0xffff_ffff_ffff_f000 <= a ==> CalcPhyAddr(m, a, s.l4) == Mapped(s.stack + a % 0x1000)
    ensures 0x1_4000_0000 <= a < 0xffff_ffff_ffff_e000 ==> !CalcPhyAddr(m, a, s.l4).Mapped?
    ensures CalcPhyAddr(m, a, s.l4).NotCanonical? <==> 0x7fff_ffff_ffff < a < 0xffff_8000_0000_0000
    ensures UserAllowed(m, a, s.l4) <==> a >= 0xffff_ffff_ffff_e000
    ensures UserWritable(m, a, s.l4) <==> a >= 0xffff_ffff_ffff_e000
    ensures CalcPhyAddr(m, a, s.l4).Mapped? ==> Writable(m, a, s.l4) && Fetchable(m, a, s.l4)
  {
    TranslatesMeans(m, a, s.l4);
    TopIndex(a);
    PointerFields(false, s.l3Lower);
    PointerFields(true, s.l3Higher);
    if a < 0x80_0000_0000 {
      LowerHalf(m, s, a);
    } else if a >= 0xffff_ff80_0000_0000 {
      UpperHalf(m, s, a);
    }
  }

  lemma LowerHalf(m: seq<Byte>, s: Space, a: Word)
    requires |m| == SPACE && Frames(s) && Built(m, s) && a < 0x80_0000_0000
    ensures if a < IDENTITY then CalcPhyAddr(m, a, s.l4) == Mapped(a) else CalcPhyAddr(m, a, s.l4).NotPresent?
    ensures !UserAllowed(m, a, s.l4)
    ensures a < IDENTITY ==> Writable(m, a, s.l4) && Fetchable(m, a, s.l4)
  {
    TranslatesMeans(m, a, s.l4);
    TopIndex(a);
    LowIndex(a);
    PointerFields(false, s.l3Lower);
    assert EntryAt(m, s.l4, 0) == Pointer(false, s.l3Lower);
    if L3Index(a) < 5 {
      GigabyteEntryFields(L3Index(a));
      assert EntryAt(m, s.l3Lower, L3Index(a)) == GigabyteEntry(L3Index(a));
      assert Walk(m, a, s.l4) == [Pointer(false, s.l3Lower), GigabyteEntry(L3Index(a))];
      assert Walk(m, a, s.l4)[0] in Walk(m, a, s.l4);
    }
  }

  lemma UpperHalf(m: seq<Byte>, s: Space, a: Word)
    requires |m| == SPACE && Frames(s) && Built(m, s) && a >= 0xffff_ff80_0000_0000
    ensures if a >= STACK then CalcPhyAddr(m, a, s.l4) == Mapped(s.stack + a % 0x1000)
            else if a >= TEXT then CalcPhyAddr(m, a, s.l4) == Mapped(s.text + a % 0x1000)
            else CalcPhyAddr(m, a, s.l4).NotPresent?
    ensures a >= TEXT ==> UserWritable(m, a, s.l4) && Fetchable(m, a, s.l4)
  {
    TranslatesMeans(m, a, s.l4);
    TopIndex(a);
    HighIndex(a);
    PointerFields(true, s.l3Higher);
    PointerFields(true, s.l2Higher);
    PointerFields(true, s.l1Higher);
    PointerFields(true, s.text);
    PointerFields(true, s.stack);
    assert EntryAt(m, s.l4, 511) == Pointer(true, s.l3Higher);
    assert L3Index(a) == 511 ==> EntryAt(m, s.l3Higher, L3Index(a)) == Pointer(true, s.l2Higher);
    assert L2Index(a) == 511 ==> EntryAt(m, s.l2Higher, L2Index(a)) == Pointer(true, s.l1Higher);
    assert L1Index(a) == 510 ==> EntryAt(m, s.l1Higher, L1Index(a)) == Pointer(true, s.text);
    assert L1Index(a) == 511 ==> EntryAt(m, s.l1Higher, L1Index(a)) == Pointer(true, s.stack);
    if a >= TEXT {
      var leaf := Pointer(true, if a >= STACK then s.stack else s.text);
      assert Walk(m, a, s.l4) ==
             [Pointer(true, s.l3Higher), Pointer(true, s.l2Higher), Pointer(true, s.l1Higher), leaf];
    }
  }
}
