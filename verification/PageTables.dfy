/** SetUpPageTable of process.c: five table frames filled entry by entry, in place. */
module PageTables {
  import opened Util
  import opened Memory
  import opened Paging

  /** Only frames in `touched` differ. */
  ghost predicate Changed(m: seq<Byte>, n: seq<Byte>, touched: set<nat>) {
    |m| == |n| && forall a :: 0 <= a < |m| && a / 0x1000 !in touched ==> m[a] == n[a]
  }

  lemma ChangedTwice(m: seq<Byte>, n: seq<Byte>, k: seq<Byte>, first: set<nat>, second: set<nat>)
    requires Changed(m, n, first) && Changed(n, k, second)
    ensures Changed(m, k, first + second)
  {
  }

  // ---------------------------------------------------------------- entries

  // The ghost arguments of Put: the end of the field, and what the bits below it hold.

  /** The assignments SetUpPageTable makes to a present entry of an upper table. */
  method TableEntry(before: Word, user: bool, address: nat) returns (w: Word)
    requires address / 0x1000 < 0x100_0000_0000
    ensures w == PageEntry(user, address / 0x1000) == 3 + (if user then 4 else 0) + address / 0x1000 * 0x1000
  {
    var n := address / 0x1000;
    ghost var u := if user then 7 else 3;
    w := Put(before, PRESENT, 1, 0x2, 0);
    w := Put(w, READ_WRITE, 1, 0x4, 1);
    w := Put(w, USER, if user then 1 else 0, 0x8, 3);
    w := Put(w, WRITE_THROUGH, 0, 0x10, u);
    w := Put(w, CACHE_DISABLE, 0, 0x20, u);
    w := Put(w, ACCESSED, 0, 0x40, u);
    w := Put(w, DIRTY, 0, 0x80, u);
    w := Put(w, LARGE, 0, 0x100, u);
    w := Put(w, TABLE_IGNORED2, 0, 0x1000, u);
    w := Put(w, FRAME, n, 0x10_0000_0000_0000, u);
    w := Put(w, TABLE_IGNORED3, 0, 0x8000_0000_0000_0000, PageEntry(user, n));
    w := Put(w, EXECUTE_DISABLE, 0, WORD, PageEntry(user, n));
  }

  /** The assignments to a present 4 KB leaf. */
  method LeafEntry(before: Word, address: nat) returns (w: Word)
    requires address / 0x1000 < 0x100_0000_0000
    ensures w == PageEntry(true, address / 0x1000) == 7 + address / 0x1000 * 0x1000
  {
    var n := address / 0x1000;
    w := Put(before, PRESENT, 1, 0x2, 0);
    w := Put(w, READ_WRITE, 1, 0x4, 1);
    w := Put(w, USER, 1, 0x8, 3);
    w := Put(w, WRITE_THROUGH, 0, 0x10, 7);
    w := Put(w, CACHE_DISABLE, 0, 0x20, 7);
    w := Put(w, ACCESSED, 0, 0x40, 7);
    w := Put(w, DIRTY, 0, 0x80, 7);
    w := Put(w, LARGE, 0, 0x100, 7);
    w := Put(w, GLOBAL, 0, 0x200, 7);
    w := Put(w, LEAF_IGNORED, 0, 0x1000, 7);
    w := Put(w, FRAME, n, 0x10_0000_0000_0000, 7);
    w := Put(w, LEAF_IGNORED2, 0, 0x800_0000_0000_0000, PageEntry(true, n));
    w := Put(w, PROTECTION_KEY, 0, 0x8000_0000_0000_0000, PageEntry(true, n));
    w := Put(w, EXECUTE_DISABLE, 0, WORD, PageEntry(true, n));
  }

  /** The assignments to the 1 GB leaf for gigabyte i. */
  method GigabyteLeaf(before: Word, i: nat) returns (w: Word)
    requires i < 5
    ensures w == GigabyteEntry(i) == 0x83 + 0x4000_0000 * i
  {
    w := Put(before, PRESENT, 1, 0x2, 0);
    w := Put(w, READ_WRITE, 1, 0x4, 1);
    w := Put(w, USER, 0, 0x8, 3);
    w := Put(w, WRITE_THROUGH, 0, 0x10, 3);
    w := Put(w, CACHE_DISABLE, 0, 0x20, 3);
    w := Put(w, ACCESSED, 0, 0x40, 3);
    w := Put(w, DIRTY, 0, 0x80, 3);
    w := Put(w, LARGE, 1, 0x100, 3);
    w := Put(w, GLOBAL, 0, 0x200, 0x83);
    w := Put(w, LEAF_IGNORED, 0, 0x1000, 0x83);
    w := Put(w, LARGE_PAT, 0, 0x2000, 0x83);
    w := Put(w, RESERVED_1GB, 0, 0x4000_0000, 0x83);
    w := Put(w, FRAME_1GB, i * 0x4000_0000 / 0x4000_0000, 0x10_0000_0000_0000, 0x83);
    w := Put(w, LEAF_IGNORED2, 0, 0x800_0000_0000_0000, GigabyteEntry(i));
    w := Put(w, PROTECTION_KEY, 0, 0x8000_0000_0000_0000, GigabyteEntry(i));
    w := Put(w, EXECUTE_DISABLE, 0, WORD, GigabyteEntry(i));
  }

  method NotPresentEntry(before: Word) returns (w: Word)
    ensures Get(w, PRESENT) == 0 && w == before - before % 2
  {
    w := Assign(before, PRESENT, 0, 0x2, 0);
  }

  // ---------------------------------------------------------------- tables

  /** The first n entries of the table are as given, or not present. */
  ghost predicate Filled(m: seq<Byte>, table: nat, entries: map<nat, Word>, n: nat)
    requires |m| == SPACE && table + PAGE_SIZE <= SPACE && n <= 512
  {
    forall i: nat :: i < n ==>
      if i in entries then EntryAt(m, table, i) == entries[i] else Get(EntryAt(m, table, i), PRESENT) == 0
  }

  method SetEntry(mem: array<Byte>, table: nat, i: nat, w: Word, ghost entries: map<nat, Word>)
    requires mem.Length == SPACE && IsFrame(table) && i < 512
    requires if i in entries then w == entries[i] else Get(w, PRESENT) == 0
    requires Filled(mem[..], table, entries, i)
    modifies mem
    ensures Filled(mem[..], table, entries, i + 1)
    ensures Changed(old(mem[..]), mem[..], {table / 0x1000})
  {
    ghost var before := mem[..];
    Store(mem, table + 8 * i, w);
    forall j: nat | j < i
      ensures EntryAt(mem[..], table, j) == EntryAt(before, table, j)
    {
      LoadSame(mem[..], before, table + 8 * j);
    }
  }

  /** The entries a table of SetUpPageTable gets. */
  datatype Kind = Lower | Leaves(text: nat, stack: nat) | Upper(next: nat) | Top(lower: nat, higher: nat)

  predicate KindOk(kind: Kind) {
    match kind
    case Lower => true
    case Leaves(text, stack) => IsFrame(text) && IsFrame(stack)
    case Upper(next) => IsFrame(next)
    case Top(lower, higher) => IsFrame(lower) && IsFrame(higher)
  }

  function Entries(kind: Kind): map<nat, Word>
    requires KindOk(kind)
  {
    match kind
    case Lower => LowerEntries()
    case Leaves(text, stack) => map[510 := Pointer(true, text), 511 := Pointer(true, stack)]
    case Upper(next) => map[511 := Pointer(true, next)]
    case Top(lower, higher) => map[0 := Pointer(false, lower), 511 := Pointer(true, higher)]
  }

  /** The loop that fills one table; the branches are those of the five loops. */
  method FillTable(mem: array<Byte>, table: nat, kind: Kind)
    requires mem.Length == SPACE && IsFrame(table) && KindOk(kind)
    modifies mem
    ensures Table(mem[..], table, Entries(kind))
    ensures Changed(old(mem[..]), mem[..], {table / 0x1000})
  {
    var i := 0;
    while i < 512
      invariant 0 <= i <= 512
      invariant Filled(mem[..], table, Entries(kind), i)
      invariant Changed(old(mem[..]), mem[..], {table / 0x1000})
    {
      var w := Load(mem[..], table + 8 * i);
      match kind {
        case Lower =>
          if i < 5 { w := GigabyteLeaf(w, i); } else { w := NotPresentEntry(w); }
        case Leaves(text, stack) =>
          if i == 510 { w := LeafEntry(w, text); }
          else if i == 511 { w := LeafEntry(w, stack); }
          else { w := NotPresentEntry(w); }
        case Upper(next) =>
          if i == 511 { w := TableEntry(w, true, next); } else { w := NotPresentEntry(w); }
        case Top(lower, higher) =>
          if i == 0 { w := TableEntry(w, false, lower); }
          else if i == 511 { w := TableEntry(w, true, higher); }
          else { w := NotPresentEntry(w); }
      }
      SetEntry(mem, table, i, w, Entries(kind));
      i := i + 1;
    }
  }
}
