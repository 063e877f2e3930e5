/** Page directories and page tables.  An address space is a directory frame; its first four
    entries are the kernel's own tables, shared by every address space, and the rest are
    private tables.  A frame's content is what the kernel last wrote there. */
module PageTables {
  import opened Frames
  import opened Codec

  const KERNEL_TABLES: nat := 4
  const ENTRIES: nat := 1024
  const TABLE_SPAN: nat := 0x40_0000

  /** A present user entry of a table. */
  datatype Entry = Entry(frame: nat, writable: bool)

  /** A directory maps indices to table frames, a table maps indices to entries; absent
      indices are entries that are not present. */
  datatype Content = Directory(tables: map<nat, nat>) | Table(entries: map<nat, Entry>) | Data(bytes: Bytes)

  type Memory = map<nat, Content>

  function PdeIndex(vaddr: nat): nat
  {
    vaddr / TABLE_SPAN
  }

  function PteIndex(vaddr: nat): (i: nat)
    ensures i < ENTRIES
  {
    vaddr / PAGE_SIZE % ENTRIES
  }

  /** The frames of the private tables from index `i` on. */
  function TablesFrom(tables: map<nat, nat>, i: nat): multiset<nat>
    decreases ENTRIES - i
  {
    if i >= ENTRIES then multiset{}
    else (if i in tables then multiset{tables[i]} else multiset{}) + TablesFrom(tables, i + 1)
  }

  predicate IsDirectory(mem: Memory, d: nat)
  {
    d in mem && mem[d].Directory?
  }

  /** The frames an address space is made of. */
  function Space(mem: Memory, d: nat): multiset<nat>
  {
    if IsDirectory(mem, d) then multiset{d} + TablesFrom(mem[d].tables, KERNEL_TABLES) else multiset{}
  }

  /** What a virtual address means in an address space. */
  function Translate(mem: Memory, d: nat, vaddr: nat): Option<Entry>
  {
    if !IsDirectory(mem, d) || PdeIndex(vaddr) !in mem[d].tables then None
    else
      var t := mem[d].tables[PdeIndex(vaddr)];
      if t !in mem || !mem[t].Table? || PteIndex(vaddr) !in mem[t].entries then None
      else Some(mem[t].entries[PteIndex(vaddr)])
  }

  ghost predicate GoodTable(mem: Memory, t: nat, pages: set<nat>)
  {
    t in mem && mem[t].Table? && forall j | j in mem[t].entries :: mem[t].entries[j].frame in pages
  }

  /** The kernel's tables are in place and every private entry maps one of `pages`. */
  ghost predicate GoodSpace(mem: Memory, d: nat, kernelTables: seq<nat>, pages: set<nat>)
  {
    IsDirectory(mem, d) &&
    (forall i: nat | i < KERNEL_TABLES && i < |kernelTables| :: i in mem[d].tables && mem[d].tables[i] == kernelTables[i]) &&
    (forall i: nat | KERNEL_TABLES <= i && i in mem[d].tables :: i < ENTRIES && GoodTable(mem, mem[d].tables[i], pages))
  }

  ghost predicate Untouched(m: Memory, m': Memory, frames: multiset<nat>)
  {
    forall f | f in frames :: (f in m <==> f in m') && (f in m ==> m[f] == m'[f])
  }

  // ---- facts about spaces ----

  lemma {:induction false} TableCounted(tables: map<nat, nat>, i: nat, k: nat)
    requires i <= k < ENTRIES && k in tables
    ensures tables[k] in TablesFrom(tables, i)
    decreases k - i
  {
    if i < k {
      TableCounted(tables, i + 1, k);
    }
  }

  lemma TablesSplit(tables: map<nat, nat>, i: nat)
    requires i < ENTRIES
    ensures TablesFrom(tables, i) == (if i in tables then multiset{tables[i]} else multiset{}) + TablesFrom(tables, i + 1)
  {
  }

  lemma {:induction false} TablesDistinct(tables: map<nat, nat>, i: nat, j: nat, k: nat)
    requires i <= j < k < ENTRIES && j in tables && k in tables
    requires forall f | f in TablesFrom(tables, i) :: TablesFrom(tables, i)[f] <= 1
    ensures tables[j] != tables[k]
    decreases j - i
  {
    hide TablesFrom;
    var all, rest := TablesFrom(tables, i), TablesFrom(tables, i + 1);
    TablesSplit(tables, i);
    TableCounted(tables, i + 1, k);
    if i < j {
      forall f | f in rest ensures rest[f] <= 1 { assert all[f] <= 1; }
      TablesDistinct(tables, i + 1, j, k);
    } else {
      assert tables[j] == tables[k] ==> all[tables[k]] >= 2;
    }
  }

  lemma {:induction false} TableAdded(tables: map<nat, nat>, i: nat, k: nat, t: nat)
    requires k < ENTRIES && k !in tables
    ensures TablesFrom(tables[k := t], i) == TablesFrom(tables, i) + if i <= k then multiset{t} else multiset{}
    decreases ENTRIES - i
  {
    if i < ENTRIES {
      TableAdded(tables, i + 1, k, t);
    }
  }

  lemma {:induction false} NoTables(tables: map<nat, nat>, i: nat)
    requires forall k: nat | i <= k :: k !in tables
    ensures TablesFrom(tables, i) == multiset{}
    decreases ENTRIES - i
  {
    if i < ENTRIES {
      NoTables(tables, i + 1);
    }
  }

  /** The tables of a space whose frames are all distinct are distinct, and none is the
      directory. */
  lemma {:induction false} SpaceDistinct(mem: Memory, d: nat, taken: multiset<nat>, j: nat, k: nat)
    requires IsDirectory(mem, d) && Space(mem, d) <= taken && forall f | f in taken :: taken[f] <= 1
    requires KERNEL_TABLES <= j < ENTRIES && KERNEL_TABLES <= k < ENTRIES && j in mem[d].tables && k in mem[d].tables
    ensures mem[d].tables[j] != d && (j != k ==> mem[d].tables[j] != mem[d].tables[k])
    ensures mem[d].tables[j] in Space(mem, d)
  {
    hide TablesFrom;
    var tables := mem[d].tables;
    var all := TablesFrom(tables, KERNEL_TABLES);
    forall f | f in all ensures all[f] <= 1 { assert f in taken; }
    TableCounted(tables, KERNEL_TABLES, j);
    assert tables[j] == d ==> Space(mem, d)[d] >= 2;
    assert d in taken;
    if j < k {
      TablesDistinct(tables, KERNEL_TABLES, j, k);
    } else if k < j {
      TablesDistinct(tables, KERNEL_TABLES, k, j);
    }
  }

  /** A space reads the same wherever its frames are untouched. */
  lemma {:induction false} SpaceSame(m: Memory, m': Memory, d: nat, kernelTables: seq<nat>, pages: set<nat>)
    requires GoodSpace(m, d, kernelTables, pages) && Untouched(m, m', Space(m, d))
    ensures GoodSpace(m', d, kernelTables, pages) && Space(m', d) == Space(m, d)
  {
    hide TablesFrom;
    assert d in Space(m, d);
    forall i: nat | KERNEL_TABLES <= i && i in m[d].tables
      ensures GoodTable(m', m[d].tables[i], pages)
    {
      TableCounted(m[d].tables, KERNEL_TABLES, i);
      assert m[d].tables[i] in Space(m, d);
    }
  }

  /** Writing an entry of table `t` of a space. */
  lemma {:induction false} EntryWritten(mem: Memory, d: nat, kernelTables: seq<nat>, pages: set<nat>, k: nat, j: nat, e: Entry)
    requires GoodSpace(mem, d, kernelTables, pages) && KERNEL_TABLES <= k && k in mem[d].tables && mem[d].tables[k] != d
    ensures var t := mem[d].tables[k];
            t in mem && mem[t].Table? &&
            var mem' := mem[t := Table(mem[t].entries[j := e])];
            GoodSpace(mem', d, kernelTables, pages + {e.frame}) && Space(mem', d) == Space(mem, d)
  {
    var t := mem[d].tables[k];
    assert GoodTable(mem, t, pages);
    var mem' := mem[t := Table(mem[t].entries[j := e])];
    forall i: nat | KERNEL_TABLES <= i && i in mem'[d].tables
      ensures GoodTable(mem', mem'[d].tables[i], pages + {e.frame})
    {
      assert GoodTable(mem, mem[d].tables[i], pages);
    }
  }

  function WithTable(mem: Memory, d: nat, k: nat, t: nat): Memory
    requires IsDirectory(mem, d)
  {
    mem[t := Table(map[])][d := Directory(mem[d].tables[k := t])]
  }

  /** Giving a space a fresh empty table. */
  lemma {:induction false} TableMade(mem: Memory, d: nat, kernelTables: seq<nat>, pages: set<nat>, k: nat, t: nat)
    requires GoodSpace(mem, d, kernelTables, pages) && KERNEL_TABLES <= k < ENTRIES && k !in mem[d].tables
    requires t !in Space(mem, d) && t != d
    ensures GoodSpace(WithTable(mem, d, k, t), d, kernelTables, pages)
    ensures Space(WithTable(mem, d, k, t), d) == Space(mem, d) + multiset{t}
  {
    hide TablesFrom;
    TableAdded(mem[d].tables, KERNEL_TABLES, k, t);
    forall i: nat | KERNEL_TABLES <= i && i in mem[d].tables
      ensures i < ENTRIES && GoodTable(WithTable(mem, d, k, t), mem[d].tables[i], pages)
    {
      OldTable(mem, d, kernelTables, pages, k, t, i);
    }
  }

  lemma {:induction false} OldTable(mem: Memory, d: nat, kernelTables: seq<nat>, pages: set<nat>, k: nat, t: nat, i: nat)
    requires GoodSpace(mem, d, kernelTables, pages) && t !in Space(mem, d) && KERNEL_TABLES <= i && i in mem[d].tables
    ensures i < ENTRIES && GoodTable(WithTable(mem, d, k, t), mem[d].tables[i], pages)
  {
    hide TablesFrom;
    TableCounted(mem[d].tables, KERNEL_TABLES, i);
    assert GoodTable(mem, mem[d].tables[i], pages);
  }

  /** The indices of a directory that are present. */
  function Present(mem: Memory, d: nat): set<nat>
  {
    if IsDirectory(mem, d) then mem[d].tables.Keys else {}
  }

  /** A space with at most one private table, the one right behind the kernel's. */
  ghost predicate Compact(mem: Memory, d: nat, has: bool)
  {
    IsDirectory(mem, d) && (forall i | i in Present(mem, d) :: i <= KERNEL_TABLES) && (KERNEL_TABLES in Present(mem, d) <==> has)
  }

  lemma {:induction false} CompactSize(mem: Memory, d: nat, has: bool)
    requires Compact(mem, d, has)
    ensures |Space(mem, d)| == if has then 2 else 1
  {
    NoTables(mem[d].tables, KERNEL_TABLES + 1);
    assert TablesFrom(mem[d].tables, KERNEL_TABLES) ==
      (if has then multiset{mem[d].tables[KERNEL_TABLES]} else multiset{}) + TablesFrom(mem[d].tables, KERNEL_TABLES + 1);
  }

  /** Which entry a virtual address goes through. */
  function Way(vaddr: nat): (nat, nat)
  {
    (PdeIndex(vaddr), PteIndex(vaddr))
  }

  /** The two indices and the offset make up the address, as the processor splits it: ten, ten
      and twelve bits. */
  lemma AddressSplit(v: nat)
    ensures v == PdeIndex(v) * TABLE_SPAN + PteIndex(v) * PAGE_SIZE + v % PAGE_SIZE
    ensures v < 0x1_0000_0000 ==> PdeIndex(v) < ENTRIES
  {
    var n := v / PAGE_SIZE;
    assert v == n * PAGE_SIZE + v % PAGE_SIZE && n == n / ENTRIES * ENTRIES + n % ENTRIES;
    assert PdeIndex(v) == n / ENTRIES;
  }

  /** So two addresses lead to one entry if and only if they are on one page. */
  lemma WaySamePage(v: nat, w: nat)
    ensures Way(v) == Way(w) <==> v / PAGE_SIZE == w / PAGE_SIZE
  {
    AddressSplit(v);
    AddressSplit(w);
    PageNumber(v);
    PageNumber(w);
  }

  lemma PageNumber(v: nat)
    ensures v / PAGE_SIZE == PdeIndex(v) * ENTRIES + PteIndex(v)
  {
    var n := v / PAGE_SIZE;
    assert n == n / ENTRIES * ENTRIES + n % ENTRIES;
    assert PdeIndex(v) == n / ENTRIES;
  }

  /** Writing one entry changes what that page means and nothing else. */
  lemma {:induction false} EntryTranslates(mem: Memory, d: nat, k: nat, j: nat, e: Entry, vaddr: nat)
    requires IsDirectory(mem, d) && k in mem[d].tables && mem[d].tables[k] in mem && mem[mem[d].tables[k]].Table?
    requires forall i | i in mem[d].tables && i != k :: mem[d].tables[i] != mem[d].tables[k]
    ensures var t := mem[d].tables[k];
            var mem' := mem[t := Table(mem[t].entries[j := e])];
            Translate(mem', d, vaddr) == if Way(vaddr) == (k, j) then Some(e) else Translate(mem, d, vaddr)
  {
    hide PdeIndex, PteIndex;
  }

  lemma {:induction false} TableTranslates(mem: Memory, d: nat, k: nat, t: nat, vaddr: nat)
    requires IsDirectory(mem, d) && k !in mem[d].tables && t != d && forall i | i in mem[d].tables :: mem[d].tables[i] != t
    ensures Translate(WithTable(mem, d, k, t), d, vaddr) == Translate(mem, d, vaddr)
  {
    hide PdeIndex, PteIndex;
  }
}

module AddressSpaces {
  import opened Frames
  import opened Codec
  import opened PageTables

  class Paging {
    const frames: FrameAllocator
    const kernelSpace: nat
    const kernelTables: seq<nat>
    var mem: Memory

    ghost predicate Valid()
      reads this, frames, frames.bitmap
    {
      frames.Valid() && 0 < kernelSpace < frames.reservedPages &&
      |kernelTables| == KERNEL_TABLES && forall i | 0 <= i < KERNEL_TABLES :: kernelTables[i] < frames.reservedPages
    }

    /** A space of this kernel, all of whose frames are taken. */
    ghost predicate Owns(d: nat, pages: set<nat>)
      reads this, frames, frames.bitmap
    {
      GoodSpace(mem, d, kernelTables, pages) && Space(mem, d) <= frames.Taken()
    }

    constructor (kernelEnd: nat, kernelSpace: nat, kernelTables: seq<nat>)
      requires 0 < kernelSpace < Reserved(kernelEnd) && |kernelTables| == KERNEL_TABLES
      requires forall i | 0 <= i < KERNEL_TABLES :: kernelTables[i] < Reserved(kernelEnd)
      ensures Valid() && fresh(frames) && fresh(frames.bitmap) && frames.Taken() == multiset{} && mem == map[]
      ensures this.kernelSpace == kernelSpace
    {
      frames := new FrameAllocator(kernelEnd);
      this.kernelSpace, this.kernelTables, mem := kernelSpace, kernelTables, map[];
    }

    /** A directory holding the kernel's tables and nothing else; 0 if no frame is free. */
    method CreateSpace() returns (d: nat)
      requires Valid()
      modifies this, frames, frames.bitmap
      ensures Valid()
      ensures d == 0 ==> mem == old(mem) && frames.bitmap[..] == old(frames.bitmap[..])
      ensures d == 0 ==> frames.Taken() == old(frames.Taken())
      ensures d != 0 ==> old(frames.Taken())[d] == 0 && frames.Taken() == old(frames.Taken()) + multiset{d}
      ensures d != 0 ==> Owns(d, {}) && Space(mem, d) == multiset{d}
      ensures Untouched(old(mem), mem, old(frames.Taken()))
      ensures d == 0 <==> old(frames.FreePages()) == 0
      ensures d != 0 ==> Compact(mem, d, false) && forall v: nat | PdeIndex(v) >= KERNEL_TABLES :: Translate(mem, d, v).None?
    {
      hide FrameAllocator.Taken, FrameAllocator.Valid, GoodSpace, Space, Untouched;
      UntouchedSame(mem, frames.Taken());
      ghost var taken := frames.Taken();
      d := frames.AllocPage();
      if d == 0 {
        return;
      }
      var tables := KernelEntries(kernelTables);
      FreshSpace(mem, d, tables, kernelTables);
      UntouchedElsewhere(mem, d, Directory(tables), taken);
      mem := mem[d := Directory(tables)];
    }

    /** The kernel's part of a directory. */
    static method KernelEntries(kernelTables: seq<nat>) returns (tables: map<nat, nat>)
      requires |kernelTables| == KERNEL_TABLES
      ensures forall i: nat :: (i in tables <==> i < KERNEL_TABLES) && (i in tables ==> tables[i] == kernelTables[i])
    {
      tables := map[];
      var t := 0;
      while t < KERNEL_TABLES
        invariant 0 <= t <= KERNEL_TABLES
        invariant forall i: nat :: (i in tables <==> i < t) && (i in tables ==> tables[i] == kernelTables[i])
      {
        tables := tables[t := kernelTables[t]];
        t := t + 1;
      }
    }

    /** The table to write in, made if there is none; None if no frame is free. */
    method TableFor(d: nat, k: nat, ghost pages: set<nat>) returns (t: Option<nat>)
      requires Valid() && Owns(d, pages) && KERNEL_TABLES <= k < ENTRIES
      modifies this, frames, frames.bitmap
      ensures Valid() && Owns(d, pages)
      ensures t.None? ==> mem == old(mem) && frames.bitmap[..] == old(frames.bitmap[..]) &&
                          forall f | 0 <= f < PAGE_COUNT :: frames.bitmap[f]
      ensures t.None? ==> frames.Taken() == old(frames.Taken()) && k !in mem[d].tables
      ensures t.Some? ==> k in mem[d].tables && mem[d].tables[k] == t.value &&
                          Present(mem, d) == Present(old(mem), d) + {k}
      ensures t.None? ==> frames.FreePages() == 0
      ensures frames.Taken() + Space(old(mem), d) == old(frames.Taken()) + Space(mem, d)
      ensures Untouched(old(mem), mem, old(frames.Taken()) - Space(old(mem), d))
      ensures forall v: nat :: Translate(mem, d, v) == Translate(old(mem), d, v)
    {
      hide TablesFrom, Translate, GoodSpace, Space, Untouched, FrameAllocator.Taken, FrameAllocator.Valid;
      SpaceIs(mem, d, kernelTables, pages);
      ghost var was, rest := mem, frames.Taken() - Space(mem, d);
      UntouchedSame(mem, rest);
      if k in mem[d].tables {
        return Some(mem[d].tables[k]);
      }
      frames.TakenOnce(d);
      var f := frames.AllocPage();
      if f == 0 {
        return None;
      }
      assert f !in Space(mem, d) && d in Space(mem, d) && f !in rest && d !in rest;
      TableMade(mem, d, kernelTables, pages, k, f);
      FreshTable(was, d, kernelTables, pages, frames.reservedPages, f);
      forall v: nat
        ensures Translate(WithTable(was, d, k, f), d, v) == Translate(was, d, v)
      {
        TableTranslates(was, d, k, f, v);
      }
      UntouchedElsewhere(mem, f, Table(map[]), rest);
      mem := mem[f := Table(map[])];
      UntouchedElsewhere(mem, d, Directory(mem[d].tables[k := f]), rest);
      UntouchedTwice(was, mem, mem[d := Directory(mem[d].tables[k := f])], rest);
      mem := mem[d := Directory(mem[d].tables[k := f])];
      t := Some(f);
    }

    /** Maps one page.  Refused, with nothing changed, for a misaligned address, an address in
        the kernel's region, or when a table is needed and no frame is free. */
    method MapUserPage(d: nat, vaddr: nat, frame: nat, writable: bool, ghost pages: set<nat>) returns (ok: bool)
      requires Valid() && Owns(d, pages) && vaddr < ENTRIES * TABLE_SPAN
      modifies this, frames, frames.bitmap
      ensures Valid()
      ensures Untouched(old(mem), mem, old(frames.Taken()) - Space(old(mem), d))
      ensures frames.Taken() + Space(old(mem), d) == old(frames.Taken()) + Space(mem, d)
      ensures !ok ==> mem == old(mem) && frames.bitmap[..] == old(frames.bitmap[..])
      ensures !ok ==> vaddr % PAGE_SIZE != 0 || PdeIndex(vaddr) < KERNEL_TABLES ||
                      (frames.FreePages() == 0 && PdeIndex(vaddr) !in Present(mem, d))
      ensures ok ==> Present(mem, d) == Present(old(mem), d) + {PdeIndex(vaddr)}
      ensures ok ==> Owns(d, pages + {frame})
      ensures ok ==> vaddr % PAGE_SIZE == 0 && PdeIndex(vaddr) >= KERNEL_TABLES
      ensures ok ==> forall v: nat :: Translate(mem, d, v) ==
                       if Way(v) == Way(vaddr) then Some(Entry(frame, writable)) else Translate(old(mem), d, v)
    {
      hide TablesFrom, Translate;
      if vaddr % PAGE_SIZE != 0 {
        return false;
      }
      var k := PdeIndex(vaddr);
      if k < KERNEL_TABLES {
        return false;
      }
      assert k < ENTRIES;
      hide PdeIndex, PteIndex, GoodSpace, Space, Untouched;
      ghost var taken, before := frames.Taken(), mem;
      var table := TableFor(d, k, pages);
      if table.None? {
        return false;
      }
      ghost var between := mem;
      Balance(taken, Space(before, d), frames.Taken(), Space(mem, d));
      WriteEntry(d, table.value, k, PteIndex(vaddr), Entry(frame, writable), pages);
      UntouchedTwice(before, between, mem, taken - Space(before, d));
      ok := true;
    }

    method WriteEntry(d: nat, t: nat, k: nat, j: nat, e: Entry, ghost pages: set<nat>)
      requires Valid() && Owns(d, pages) && KERNEL_TABLES <= k < ENTRIES && k in mem[d].tables && mem[d].tables[k] == t
      modifies this`mem
      ensures Owns(d, pages + {e.frame}) && Space(mem, d) == Space(old(mem), d)
      ensures Untouched(old(mem), mem, frames.Taken() - Space(mem, d))
      ensures Present(mem, d) == Present(old(mem), d)
      ensures forall v: nat :: Translate(mem, d, v) == if Way(v) == (k, j) then Some(e) else Translate(old(mem), d, v)
    {
      hide TablesFrom, Translate, Way;
      TablesApart(k, d, pages);
      EntryWritten(mem, d, kernelTables, pages, k, j, e);
      ghost var was := mem;
      forall v: nat
        ensures Translate(was[t := Table(was[t].entries[j := e])], d, v) == if Way(v) == (k, j) then Some(e) else Translate(was, d, v)
      {
        EntryTranslates(was, d, k, j, e, v);
      }
      mem := mem[t := Table(mem[t].entries[j := e])];
    }

    /** The table at index `k` is neither the directory nor any other table. */
    lemma TablesApart(k: nat, d: nat, pages: set<nat>)
      requires Valid() && Owns(d, pages) && KERNEL_TABLES <= k < ENTRIES && k in mem[d].tables
      ensures mem[d].tables[k] != d && mem[d].tables[k] in Space(mem, d) &&
              frames.Taken()[mem[d].tables[k]] == 1 &&
              forall i | i in mem[d].tables && i != k :: mem[d].tables[i] != mem[d].tables[k]
    {
      hide TablesFrom, Space;
      var t := mem[d].tables[k];
      forall f ensures frames.Taken()[f] <= 1 { frames.TakenOnce(f); }
      SpaceDistinct(mem, d, frames.Taken(), k, k);
      frames.TakenOnce(t);
      forall i | i in mem[d].tables && i != k
        ensures mem[d].tables[i] != t
      {
        if i >= KERNEL_TABLES {
          SpaceDistinct(mem, d, frames.Taken(), k, i);
        }
      }
    }

    /** Frees the private tables and the directory; the kernel's own space is never destroyed. */
    method DestroySpace(d: nat, ghost pages: set<nat>)
      requires Valid() && (d != kernelSpace ==> Owns(d, pages))
      modifies this, frames, frames.bitmap
      ensures Valid()
      ensures d == kernelSpace ==> mem == old(mem) && frames.bitmap[..] == old(frames.bitmap[..])
      ensures d == kernelSpace ==> frames.Taken() == old(frames.Taken())
      ensures d != kernelSpace ==> frames.Taken() == old(frames.Taken()) - Space(old(mem), d)
      ensures d != kernelSpace ==> Untouched(old(mem), mem, old(frames.Taken()) - Space(old(mem), d))
    {
      hide TablesFrom, GoodSpace, Space, Untouched, FrameAllocator.Taken, FrameAllocator.Valid;
      if d == kernelSpace {
        return;
      }
      SpaceIs(mem, d, kernelTables, pages);
      ghost var rest := frames.Taken() - Space(mem, d);
      frames.TakenOnce(d);
      var tables := mem[d].tables;
      Takeaway(frames.Taken(), d, TablesFrom(tables, KERNEL_TABLES));
      FreeTables(tables, rest + multiset{d});
      OneLess(rest, d, multiset{});
      var cleared := Directory(map i | i in tables && i < KERNEL_TABLES :: tables[i]);
      UntouchedElsewhere(mem, d, cleared, rest);
      mem := mem[d := cleared];
      frames.FreePage(d);
    }

    /** Frees the private tables of a directory. */
    method FreeTables(tables: map<nat, nat>, ghost rest: multiset<nat>)
      requires Valid() && frames.Taken() == rest + TablesFrom(tables, KERNEL_TABLES)
      modifies frames, frames.bitmap
      ensures Valid() && frames.Taken() == rest
    {
      hide TablesFrom, FrameAllocator.Taken, FrameAllocator.Valid;
      var i := KERNEL_TABLES;
      while i < ENTRIES
        invariant KERNEL_TABLES <= i <= ENTRIES
        invariant Valid() && frames.Taken() == rest + TablesFrom(tables, i)
      {
        TablesStep(tables, i);
        if i in tables {
          frames.FreePage(tables[i]);
          OneLess(rest, tables[i], TablesFrom(tables, i + 1));
        }
        i := i + 1;
      }
      TablesStep(tables, i);
    }
  }

  lemma {:induction false} Takeaway(taken: multiset<nat>, d: nat, x: multiset<nat>)
    requires multiset{d} + x <= taken && taken[d] <= 1
    ensures taken == taken - (multiset{d} + x) + multiset{d} + x && d !in taken - (multiset{d} + x)
  {
  }

  lemma {:induction false} OneLess(m: multiset<nat>, t: nat, x: multiset<nat>)
    ensures m + (multiset{t} + x) - multiset{t} == m + x
  {
  }

  lemma {:induction false} UntouchedElsewhere(mem: Memory, f: nat, c: Content, frames: multiset<nat>)
    requires f !in frames
    ensures Untouched(mem, mem[f := c], frames)
  {
  }

  lemma {:induction false} UntouchedSame(mem: Memory, frames: multiset<nat>)
    ensures Untouched(mem, mem, frames)
  {
  }

  lemma {:induction false} TablesStep(tables: map<nat, nat>, i: nat)
    ensures TablesFrom(tables, i) ==
              if i >= ENTRIES then multiset{}
              else (if i in tables then multiset{tables[i]} else multiset{}) + TablesFrom(tables, i + 1)
  {
  }

  lemma {:induction false} SpaceIs(mem: Memory, d: nat, kernelTables: seq<nat>, pages: set<nat>)
    requires GoodSpace(mem, d, kernelTables, pages)
    ensures IsDirectory(mem, d) && Space(mem, d) == multiset{d} + TablesFrom(mem[d].tables, KERNEL_TABLES)
  {
  }

  lemma {:induction false} FreshSpace(mem: Memory, d: nat, tables: map<nat, nat>, kernelTables: seq<nat>)
    requires |kernelTables| == KERNEL_TABLES
    requires forall i: nat :: (i in tables <==> i < KERNEL_TABLES) && (i in tables ==> tables[i] == kernelTables[i])
    ensures var mem' := mem[d := Directory(tables)];
            GoodSpace(mem', d, kernelTables, {}) && Space(mem', d) == multiset{d} && Compact(mem', d, false) &&
            forall v: nat | PdeIndex(v) >= KERNEL_TABLES :: Translate(mem', d, v).None?
  {
    hide TablesFrom;
    assert forall k: nat | KERNEL_TABLES <= k :: k !in tables;
    NoTables(tables, KERNEL_TABLES);
    var mem' := mem[d := Directory(tables)];
    assert IsDirectory(mem', d) && mem'[d].tables == tables;
  }

  lemma {:induction false} Balance(taken: multiset<nat>, s: multiset<nat>, taken': multiset<nat>, s': multiset<nat>)
    requires s <= taken && s' <= taken' && taken' + s == taken + s'
    ensures taken - s == taken' - s'
  {
    forall f
      ensures (taken - s)[f] == (taken' - s')[f]
    {
      assert (taken' + s)[f] == (taken + s')[f];
    }
  }

  lemma {:induction false} UntouchedTwice(m1: Memory, m2: Memory, m3: Memory, frames: multiset<nat>)
    requires Untouched(m1, m2, frames) && Untouched(m2, m3, frames)
    ensures Untouched(m1, m3, frames)
  {
  }

  /** A frame that is not part of a space and not reserved is none of its tables. */
  lemma {:induction false} FreshTable(mem: Memory, d: nat, kernelTables: seq<nat>, pages: set<nat>, reserved: nat, f: nat)
    requires GoodSpace(mem, d, kernelTables, pages) && f !in Space(mem, d) && f >= reserved && |kernelTables| == KERNEL_TABLES
    requires forall i | 0 <= i < KERNEL_TABLES :: kernelTables[i] < reserved
    ensures forall i | i in mem[d].tables :: mem[d].tables[i] != f
  {
    hide TablesFrom;
    forall i | i in mem[d].tables
      ensures mem[d].tables[i] != f
    {
      if i >= KERNEL_TABLES {
        TableCounted(mem[d].tables, KERNEL_TABLES, i);
      }
    }
  }
}
