/**
 The virtual memory operations of kern/mm/vm.c, over the pages that kalloc and kfree manage.

 `free` is what kalloc has left, `tables` the pages used as page directories and page tables, `data` the
 contents of the others. The ghost field `owner` says what each page in use is for. Every operation is
 stated by what it does to the flat map of every space and to `owner`.
 */
module Vm {
  import opened Common
  import opened PageTable

  const PTE_W: nat := 2
  const PTE_U: nat := 4
  const LIMIT: nat := 0x100000

  /** How many pages a size in bytes takes: PGROUNDUP. */
  function Pages(sz: nat): nat { (sz + 4095) / 4096 }

  /** It is the number of pages that begin below that size. */
  lemma PagesExactly(sz: nat, v: nat)
    ensures v < Pages(sz) <==> v * 4096 < sz
  {
  }

  /** Page v begins at a byte of [lo, hi). */
  predicate Begins(v: nat, lo: nat, hi: nat) { lo <= v * 4096 < hi }

  function ZeroPage(): (p: Page)
    ensures |p| == 4096 && forall i :: 0 <= i < 4096 ==> p[i] == '\0'
  {
    seq(4096, _ => '\0')
  }

  // ---------- what the operations do to the flat map and to the ownership record ----------

  /** The lookups of `m'`, when pages [va, va+k) of `d` are mapped from `pa` on and nothing else changed. */
  ghost predicate MapsTo(m: Mem, m': Mem, d: nat, va: nat, k: nat, pa: nat, perm: nat)
  {
    forall e: nat, v: nat {:trigger Lookup(m', e, v)} :: Owns(m, e, Dir) ==>
      Lookup(m', e, v) == if e == d && va <= v < va + k then Present(pa + (v - va), perm) else Lookup(m, e, v)
  }

  function OwnerAfter(o: Owner, f: nat, d: nat, va: nat, k: nat, pa: nat): Owner
  {
    if o.Loose? && pa <= f < pa + k && va + (f - pa) < KERNPAGE then User(d, va + (f - pa)) else o
  }

  /** The owners in `m'`: the mapped user pages, the others as before, and new tables of `d`. */
  ghost predicate OwnersTo(m: Mem, m': Mem, d: nat, va: nat, k: nat, pa: nat)
  {
    && (forall f :: f in m.owner ==> f in m'.owner && m'.owner[f] == OwnerAfter(m.owner[f], f, d, va, k, pa))
    && (forall f :: f in m'.owner && f !in m.owner ==> Belongs(m'.owner[f], d))
    && (forall f :: f in m.owner && f in m.data ==> f in m'.data && m'.data[f] == m.data[f])
  }

  /** mappages up to its k-th page: the flat map and the owners. */
  ghost predicate Mapped(m: Mem, m': Mem, d: nat, va: nat, k: nat, pa: nat, perm: nat)
  {
    MapsTo(m, m', d, va, k, pa, perm) && OwnersTo(m, m', d, va, k, pa)
  }

  /** Nothing changed but that `d` may have new, empty tables. */
  ghost predicate OnlyTables(m: Mem, m': Mem, d: nat) { Mapped(m, m', d, 0, 0, 0, 0) }

  /** The user pages that mappages is to map are in hand. */
  ghost predicate InHand(m: Mem, va: nat, n: nat, pa: nat)
  {
    forall f: nat :: pa <= f < pa + n && va + (f - pa) < KERNPAGE ==> Owns(m, f, Loose)
  }

  /** No page of [va, va+n) is mapped yet. */
  ghost predicate Unmapped(m: Mem, d: nat, va: nat, n: nat)
  {
    forall v: nat {:trigger Lookup(m, d, v)} :: va <= v < va + n ==> Lookup(m, d, v) == Absent
  }

  // ---------- counting tables ----------

  /** The directory entries that have a table. */
  ghost function Pdes(m: Mem, d: nat): set<nat>
  {
    set i: nat | i < ENTRIES && IsTable(m, d) && m.tables[d][i].Present?
  }

  predicate Between(lo: nat, i: nat, hi: nat) { lo <= i < hi }

  function Range(lo: nat, hi: nat): set<nat> { set i: nat | i < hi && Between(lo, i, hi) }

  lemma {:induction false} RangeSize(lo: nat, hi: nat)
    requires lo <= hi
    ensures |Range(lo, hi)| == hi - lo
    decreases hi
  {
    if lo < hi {
      RangeSize(lo, hi - 1);
      assert Range(lo, hi) == Range(lo, hi - 1) + {hi - 1};
    }
  }

  /** The directory entries that pages [va, va+n) need. */
  function Spans(va: nat, n: nat): set<nat>
  {
    if n == 0 then {} else Range(va / ENTRIES, (va + n - 1) / ENTRIES + 1)
  }

  lemma SpansNext(va: nat, k: nat)
    ensures Spans(va, k + 1) == Spans(va, k) + {(va + k) / ENTRIES}
  {
    var lo, i := va / ENTRIES, (va + k) / ENTRIES;
    if k > 0 {
      var hi := (va + k - 1) / ENTRIES;
      assert hi <= i <= hi + 1;
      assert Range(lo, i + 1) == Range(lo, hi + 1) + {i};
    }
  }

  lemma SpansSize(va: nat, n: nat)
    ensures |Spans(va, n)| == if n == 0 then 0 else (va + n - 1) / ENTRIES + 1 - va / ENTRIES
  {
    if n > 0 {
      RangeSize(va / ENTRIES, (va + n - 1) / ENTRIES + 1);
    }
  }

  /** The tables that must be made to map pages [va, va+n) of `d`. */
  ghost function NewTables(m: Mem, d: nat, va: nat, n: nat): set<nat> { Spans(va, n) - Pdes(m, d) }

  /** How many of the tables are made, of those that the first `k` pages need. */
  lemma TablesNext(m0: Mem, pdes: set<nat>, d: nat, va: nat, k: nat)
    requires pdes == Pdes(m0, d) + Spans(va, k)
    ensures |NewTables(m0, d, va, k + 1)| == |NewTables(m0, d, va, k)| + (if (va + k) / ENTRIES in pdes then 0 else 1)
    ensures pdes + {(va + k) / ENTRIES} == Pdes(m0, d) + Spans(va, k + 1)
  {
    SpansNext(va, k);
    hide Spans, Pdes;
    var i := (va + k) / ENTRIES;
    if i in pdes {
      assert NewTables(m0, d, va, k + 1) == NewTables(m0, d, va, k);
    } else {
      assert NewTables(m0, d, va, k + 1) == NewTables(m0, d, va, k) + {i};
    }
  }

  lemma TablesGrow(m0: Mem, d: nat, va: nat, k: nat, n: nat)
    requires k <= n
    ensures |NewTables(m0, d, va, k)| <= |NewTables(m0, d, va, n)|
  {
    assert Spans(va, k) <= Spans(va, n);
    hide Spans, Pdes;
    SubsetSize(NewTables(m0, d, va, k), NewTables(m0, d, va, n));
  }

  lemma SameDir(m: Mem, m': Mem, d: nat)
    requires IsTable(m, d) && IsTable(m', d) && m'.tables[d] == m.tables[d]
    ensures Pdes(m', d) == Pdes(m, d)
  {
  }

  lemma MappedThenTables(m0: Mem, m1: Mem, m2: Mem, d: nat, va: nat, k: nat, pa: nat, perm: nat)
    requires Mapped(m0, m1, d, va, k, pa, perm) && OnlyTables(m1, m2, d)
    ensures Mapped(m0, m2, d, va, k, pa, perm)
  {
    hide Lookup;
  }

  /** What is still to be mapped is as it was, and the directory is still one. */
  lemma MappedAhead(m0: Mem, m: Mem, d: nat, va: nat, k: nat, pa: nat, perm: nat, v: nat)
    requires Mapped(m0, m, d, va, k, pa, perm) && Owns(m0, d, Dir) && va + k <= v
    ensures Owns(m, d, Dir) && Lookup(m, d, v) == Lookup(m0, d, v)
  {
    hide Lookup;
  }

  lemma MappedNothing(m: Mem, d: nat, va: nat, pa: nat, perm: nat)
    ensures Mapped(m, m, d, va, 0, pa, perm)
  {
    hide Lookup;
  }

  lemma CanMap(m: Mem, va: nat, n: nat, pa: nat, v: nat)
    requires InHand(m, va, n, pa) && va <= v < va + n
    ensures v < KERNPAGE ==> Owns(m, pa + (v - va), Loose)
  {
  }

  lemma UnmappedNext(m: Mem, d: nat, va: nat, k: nat)
    requires Unmapped(m, d, va, k)
    ensures Lookup(m, d, va + k) == Absent ==> Unmapped(m, d, va, k + 1)
    ensures Unmapped(m, d, va, 0)
  {
    hide Lookup;
  }

  /** One more user page. */
  lemma MapUserNext(m0: Mem, m: Mem, frames: set<nat>, d: nat, va: nat, k: nat, pa: nat, perm: nat, t: nat)
    requires Ok(m, frames) && Mapped(m0, m, d, va, k, pa, perm) && Owns(m0, d, Dir) && Owns(m0, pa + k, Loose)
    requires va + k < KERNPAGE && Lookup(m0, d, va + k) == Absent && Owns(m, t, Table(d, (va + k) / ENTRIES))
    requires IsTable(m, t)
    ensures Ok(MapUser(m, d, (va + k) / ENTRIES, (va + k) % ENTRIES, t, pa + k, perm), frames)
    ensures Mapped(m0, MapUser(m, d, (va + k) / ENTRIES, (va + k) % ENTRIES, t, pa + k, perm), d, va, k + 1, pa, perm)
  {
    var i, j := (va + k) / ENTRIES, (va + k) % ENTRIES;
    TableLookup(m, frames, d, i, t, j);
    assert i * ENTRIES + j == va + k;
    MapUserOk(m, frames, d, i, j, t, pa + k, perm);
    hide Lookup, Ok;
  }

  /** One more kernel page. */
  lemma MapKernelNext(m0: Mem, m: Mem, frames: set<nat>, d: nat, va: nat, k: nat, pa: nat, perm: nat, t: nat)
    requires Ok(m, frames) && Mapped(m0, m, d, va, k, pa, perm) && Owns(m0, d, Dir)
    requires KERNPAGE <= va + k < LIMIT && Owns(m, t, Table(d, (va + k) / ENTRIES)) && IsTable(m, t)
    ensures Ok(SetPte(m, t, (va + k) % ENTRIES, Present(pa + k, perm)), frames)
    ensures Mapped(m0, SetPte(m, t, (va + k) % ENTRIES, Present(pa + k, perm)), d, va, k + 1, pa, perm)
  {
    var i, j := (va + k) / ENTRIES, (va + k) % ENTRIES;
    assert i * ENTRIES + j == va + k;
    MapKernelOk(m, frames, d, i, j, t, Present(pa + k, perm));
    hide Lookup, Ok;
  }

  predicate UserIn(o: Owner, d: nat, lo: nat, hi: nat) { o.User? && o.dir == d && lo <= o.vpn < hi }

  /** deallocuvm over pages [lo, hi) of `d`: they are absent and their pages free; nothing else changed. */
  ghost predicate Cleared(m: Mem, m': Mem, d: nat, lo: nat, hi: nat)
  {
    && (forall e: nat, v: nat {:trigger Lookup(m', e, v)} :: Owns(m, e, Dir) ==>
         Lookup(m', e, v) == if e == d && lo <= v < hi then Absent else Lookup(m, e, v))
    && (forall f :: f in m'.owner <==> f in m.owner && !UserIn(m.owner[f], d, lo, hi))
    && (forall f :: f in m'.owner ==> m'.owner[f] == m.owner[f])
    && m'.data == m.data
  }

  lemma Owned(m: Mem, frames: set<nat>, f: nat)
    requires Ok(m, frames) && f in m.owner
    ensures f in frames && f !in m.free
  {
  }

  /** Where the directory has no table, the whole stretch of the entry is absent. */
  lemma NoTable(m: Mem, d: nat, a: nat)
    requires IsTable(m, d) && a / ENTRIES < ENTRIES && m.tables[d][a / ENTRIES] == Absent
    ensures forall v :: a <= v < (a / ENTRIES + 1) * ENTRIES ==> Lookup(m, d, v) == Absent
  {
    forall v: nat | a <= v < (a / ENTRIES + 1) * ENTRIES ensures Lookup(m, d, v) == Absent {
      assert v / ENTRIES == a / ENTRIES;
    }
  }

  lemma NextEntry(a: nat)
    requires a < KERNPAGE
    ensures a / ENTRIES < ENTRIES && a < (a / ENTRIES + 1) * ENTRIES
  {
  }

  lemma ClearedNothing(m: Mem, d: nat, lo: nat, hi: nat)
    ensures Cleared(m, m, d, lo, lo) && (hi <= lo ==> Cleared(m, m, d, lo, hi))
  {
    hide Lookup;
  }

  lemma ClearedDir(m: Mem, m': Mem, d: nat, lo: nat, hi: nat)
    requires Cleared(m, m', d, lo, hi) && Owns(m, d, Dir)
    ensures Owns(m', d, Dir)
  {
    hide Lookup;
  }

  lemma SkipAbsent(m0: Mem, m: Mem, frames: set<nat>, d: nat, lo: nat, a: nat, b: nat)
    requires Ok(m, frames) && Owns(m0, d, Dir) && Cleared(m0, m, d, lo, a) && lo <= a <= b
    requires forall v :: a <= v < b ==> Lookup(m, d, v) == Absent
    ensures Cleared(m0, m, d, lo, b)
  {
    hide Lookup;
    forall f | f in m.owner ensures !UserIn(m.owner[f], d, lo, b) {
      assert FrameOk(m, f);
    }
  }

  lemma UnmapNext(m0: Mem, m: Mem, frames: set<nat>, d: nat, lo: nat, a: nat, t: nat)
    requires Ok(m, frames) && Owns(m0, d, Dir) && Cleared(m0, m, d, lo, a) && lo <= a < KERNPAGE
    requires Owns(m, t, Table(d, a / ENTRIES)) && IsTable(m, t) && m.tables[t][a % ENTRIES].Present?
    ensures Owns(m, m.tables[t][a % ENTRIES].frame, User(d, a))
    ensures Ok(Unmap(m, t, a % ENTRIES), frames) && Cleared(m0, Unmap(m, t, a % ENTRIES), d, lo, a + 1)
  {
    var i, j := a / ENTRIES, a % ENTRIES;
    assert i * ENTRIES + j == a;
    UnmapOk(m, frames, d, i, j, t);
    hide Lookup;
    var m' := Unmap(m, t, j);
    forall f | f in m.owner && f != m.tables[t][j].frame ensures !UserIn(m.owner[f], d, lo, a + 1) {
      assert FrameOk(m, f);
    }
  }

  /** The pages that make up the address space of `d`. */
  predicate PageOf(f: nat, o: Owner, d: nat)
  {
    f == d || ((o.Table? || o.User?) && o.dir == d)
  }

  /** freevm: exactly the pages of `d` are given back, and the other spaces are as they were. */
  ghost predicate Freed(m: Mem, m': Mem, d: nat)
  {
    && (forall f :: f in m'.owner <==> f in m.owner && !PageOf(f, m.owner[f], d))
    && (forall f :: f in m'.owner ==> m'.owner[f] == m.owner[f])
    && m'.data == m.data
    && (forall e: nat, v: nat {:trigger Lookup(m', e, v)} :: Owns(m, e, Dir) && e != d ==> Lookup(m', e, v) == Lookup(m, e, v))
  }

  predicate TableBelow(o: Owner, d: nat, i: nat) { o.Table? && o.dir == d && o.pdx < i }

  /** freevm's loop before entry i: the first i tables are free again. */
  ghost predicate Dropping(m: Mem, m': Mem, frames: set<nat>, d: nat, i: nat)
  {
    && m'.tables == m.tables && m'.data == m.data && m'.free == frames - m'.owner.Keys
    && (forall f :: f in m'.owner <==> f in m.owner && !TableBelow(m.owner[f], d, i))
    && (forall f :: f in m'.owner ==> m'.owner[f] == m.owner[f])
  }

  lemma IsDir(m: Mem, frames: set<nat>, d: nat)
    requires Ok(m, frames) && Owns(m, d, Dir)
    ensures IsTable(m, d)
  {
    assert FrameOk(m, d);
  }

  lemma DropStart(m: Mem, frames: set<nat>, d: nat)
    requires Ok(m, frames)
    ensures Dropping(m, m, frames, d, 0)
  {
  }

  /** At entry i, the table there is still in use, so it is freed only once. */
  lemma DropNext(m: Mem, m': Mem, frames: set<nat>, d: nat, i: nat)
    requires Ok(m, frames) && Owns(m, d, Dir) && IsTable(m, d) && i < ENTRIES && Dropping(m, m', frames, d, i)
    ensures m.tables[d][i] == Absent ==> Dropping(m, m', frames, d, i + 1)
    ensures m.tables[d][i].Present? ==> m.tables[d][i].frame in m'.owner
    ensures m.tables[d][i].Present? ==> Dropping(m, Release(m', m.tables[d][i].frame), frames, d, i + 1)
  {
    hide Lookup;
    assert FrameOk(m, d) && PdeOk(m, d, i, m.tables[d][i]);
    forall f | f in m.owner && m.owner[f] == Table(d, i) ensures m.tables[d][i].Present? && m.tables[d][i].frame == f {
      assert FrameOk(m, f);
    }
    if m.tables[d][i].Present? {
      assert Release(m', m.tables[d][i].frame).owner.Keys == m'.owner.Keys - {m.tables[d][i].frame};
    }
  }

  lemma DropEnd(m0: Mem, m: Mem, m': Mem, frames: set<nat>, d: nat)
    requires Ok(m0, frames) && Ok(m, frames) && Owns(m0, d, Dir) && Cleared(m0, m, d, 0, KERNPAGE)
    requires Dropping(m, m', frames, d, ENTRIES)
    ensures d in m'.owner && Ok(Release(m', d), frames) && Freed(m0, Release(m', d), d)
  {
    hide Lookup;
    var m'' := Release(m', d);
    assert m''.owner.Keys == m'.owner.Keys - {d};
    forall f | f in m.owner && m.owner[f].Table? ensures m.owner[f].pdx < ENTRIES {
      assert FrameOk(m, f);
    }
    forall f | f in m0.owner && m0.owner[f].User? ensures m0.owner[f].vpn < KERNPAGE {
      assert FrameOk(m0, f);
    }
    DropDirOk(m, m'', frames, d);
    forall e: nat, v: nat ensures Lookup(m'', e, v) == Lookup(m, e, v) {
      LookupSame(m, m'', e);
    }
  }

  // ---------- the kernel's part of every page table ----------

  datatype Kmap = Kmap(virt: nat, phys: nat, count: nat, perm: nat)

  /** The table kmap, given the page where the kernel's data begins. */
  function KernelMap(data: nat): (ks: seq<Kmap>)
    requires 0x80100 < data < 0x8E000
    ensures |ks| == 4
  {
    [ Kmap(0x80000, 0, 0x100, PTE_W),
      Kmap(0x80100, 0x100, data - 0x80100, 0),
      Kmap(data, data - 0x80000, 0x8E000 - data, PTE_W),
      Kmap(0xFE000, 0xFE000, 0x2000, PTE_W) ]
  }

  predicate Within(k: Kmap, v: nat) { k.virt <= v < k.virt + k.count }

  function KernelPte(ks: seq<Kmap>, v: nat): Pte
  {
    if ks == [] then Absent
    else if Within(ks[|ks| - 1], v) then Present(ks[|ks| - 1].phys + (v - ks[|ks| - 1].virt), ks[|ks| - 1].perm)
    else KernelPte(ks[..|ks| - 1], v)
  }

  lemma KernelPrefix(ks: seq<Kmap>, i: nat, v: nat)
    requires i < |ks|
    ensures ks[..i + 1][..i] == ks[..i] && KernelPte(ks[..0], v) == Absent
    ensures KernelPte(ks[..i + 1], v) ==
              if Within(ks[i], v) then Present(ks[i].phys + (v - ks[i].virt), ks[i].perm) else KernelPte(ks[..i], v)
  {
    assert ks[..i + 1][..i] == ks[..i];
  }

  /** The directory entries that a kernel map needs. */
  function KernelPdes(ks: seq<Kmap>): set<nat>
  {
    if ks == [] then {} else KernelPdes(ks[..|ks| - 1]) + Spans(ks[|ks| - 1].virt, ks[|ks| - 1].count)
  }

  lemma PdesPrefix(ks: seq<Kmap>, i: nat)
    requires i < |ks|
    ensures KernelPdes(ks[..i + 1]) == KernelPdes(ks[..i]) + Spans(ks[i].virt, ks[i].count) && KernelPdes(ks[..0]) == {}
  {
    assert ks[..i + 1][..i] == ks[..i];
  }

  lemma {:induction false} PdesGrow(ks: seq<Kmap>, i: nat)
    requires i <= |ks|
    ensures KernelPdes(ks[..i]) <= KernelPdes(ks)
    decreases |ks|
  {
    hide Spans;
    if i == |ks| {
      assert ks[..i] == ks;
    } else {
      PdesGrow(ks[..|ks| - 1], i);
      assert ks[..|ks| - 1][..i] == ks[..i];
    }
  }

  lemma KernelPdesAre(data: nat)
    requires 0x80100 < data < 0x8E000
    ensures KernelPdes(KernelMap(data)) == Spans(0x80000, 0xE000) + Spans(0xFE000, 0x2000)
  {
    hide Spans;
    var ks := KernelMap(data);
    PdesPrefix(ks, 0);
    PdesPrefix(ks, 1);
    PdesPrefix(ks, 2);
    PdesPrefix(ks, 3);
    assert ks[..4] == ks;
    KernelSpans(data);
  }

  /** The kernel's part takes 56 tables for the physical memory and 8 for the devices. */
  lemma KernelTables(data: nat, i: nat)
    requires 0x80100 < data < 0x8E000 && i <= 4
    ensures |KernelPdes(KernelMap(data))| == 64 && |KernelPdes(KernelMap(data)[..i])| <= 64
    ensures forall j :: j in KernelPdes(KernelMap(data)) ==> KERNPAGE / ENTRIES <= j
  {
    hide KernelPdes, KernelMap;
    KernelPdesAre(data);
    var low, high := Spans(0x80000, 0xE000), Spans(0xFE000, 0x2000);
    SpansSize(0x80000, 0xE000);
    SpansSize(0xFE000, 0x2000);
    assert low !! high;
    PdesGrow(KernelMap(data), i);
    SubsetSize(KernelPdes(KernelMap(data)[..i]), KernelPdes(KernelMap(data)));
  }

  lemma KernelSpans(data: nat)
    requires 0x80100 < data < 0x8E000
    ensures Spans(0x80000, 0x100) + Spans(0x80100, data - 0x80100) + Spans(data, 0x8E000 - data) == Spans(0x80000, 0xE000)
  {
  }

  /** What a fresh space sees: the low physical memory from KERNBASE on, the devices, and no user page. */
  lemma KernelView(data: nat, v: nat)
    requires 0x80100 < data < 0x8E000
    ensures v < KERNPAGE ==> KernelPte(KernelMap(data), v) == Absent
    ensures KERNPAGE <= v < 0x8E000 ==>
              KernelPte(KernelMap(data), v) == Present(v - KERNPAGE, if 0x80100 <= v < data then 0 else PTE_W)
    ensures 0x8E000 <= v < 0xFE000 ==> KernelPte(KernelMap(data), v) == Absent
    ensures 0xFE000 <= v < LIMIT ==> KernelPte(KernelMap(data), v) == Present(v, PTE_W)
  {
    var ks := KernelMap(data);
    KernelPrefix(ks, 0, v);
    KernelPrefix(ks, 1, v);
    KernelPrefix(ks, 2, v);
    KernelPrefix(ks, 3, v);
    assert ks[..4] == ks;
  }

  lemma KernelEntry(data: nat, i: nat)
    requires 0x80100 < data < 0x8E000 && i < 4
    ensures var k := KernelMap(data)[i]; KERNPAGE <= k.virt && 0 < k.count && k.virt + k.count <= LIMIT
    ensures forall v :: Within(KernelMap(data)[i], v) ==> KernelPte(KernelMap(data)[..i], v) == Absent
  {
    var ks := KernelMap(data);
    forall v: nat ensures Within(ks[i], v) ==> KernelPte(ks[..i], v) == Absent {
      KernelPrefix(ks, 0, v);
      KernelPrefix(ks, 1, v);
      KernelPrefix(ks, 2, v);
      KernelPrefix(ks, 3, v);
    }
  }

  /** A new space `d` beside those of `m`, made of pages that `m` did not use. */
  ghost predicate Built(m: Mem, m': Mem, d: nat)
  {
    && d !in m.owner && Owns(m', d, Dir)
    && (forall f :: f in m.owner ==> f in m'.owner && m'.owner[f] == m.owner[f])
    && (forall f :: f in m'.owner && f !in m.owner ==> PageOf(f, m'.owner[f], d))
    && (forall f :: f in m.owner && f in m.data ==> f in m'.data && m'.data[f] == m.data[f])
    && (forall e: nat, v: nat {:trigger Lookup(m', e, v)} :: Owns(m, e, Dir) ==> Lookup(m', e, v) == Lookup(m, e, v))
  }

  /** A failed operation: allocator, owners, owned pages and flat maps are all as before. */
  ghost predicate Restored(m: Mem, m': Mem)
  {
    && m'.owner == m.owner && m'.free == m.free
    && (forall f :: f in m.owner && f in m.data ==> f in m'.data && m'.data[f] == m.data[f])
    && (forall e: nat, v: nat {:trigger Lookup(m', e, v)} :: Owns(m, e, Dir) ==> Lookup(m', e, v) == Lookup(m, e, v))
  }

  lemma BuiltThenMapped(m0: Mem, m1: Mem, m2: Mem, d: nat, va: nat, k: nat, pa: nat, perm: nat)
    requires Built(m0, m1, d) && Mapped(m1, m2, d, va, k, pa, perm) && KERNPAGE <= va
    ensures Built(m0, m2, d)
  {
    hide Lookup;
  }

  lemma BuiltThenFreed(m0: Mem, m1: Mem, m2: Mem, frames: set<nat>, d: nat)
    requires Ok(m0, frames) && Ok(m2, frames) && Built(m0, m1, d) && Freed(m1, m2, d)
    ensures Restored(m0, m2)
  {
    hide Lookup;
    forall f | f in m0.owner ensures !PageOf(f, m0.owner[f], d) {
      assert FrameOk(m0, f);
    }
    assert m2.owner.Keys == m0.owner.Keys;
  }

  // ---------- user pages ----------

  /** What a user page should be: its permissions and its contents. */
  datatype Want = Want(perm: nat, page: Page)

  /** Page v of `d` is what is wanted, on a page that `m` did not use. */
  ghost predicate Fresh(m: Mem, m': Mem, d: nat, lo: nat, img: seq<Want>, v: nat)
  {
    var e := Lookup(m', d, v);
    && lo <= v < lo + |img| && e.Present? && e.perm == img[v - lo].perm
    && e.frame !in m.owner && Owns(m', e.frame, User(d, v)) && e.frame in m'.data && m'.data[e.frame] == img[v - lo].page
  }

  ghost predicate GrownMap(m: Mem, m': Mem, d: nat, lo: nat, k: nat, img: seq<Want>)
  {
    && k <= |img|
    && (forall v: nat {:trigger Fresh(m, m', d, lo, img, v)} :: lo <= v < lo + k ==> Fresh(m, m', d, lo, img, v))
    && (forall e: nat, v: nat {:trigger Lookup(m', e, v)} :: Owns(m, e, Dir) && !(e == d && lo <= v < lo + k) ==>
         Lookup(m', e, v) == Lookup(m, e, v))
  }

  /** Pages [lo, lo+k) of `d` were added; `hand` is what the running function still holds. */
  ghost predicate Grown(m: Mem, m': Mem, d: nat, lo: nat, k: nat, img: seq<Want>, hand: set<nat>)
  {
    && GrownMap(m, m', d, lo, k, img)
    && (forall f :: f in m.owner ==> f in m'.owner && m'.owner[f] == m.owner[f])
    && (forall f :: f in m'.owner && f !in m.owner ==> f in hand || Belongs(m'.owner[f], d) || UserIn(m'.owner[f], d, lo, lo + k))
    && (forall f :: f in m.owner && f in m.data ==> f in m'.data && m'.data[f] == m.data[f])
    && (forall f :: f in hand ==> f !in m.owner && Owns(m', f, Loose))
  }

  function ZeroPages(n: nat): seq<Want> { seq(n, _ => Want(PTE_W + PTE_U, ZeroPage())) }

  lemma ZeroPagesAt(n: nat, k: nat)
    requires k < n
    ensures |ZeroPages(n)| == n && ZeroPages(n)[k] == Want(PTE_W + PTE_U, ZeroPage())
  {
  }

  lemma GrownNothing(m: Mem, d: nat, lo: nat, img: seq<Want>)
    ensures Grown(m, m, d, lo, 0, img, {})
  {
  }

  lemma GrownOutside(m0: Mem, m: Mem, d: nat, lo: nat, k: nat, img: seq<Want>, v: nat)
    requires Owns(m0, d, Dir) && GrownMap(m0, m, d, lo, k, img) && !(lo <= v < lo + k)
    ensures Lookup(m, d, v) == Lookup(m0, d, v)
  {
  }

  lemma GrownAbove(m0: Mem, m: Mem, d: nat, k: nat, img: seq<Want>, v: nat)
    requires Owns(m0, d, Dir) && Grown(m0, m, d, 0, k, img, {}) && k <= v
    ensures Lookup(m, d, v) == Lookup(m0, d, v)
  {
    hide Lookup;
  }

  lemma BuiltDir(m: Mem, m': Mem, d: nat)
    requires Built(m, m', d)
    ensures Owns(m', d, Dir)
  {
    hide Lookup;
  }

  lemma FreeUnowned(m: Mem, frames: set<nat>, f: nat)
    requires Ok(m, frames) && f in m.free
    ensures f !in m.owner
  {
  }

  lemma GrownTake(m0: Mem, m: Mem, frames: set<nat>, d: nat, lo: nat, k: nat, img: seq<Want>, f: nat, p: Page)
    requires Ok(m, frames) && Owns(m0, d, Dir) && Grown(m0, m, d, lo, k, img, {}) && f in m.free
    ensures Grown(m0, Kalloc(m, f, p), d, lo, k, img, {f})
  {
    hide Lookup, Ok;
    var m' := Kalloc(m, f, p);
    KallocOk(m, frames, f, p);
    FreeUnowned(m, frames, f);
    forall v: nat | lo <= v < lo + k ensures Fresh(m0, m', d, lo, img, v) {
      assert Fresh(m0, m, d, lo, img, v);
    }
  }

  lemma GrownTables(m0: Mem, m: Mem, m': Mem, d: nat, lo: nat, k: nat, img: seq<Want>, f: nat)
    requires Owns(m0, d, Dir) && Grown(m0, m, d, lo, k, img, {f}) && OnlyTables(m, m', d)
    ensures Grown(m0, m', d, lo, k, img, {f})
  {
    hide Lookup;
    forall v: nat | lo <= v < lo + k ensures Fresh(m0, m', d, lo, img, v) {
      assert Fresh(m0, m, d, lo, img, v);
    }
  }

  lemma GrownNext(m0: Mem, m: Mem, m': Mem, d: nat, lo: nat, k: nat, img: seq<Want>, f: nat)
    requires Owns(m0, d, Dir) && Grown(m0, m, d, lo, k, img, {f}) && k < |img| && lo + k < KERNPAGE
    requires Mapped(m, m', d, lo + k, 1, f, img[k].perm) && f in m.data && m.data[f] == img[k].page
    ensures Grown(m0, m', d, lo, k + 1, img, {})
  {
    hide Lookup;
    forall v: nat | lo <= v < lo + k + 1 ensures Fresh(m0, m', d, lo, img, v) {
      if v < lo + k {
        assert Fresh(m0, m, d, lo, img, v);
      }
    }
  }

  /** Giving the added pages back leaves only tables behind. */
  lemma GrownUndo(m0: Mem, m: Mem, m1: Mem, m2: Mem, frames: set<nat>, d: nat, lo: nat, k: nat, hi: nat, img: seq<Want>, hand: set<nat>)
    requires Ok(m0, frames) && Owns(m0, d, Dir) && lo + k <= hi && Unmapped(m0, d, lo, hi - lo)
    requires Grown(m0, m, d, lo, k, img, hand) && Cleared(m, m1, d, lo, hi)
    requires m2.tables == m1.tables && m2.data == m1.data && m2.owner == m1.owner - hand
    ensures OnlyTables(m0, m2, d)
  {
    hide Lookup;
    forall e: nat, v: nat ensures Lookup(m2, e, v) == Lookup(m1, e, v) {
      LookupSame(m1, m2, e);
    }
    forall f | f in m0.owner ensures !UserIn(m0.owner[f], d, lo, hi) {
      assert FrameOk(m0, f);
    }
  }

  /** The first n pages of a space, as its owner sees them. */
  function ImageOf(m: Mem, d: nat, n: nat): (img: seq<Want>)
    ensures |img| == n
  {
    seq(n, v requires 0 <= v => WantAt(m, d, v))
  }

  function WantAt(m: Mem, d: nat, v: nat): Want
  {
    match Lookup(m, d, v)
    case Absent => Want(0, [])
    case Present(f, perm) => Want(perm, if f in m.data then m.data[f] else [])
  }

  lemma ImageAt(m: Mem, d: nat, n: nat, v: nat)
    requires v < n
    ensures |ImageOf(m, d, n)| == n && ImageOf(m, d, n)[v] == WantAt(m, d, v)
  {
  }

  /** The pages below n are mapped and the user pages from n on are not. */
  ghost predicate Sized(m: Mem, d: nat, n: nat)
  {
    forall v: nat :: v < KERNPAGE ==> (Lookup(m, d, v).Present? <==> v < n)
  }

  /** A copied space shows the same pages, on pages of its own. */
  lemma CopySees(m: Mem, m': Mem, c: nat, n: nat, img: seq<Want>)
    requires Grown(m, m', c, 0, n, img, {}) && n == |img|
    ensures ImageOf(m', c, n) == img
  {
    hide Lookup;
    forall v: nat | v < n ensures ImageOf(m', c, n)[v] == img[v] {
      assert Fresh(m, m', c, 0, img, v);
    }
  }

  /** A space below KERNPAGE has user pages of its own where it is mapped. */
  lemma UserEntry(m: Mem, frames: set<nat>, d: nat, v: nat)
    requires Ok(m, frames) && Owns(m, d, Dir) && v < KERNPAGE && Lookup(m, d, v).Present?
    ensures IsTable(m, d) && m.tables[d][v / ENTRIES].Present? && Owns(m, Lookup(m, d, v).frame, User(d, v))
    ensures Lookup(m, d, v).frame in m.data
  {
    assert FrameOk(m, d) && PdeOk(m, d, v / ENTRIES, m.tables[d][v / ENTRIES]);
    var t := m.tables[d][v / ENTRIES].frame;
    assert FrameOk(m, t) && PteOk(m, d, v / ENTRIES * ENTRIES + v % ENTRIES, m.tables[t][v % ENTRIES]);
    assert FrameOk(m, m.tables[t][v % ENTRIES].frame);
  }

  lemma BuiltThenGrown(m0: Mem, m1: Mem, m2: Mem, d: nat, k: nat, img: seq<Want>)
    requires Built(m0, m1, d) && Grown(m1, m2, d, 0, k, img, {})
    ensures Built(m0, m2, d)
  {
    hide Lookup;
  }

  /** The pages of the parent are still what they were, so the copy takes the right contents. */
  lemma SourceKept(m0: Mem, m: Mem, frames: set<nat>, c: nat, d: nat, v: nat)
    requires Ok(m0, frames) && Built(m0, m, c) && Owns(m0, d, Dir) && v < KERNPAGE && Lookup(m0, d, v).Present?
    ensures Owns(m, d, Dir) && Lookup(m, d, v) == Lookup(m0, d, v) && WantAt(m, d, v) == WantAt(m0, d, v)
    ensures Lookup(m, d, v).frame in m.data
  {
    UserEntry(m0, frames, d, v);
  }

  lemma WantPage(m: Mem, d: nat, v: nat)
    requires Lookup(m, d, v).Present? && Lookup(m, d, v).frame in m.data
    ensures WantAt(m, d, v) == Want(Lookup(m, d, v).perm, m.data[Lookup(m, d, v).frame])
  {
  }

  lemma GrownDrop(m0: Mem, m: Mem, d: nat, lo: nat, k: nat, img: seq<Want>, f: nat)
    requires Owns(m0, d, Dir) && Grown(m0, m, d, lo, k, img, {f})
    ensures Grown(m0, Release(m, f), d, lo, k, img, {}) && Owns(m, f, Loose)
  {
    hide Lookup;
    var m' := Release(m, f);
    forall e: nat, v: nat ensures Lookup(m', e, v) == Lookup(m, e, v) {
      LookupSame(m, m', e);
    }
    forall v: nat | lo <= v < lo + k ensures Fresh(m0, m', d, lo, img, v) {
      assert Fresh(m0, m, d, lo, img, v);
    }
  }

  lemma SizedGrows(m: Mem, m': Mem, d: nat, lo: nat, k: nat, img: seq<Want>)
    requires Owns(m, d, Dir) && Sized(m, d, lo) && Grown(m, m', d, lo, k, img, {})
    ensures Sized(m', d, lo + k)
  {
    hide Lookup;
    forall v: nat | v < KERNPAGE ensures Lookup(m', d, v).Present? <==> v < lo + k {
      if lo <= v < lo + k {
        assert Fresh(m, m', d, lo, img, v);
      }
    }
  }

  lemma SizedShrinks(m: Mem, m': Mem, d: nat, lo: nat, n: nat)
    requires Owns(m, d, Dir) && Sized(m, d, n) && Cleared(m, m', d, lo, n)
    ensures Sized(m', d, Min(lo, n))
  {
    hide Lookup;
  }

  // ---------- the same by byte addresses ----------

  /** Page v of `d` is zeroed memory that its process may write, on a page that `m` did not use. */
  ghost predicate NewZero(m: Mem, m': Mem, d: nat, v: nat)
  {
    var e := Lookup(m', d, v);
    && e.Present? && e.perm == PTE_W + PTE_U && e.frame !in m.owner && e.frame in m'.data
    && |m'.data[e.frame]| == 4096 && forall i :: 0 <= i < 4096 ==> m'.data[e.frame][i] == '\0'
  }

  /** Exactly the pages that begin in [oldsz, newsz) were added to `d`. */
  ghost predicate Added(m: Mem, m': Mem, d: nat, oldsz: nat, newsz: nat)
  {
    forall v: nat {:trigger Lookup(m', d, v)} ::
      if Begins(v, oldsz, newsz) then Lookup(m, d, v) == Absent && NewZero(m, m', d, v) else Lookup(m', d, v) == Lookup(m, d, v)
  }

  lemma GrownAdds(m: Mem, m': Mem, d: nat, oldsz: nat, newsz: nat)
    requires Owns(m, d, Dir) && oldsz <= newsz
    requires var lo, n := Pages(oldsz), Pages(newsz) - Pages(oldsz);
             n >= 0 && Unmapped(m, d, lo, n) && Grown(m, m', d, lo, n, ZeroPages(n), {})
    ensures Added(m, m', d, oldsz, newsz)
  {
    hide Lookup;
    var lo, n := Pages(oldsz), Pages(newsz) - Pages(oldsz);
    forall v: nat ensures if Begins(v, oldsz, newsz) then Lookup(m, d, v) == Absent && NewZero(m, m', d, v) else Lookup(m', d, v) == Lookup(m, d, v) {
      PagesExactly(oldsz, v);
      PagesExactly(newsz, v);
      if Begins(v, oldsz, newsz) {
        ZeroPagesAt(n, v - lo);
        assert Fresh(m, m', d, lo, ZeroPages(n), v);
      } else {
        GrownOutside(m, m', d, lo, n, ZeroPages(n), v);
      }
    }
  }

  /** Every byte that a process gained has a page, if the page in which its memory ended had one. */
  lemma AddedBytes(m: Mem, m': Mem, d: nat, oldsz: nat, newsz: nat, a: nat)
    requires Added(m, m', d, oldsz, newsz) && oldsz <= a < newsz
    requires oldsz % 4096 == 0 || Lookup(m, d, oldsz / 4096).Present?
    ensures Lookup(m', d, a / 4096).Present?
  {
    hide Lookup;
    var v := a / 4096;
    if !Begins(v, oldsz, newsz) {
      assert v == oldsz / 4096;
    }
  }

  /** Exactly the pages that begin in [newsz, oldsz) were taken from `d`. */
  ghost predicate Removed(m: Mem, m': Mem, d: nat, newsz: nat, oldsz: nat)
  {
    forall v: nat {:trigger Lookup(m', d, v)} :: Lookup(m', d, v) == if Begins(v, newsz, oldsz) then Absent else Lookup(m, d, v)
  }

  lemma ClearedRemoves(m: Mem, m': Mem, d: nat, newsz: nat, oldsz: nat)
    requires Owns(m, d, Dir) && Cleared(m, m', d, Pages(newsz), Pages(oldsz))
    ensures Removed(m, m', d, newsz, oldsz)
  {
    hide Lookup;
    forall v: nat ensures Lookup(m', d, v) == if Begins(v, newsz, oldsz) then Absent else Lookup(m, d, v) {
      PagesExactly(oldsz, v);
      PagesExactly(newsz, v);
    }
  }

  /** The page of the last byte kept is kept, and the page of every byte beyond its end is gone. */
  lemma RemovedBytes(m: Mem, m': Mem, d: nat, newsz: nat, oldsz: nat, a: nat)
    requires Removed(m, m', d, newsz, oldsz) && newsz < oldsz
    ensures a < newsz ==> Lookup(m', d, a / 4096) == Lookup(m, d, a / 4096)
    ensures newsz + 4095 <= a < oldsz ==> Lookup(m', d, a / 4096) == Absent
  {
    hide Lookup;
    assert a / 4096 * 4096 <= a < a / 4096 * 4096 + 4096;
  }

  /** Page v of `c` shows what page v of `d` showed, with its permissions, on a page that `m` did not use. */
  ghost predicate SamePage(m: Mem, m': Mem, d: nat, c: nat, v: nat)
  {
    var e, e' := Lookup(m, d, v), Lookup(m', c, v);
    && e.Present? && e'.Present? && e'.perm == e.perm && e'.frame !in m.owner
    && e.frame in m.data && e'.frame in m'.data && m'.data[e'.frame] == m.data[e.frame]
  }

  /** Exactly the pages that begin below `sz` are in `c` beside those of the kernel. */
  ghost predicate Copied(m: Mem, m': Mem, d: nat, c: nat, sz: nat, data: nat)
    requires 0x80100 < data < 0x8E000
  {
    forall v: nat {:trigger Lookup(m', c, v)} ::
      if Begins(v, 0, sz) then SamePage(m, m', d, c, v) else Lookup(m', c, v) == KernelPte(KernelMap(data), v)
  }

  lemma GrownSame(m0: Mem, m1: Mem, m: Mem, frames: set<nat>, d: nat, c: nat, n: nat, v: nat)
    requires Ok(m0, frames) && Owns(m0, d, Dir) && n <= KERNPAGE && v < n && Lookup(m0, d, v).Present?
    requires Built(m0, m1, c) && Grown(m1, m, c, 0, n, ImageOf(m0, d, n), {})
    ensures SamePage(m0, m, d, c, v)
  {
    UserEntry(m0, frames, d, v);
    hide Lookup;
    ImageAt(m0, d, n, v);
    assert Fresh(m1, m, c, 0, ImageOf(m0, d, n), v);
    assert forall f :: f in m0.owner ==> f in m1.owner;
  }

  /** Adding pages [lo, lo+n) one by one, memory lasts until a page that is mapped already. */
  ghost predicate Blocked(m: Mem, d: nat, lo: nat, n: nat)
  {
    exists k: nat :: k < n && Unmapped(m, d, lo, k) && Lookup(m, d, lo + k).Present? && |m.free| > k + |NewTables(m, d, lo, k)|
  }

  lemma BlockedAt(m: Mem, d: nat, lo: nat, n: nat, k: nat)
    requires k < n && Unmapped(m, d, lo, k) && Lookup(m, d, lo + k).Present? && |m.free| > k + |NewTables(m, d, lo, k)|
    ensures Blocked(m, d, lo, n)
  {
    hide Lookup, Unmapped, NewTables;
  }

  lemma NeverBlocked(m: Mem, d: nat, lo: nat, n: nat)
    requires Unmapped(m, d, lo, n)
    ensures !Blocked(m, d, lo, n)
  {
    hide Lookup, NewTables;
  }

  /** Where memory runs out first, the call does not come so far. */
  lemma NotBlocked(m: Mem, frames: set<nat>, d: nat, lo: nat, n: nat, k: nat)
    requires Ok(m, frames) && Owns(m, d, Dir) && k < n && lo + n <= KERNPAGE && Unmapped(m, d, lo, k) && |m.free| < k + 1 + |NewTables(m, d, lo, k + 1)|
    ensures !Blocked(m, d, lo, n)
  {
    hide Lookup, Ok, NewTables;
    if Blocked(m, d, lo, n) {
      var j: nat :| j < n && Unmapped(m, d, lo, j) && Lookup(m, d, lo + j).Present? && |m.free| > j + |NewTables(m, d, lo, j)|;
      assert j >= k;
      if j == k {
        UserEntry(m, frames, d, lo + k);
        TableThere(m, d, lo, k);
      } else {
        TablesGrow(m, d, lo, k + 1, j);
      }
    }
  }

  lemma TableThere(m: Mem, d: nat, lo: nat, k: nat)
    requires IsTable(m, d) && (lo + k) / ENTRIES < ENTRIES && m.tables[d][(lo + k) / ENTRIES].Present?
    ensures NewTables(m, d, lo, k + 1) == NewTables(m, d, lo, k)
  {
    SpansNext(lo, k);
    hide Spans;
    assert (lo + k) / ENTRIES in Pdes(m, d);
  }

  /** Copying the pages below `sz` one by one, memory lasts until a page that is not mapped. */
  ghost predicate Misses(m: Mem, d: nat, sz: nat)
  {
    exists v: nat :: Begins(v, 0, sz) && MissesAt(m, d, v)
  }

  ghost predicate MissesAt(m: Mem, d: nat, v: nat)
  {
    Lookup(m, d, v) == Absent && (forall u: nat :: u < v ==> Lookup(m, d, u).Present?) && |m.free| >= 65 + v + Tables(v)
  }

  lemma TooFew(m: Mem, d: nat, sz: nat)
    requires |m.free| < 65
    ensures !Misses(m, d, sz)
  {
    hide Lookup;
  }

  lemma MissesHere(m: Mem, d: nat, v: nat)
    requires Lookup(m, d, v) == Absent && (forall u: nat :: u < v ==> Lookup(m, d, u).Present?) && |m.free| >= 65 + v + Tables(v)
    ensures MissesAt(m, d, v)
  {
    hide Lookup;
  }

  lemma NotMissed(m: Mem, d: nat, sz: nat, i: nat)
    requires forall u: nat :: u < i ==> Lookup(m, d, u).Present?
    requires i < Pages(sz) ==> Lookup(m, d, i).Present? && |m.free| < 65 + (i + 1) + Tables(i + 1)
    ensures !Misses(m, d, sz)
  {
    hide Lookup;
    if Misses(m, d, sz) {
      var v: nat :| Begins(v, 0, sz) && MissesAt(m, d, v);
      PagesExactly(sz, v);
    }
  }

  lemma OnlySelf(m: Mem, d: nat)
    ensures OnlyTables(m, m, d)
  {
    hide Lookup;
  }

  /** walkpgdir where the table exists. */
  lemma WalkPresent(m: Mem, frames: set<nat>, d: nat, vpn: nat)
    requires Ok(m, frames) && Owns(m, d, Dir) && vpn < LIMIT
    ensures IsTable(m, d) && vpn / ENTRIES < ENTRIES
    ensures var e := m.tables[d][vpn / ENTRIES];
            e.Present? ==> Owns(m, e.frame, Table(d, vpn / ENTRIES)) && IsTable(m, e.frame) && Lookup(m, d, vpn) == m.tables[e.frame][vpn % ENTRIES]
  {
    assert FrameOk(m, d) && PdeOk(m, d, vpn / ENTRIES, m.tables[d][vpn / ENTRIES]);
    if m.tables[d][vpn / ENTRIES].Present? {
      assert FrameOk(m, m.tables[d][vpn / ENTRIES].frame);
    }
  }

  /** walkpgdir where it makes the table. */
  lemma WalkNew(m: Mem, frames: set<nat>, d: nat, vpn: nat, f: nat)
    requires Ok(m, frames) && Owns(m, d, Dir) && vpn < LIMIT && f in m.free
    requires IsTable(m, d) && vpn / ENTRIES < ENTRIES && m.tables[d][vpn / ENTRIES] == Absent
    ensures var m' := NewTable(Kalloc(m, f, []), d, vpn / ENTRIES, f, PTE_W + PTE_U);
            && Ok(m', frames) && OnlyTables(m, m', d) && Owns(m', f, Table(d, vpn / ENTRIES)) && IsTable(m', f)
            && Lookup(m', d, vpn) == m'.tables[f][vpn % ENTRIES] && Pdes(m', d) == Pdes(m, d) + {vpn / ENTRIES}
  {
    var m1 := Kalloc(m, f, []);
    var m' := NewTable(m1, d, vpn / ENTRIES, f, PTE_W + PTE_U);
    KallocOk(m, frames, f, []);
    NewTableOk(m1, frames, d, vpn / ENTRIES, f, PTE_W + PTE_U);
    assert vpn == vpn / ENTRIES * ENTRIES + vpn % ENTRIES;
    TableLookup(m', frames, d, vpn / ENTRIES, f, vpn % ENTRIES);
    hide Lookup, Ok;
  }

  lemma MapStart(m: Mem, d: nat, va: nat)
    ensures Unmapped(m, d, va, 0) && Pdes(m, d) == Pdes(m, d) + Spans(va, 0) && NewTables(m, d, va, 0) == {}
  {
    hide Lookup;
  }

  lemma MappedAlready(m: Mem, d: nat, va: nat, n: nat, v: nat)
    requires va <= v < va + n && Lookup(m, d, v).Present?
    ensures !Unmapped(m, d, va, n)
  {
    hide Lookup;
  }

  lemma NotThere(m: Mem, d: nat, i: nat)
    requires IsTable(m, d) && i < ENTRIES && m.tables[d][i] == Absent
    ensures i !in Pdes(m, d)
  {
  }

  lemma SameMem(m: Mem)
    ensures Restored(m, m)
  {
    hide Lookup;
  }

  lemma SameDirs(m: Mem, m': Mem, d: nat)
    requires m'.tables == m.tables
    ensures Pdes(m', d) == Pdes(m, d)
  {
  }

  /** None of the pages of the next kernel range is mapped yet, and none is a user page. */
  lemma KernelFree(m: Mem, d: nat, ks: seq<Kmap>, i: nat)
    requires i < |ks| && KERNPAGE <= ks[i].virt && forall v :: Lookup(m, d, v) == KernelPte(ks[..i], v)
    requires forall v :: Within(ks[i], v) ==> KernelPte(ks[..i], v) == Absent
    ensures Unmapped(m, d, ks[i].virt, ks[i].count) && InHand(m, ks[i].virt, ks[i].count, ks[i].phys)
  {
    hide Lookup, KernelPte;
  }

  lemma TablesSum(m: Mem, d: nat, va: nat, n: nat)
    ensures |Pdes(m, d) + Spans(va, n)| == |Pdes(m, d)| + |NewTables(m, d, va, n)|
  {
    assert Pdes(m, d) + Spans(va, n) == Pdes(m, d) + NewTables(m, d, va, n);
  }

  lemma MappedAt(m: Mem, m': Mem, d: nat, va: nat, k: nat, pa: nat, perm: nat, v: nat)
    requires Mapped(m, m', d, va, k, pa, perm) && Owns(m, d, Dir)
    ensures Lookup(m', d, v) == if va <= v < va + k then Present(pa + (v - va), perm) else Lookup(m, d, v)
  {
    hide Lookup;
  }

  lemma MappedDir(m: Mem, m': Mem, d: nat, va: nat, k: nat, pa: nat, perm: nat)
    requires Mapped(m, m', d, va, k, pa, perm) && Owns(m, d, Dir)
    ensures Owns(m', d, Dir)
  {
    hide Lookup;
  }

  lemma MappedZero(m: Mem, m': Mem, d: nat, va: nat, pa: nat, perm: nat)
    requires Mapped(m, m', d, va, 0, pa, perm)
    ensures OnlyTables(m, m', d)
  {
    hide Lookup;
  }

  lemma UnmappedOne(m: Mem, d: nat, v: nat)
    requires Unmapped(m, d, v, 1)
    ensures Lookup(m, d, v) == Absent
  {
    hide Lookup;
  }

  lemma OneTable(m: Mem, d: nat, v: nat)
    ensures |NewTables(m, d, v, 1)| == if v / ENTRIES in Pdes(m, d) then 0 else 1
    ensures Spans(v, 1) == {v / ENTRIES}
  {
    SpansNext(v, 0);
    assert Spans(v, 0) == {};
    hide Spans, Pdes;
    assert NewTables(m, d, v, 1) == if v / ENTRIES in Pdes(m, d) then {} else {v / ENTRIES};
  }

  lemma OneInHand(m: Mem, v: nat, f: nat)
    requires Owns(m, f, Loose)
    ensures InHand(m, v, 1, f)
  {
  }

  lemma GrownFacts(m0: Mem, m: Mem, d: nat, lo: nat, k: nat, img: seq<Want>, v: nat)
    requires Owns(m0, d, Dir) && Grown(m0, m, d, lo, k, img, {}) && v == lo + k
    ensures Lookup(m, d, v) == Lookup(m0, d, v)
  {
    GrownOutside(m0, m, d, lo, k, img, v);
  }

  lemma GrownDir(m0: Mem, m: Mem, d: nat, lo: nat, k: nat, img: seq<Want>, hand: set<nat>)
    requires Owns(m0, d, Dir) && Grown(m0, m, d, lo, k, img, hand)
    ensures Owns(m, d, Dir)
  {
    hide Lookup;
  }

  /** The page in hand is not one of those that deallocuvm gives back. */
  lemma StillLoose(m0: Mem, m: Mem, m1: Mem, d: nat, lo: nat, k: nat, hi: nat, img: seq<Want>, f: nat)
    requires Grown(m0, m, d, lo, k, img, {f}) && Cleared(m, m1, d, lo, hi)
    ensures Owns(m1, f, Loose)
  {
    hide Lookup;
  }

  /** How many tables the first n user pages need. */
  function Tables(n: nat): nat { (n + ENTRIES - 1) / ENTRIES }

  lemma UserTables(m: Mem, d: nat, data: nat, n: nat)
    requires 0x80100 < data < 0x8E000 && Pdes(m, d) == KernelPdes(KernelMap(data)) && n <= KERNPAGE
    ensures |NewTables(m, d, 0, n)| == Tables(n)
  {
    KernelTables(data, 0);
    SpansSize(0, n);
    assert NewTables(m, d, 0, n) == Spans(0, n);
  }

  lemma BuiltOld(m: Mem, m': Mem, c: nat, d: nat, v: nat)
    requires Built(m, m', c) && Owns(m, d, Dir)
    ensures Owns(m', d, Dir) && Lookup(m', d, v) == Lookup(m, d, v)
  {
    hide Lookup;
  }

  lemma NoEntry(m: Mem, d: nat, v: nat)
    requires IsTable(m, d) && v / ENTRIES < ENTRIES && m.tables[d][v / ENTRIES] == Absent
    ensures Lookup(m, d, v) == Absent
  {
  }

  /** How mappages ends. */
  datatype Mapping = Done | NoMemory | Panic

  class Space {
    var free: set<nat>
    var tables: map<nat, seq<Pte>>
    var data: map<nat, Page>
    ghost var owner: map<nat, Owner>
    ghost const frames: set<nat>

    ghost function M(): Mem
      reads this
    {
      Mem(free, tables, data, owner)
    }

    ghost predicate Valid()
      reads this
    {
      Ok(M(), frames) && 0 !in frames
    }

    /** All pages free, as after kinit. */
    constructor (pages: set<nat>)
      requires 0 !in pages
      ensures Valid() && free == frames == pages && owner == map[]
    {
      free, tables, data, owner, frames := pages, map[], map[], map[], pages;
    }

    /** kalloc, with what the caller then fills the page with. */
    method KallocPage(p: Page) returns (r: Option<nat>)
      requires Valid()
      modifies this
      ensures Valid()
      ensures r.None? <==> old(free) == {}
      ensures r.None? ==> M() == old(M())
      ensures r.Some? ==> r.value in old(free) && M() == Kalloc(old(M()), r.value, p)
      ensures forall e, v :: Owns(old(M()), e, Dir) ==> Lookup(M(), e, v) == Lookup(old(M()), e, v)
    {
      if free == {} {
        return None;
      }
      var f :| f in free;
      KallocOk(M(), frames, f, p);
      free := free - {f};
      data := data[f := p];
      owner := owner[f := Loose];
      r := Some(f);
    }

    /** kfree of a page that is in hand. */
    method KfreePage(f: nat)
      requires Valid() && Owns(M(), f, Loose)
      modifies this
      ensures Valid() && M() == Release(old(M()), f)
      ensures forall e, v :: Lookup(M(), e, v) == Lookup(old(M()), e, v)
    {
      ReleaseOk(M(), frames, f);
      free := free + {f};
      owner := owner - {f};
      forall d, v ensures Lookup(M(), d, v) == Lookup(old(M()), d, v) {
        LookupSame(old(M()), M(), d);
      }
    }

    /** walkpgdir: the table that holds the entry of `vpn`, made if `alloc` and there is memory. */
    method Walk(d: nat, vpn: nat, alloc: bool) returns (t: Option<nat>)
      requires Valid() && Owns(M(), d, Dir) && vpn < LIMIT
      modifies this
      ensures Valid() && OnlyTables(old(M()), M(), d)
      ensures t.Some? ==> |free| == |old(free)| - (if vpn / ENTRIES in Pdes(old(M()), d) then 0 else 1)
      ensures t.Some? ==> Pdes(M(), d) == Pdes(old(M()), d) + {vpn / ENTRIES}
      ensures t.Some? ==> Owns(M(), t.value, Table(d, vpn / ENTRIES)) && IsTable(M(), t.value)
      ensures t.Some? ==> Lookup(M(), d, vpn) == tables[t.value][vpn % ENTRIES]
      ensures !alloc || t.None? ==> M() == old(M())
      ensures t.None? ==> IsTable(M(), d) && tables[d][vpn / ENTRIES] == Absent && (alloc ==> free == {})
    {
      hide Lookup, Ok, Mapped;
      var i := vpn / ENTRIES;
      WalkPresent(M(), frames, d, vpn);
      OnlySelf(M(), d);
      assert i in Pdes(M(), d) <==> tables[d][i].Present?;
      if tables[d][i].Present? {
        assert Pdes(M(), d) == Pdes(M(), d) + {i};
        return Some(tables[d][i].frame);
      }
      if !alloc {
        return None;
      }
      ghost var m := M();
      var f := KallocPage([]);
      if f.None? {
        return None;
      }
      WalkNew(m, frames, d, vpn, f.value);
      tables := tables[f.value := ZeroTable()][d := tables[d][i := Present(f.value, PTE_W + PTE_U)]];
      owner := owner[f.value := Table(d, i)];
      t := f;
    }

    /**
     mappages. `k` counts the pages mapped before it stopped: at the end, where the memory for a
     table was not there, or at a page that is mapped already, which makes it panic.
     */
    method MapPages(d: nat, va: nat, n: nat, pa: nat, perm: nat) returns (r: Mapping, ghost k: nat)
      requires Valid() && Owns(M(), d, Dir) && 0 < n && va + n <= LIMIT && InHand(M(), va, n, pa)
      modifies this
      ensures Valid() && k <= n && Mapped(old(M()), M(), d, va, k, pa, perm) && Unmapped(old(M()), d, va, k)
      ensures r.Done? <==> k == n
      ensures r.Done? <==> Unmapped(old(M()), d, va, n) && |old(free)| >= |NewTables(old(M()), d, va, n)|
      ensures r.Panic? ==> Lookup(old(M()), d, va + k).Present?
      ensures r.NoMemory? ==> |old(free)| < |NewTables(old(M()), d, va, k + 1)|
      ensures r.Done? ==> |free| == |old(free)| - |NewTables(old(M()), d, va, n)|
      ensures r.Done? ==> Pdes(M(), d) == Pdes(old(M()), d) + Spans(va, n)
    {
      hide Lookup, Ok, Mapped, OnlyTables, InHand, Unmapped, Pdes, Spans, NewTables;
      k := 0;
      MappedNothing(M(), d, va, pa, perm);
      MapStart(M(), d, va);
      var a := va;
      while a < va + n
        invariant va <= a <= va + n && k == a - va
        invariant Valid() && Mapped(old(M()), M(), d, va, k, pa, perm) && Unmapped(old(M()), d, va, k)
        invariant Pdes(M(), d) == Pdes(old(M()), d) + Spans(va, k)
        invariant |free| == |old(free)| - |NewTables(old(M()), d, va, k)|
      {
        ghost var m := M();
        CanMap(old(M()), va, n, pa, a);
        MappedAhead(old(M()), m, d, va, k, pa, perm, a);
        TablesNext(old(M()), Pdes(m, d), d, va, k);
        var t := Walk(d, a, true);
        MappedThenTables(old(M()), m, M(), d, va, k, pa, perm);
        if t.None? {
          NotThere(M(), d, a / ENTRIES);
          TablesGrow(old(M()), d, va, k + 1, n);
          return NoMemory, k;
        }
        MappedAhead(old(M()), M(), d, va, k, pa, perm, a);
        var j := a % ENTRIES;
        if tables[t.value][j].Present? {
          MappedAlready(old(M()), d, va, n, a);
          return Panic, k;
        }
        UnmappedNext(old(M()), d, va, k);
        SetEntry(d, a, t.value, pa + (a - va), perm, old(M()), va, pa);
        a, k := a + 1, k + 1;
      }
      r := Done;
    }

    /** The entry of page `a`, whose table is `t`. */
    method SetEntry(d: nat, a: nat, t: nat, f: nat, perm: nat, ghost m0: Mem, ghost va: nat, ghost pa: nat)
      requires Valid() && Owns(m0, d, Dir) && Owns(M(), d, Dir) && va <= a < LIMIT && f == pa + (a - va)
      requires Mapped(m0, M(), d, va, a - va, pa, perm) && (a < KERNPAGE ==> Owns(m0, f, Loose) && Lookup(m0, d, a) == Absent)
      requires Owns(M(), t, Table(d, a / ENTRIES)) && IsTable(M(), t)
      modifies `tables, `owner
      ensures Valid() && Mapped(m0, M(), d, va, a - va + 1, pa, perm) && Pdes(M(), d) == Pdes(old(M()), d)
    {
      hide Lookup, Ok, Mapped;
      var j := a % ENTRIES;
      IsDir(M(), frames, d);
      if a < KERNPAGE {
        MapUserNext(m0, M(), frames, d, va, a - va, pa, perm, t);
        owner := owner[f := User(d, a)];
      } else {
        MapKernelNext(m0, M(), frames, d, va, a - va, pa, perm, t);
      }
      tables := tables[t := tables[t][j := Present(f, perm)]];
      SameDir(old(M()), M(), d);
    }

    /** One round of deallocuvm's loop: page `a` is given back, or the stretch without a table is skipped. */
    method ClearNext(d: nat, a: nat, ghost m0: Mem, ghost lo: nat, ghost hi: nat) returns (next: nat)
      requires Valid() && Owns(m0, d, Dir) && lo <= a < hi <= KERNPAGE && Cleared(m0, M(), d, lo, a)
      modifies this
      ensures Valid() && a < next && Cleared(m0, M(), d, lo, Min(next, hi))
    {
      hide Lookup, Ok, Cleared, Mapped, Pdes, OnlyTables;
      ClearedDir(m0, M(), d, lo, a);
      var t := Walk(d, a, false);
      next := a + 1;
      if t.None? {
        NextEntry(a);
        NoTable(M(), d, a);
        next := (a / ENTRIES + 1) * ENTRIES;
        SkipAbsent(m0, M(), frames, d, lo, a, Min(next, hi));
      } else if tables[t.value][a % ENTRIES].Present? {
        UnmapNext(m0, M(), frames, d, lo, a, t.value);
        var f := tables[t.value][a % ENTRIES].frame;
        assert f != 0 by { Owned(M(), frames, f); }
        tables := tables[t.value := tables[t.value][a % ENTRIES := Absent]];
        free := free + {f};
        owner := owner - {f};
      } else {
        SkipAbsent(m0, M(), frames, d, lo, a, a + 1);
      }
    }

    /** deallocuvm. The pages are freed once each: a freed page is owned when kfree gets it. */
    method DeallocUvm(d: nat, oldsz: nat, newsz: nat) returns (r: nat)
      requires Valid() && Owns(M(), d, Dir) && oldsz <= 0x8000_0000
      modifies this
      ensures Valid() && Cleared(old(M()), M(), d, Pages(newsz), Pages(oldsz)) && Removed(old(M()), M(), d, newsz, oldsz)
      ensures r == if newsz < oldsz then newsz else oldsz
    {
      hide Lookup, Ok, Cleared, Removed;
      ClearedNothing(M(), d, Pages(newsz), Pages(oldsz));
      if newsz >= oldsz {
        ClearedRemoves(old(M()), M(), d, newsz, oldsz);
        return oldsz;
      }
      var a := Pages(newsz);
      ghost var lo, hi := Pages(newsz), Pages(oldsz);
      while a < Pages(oldsz)
        invariant Valid() && lo <= a
        invariant Cleared(old(M()), M(), d, lo, Min(a, hi))
        decreases hi - a
      {
        a := ClearNext(d, a, old(M()), lo, hi);
      }
      ClearedRemoves(old(M()), M(), d, newsz, oldsz);
      r := newsz;
    }

    /** kfree of a page in use, whatever it was used for. */
    method Kfree(f: nat)
      requires f in owner
      modifies `free, `owner
      ensures M() == Release(old(M()), f)
    {
      free := free + {f};
      owner := owner - {f};
    }

    /** freevm. */
    method FreeVm(d: nat)
      requires Valid() && Owns(M(), d, Dir)
      modifies this
      ensures Valid() && Freed(old(M()), M(), d)
    {
      hide Lookup, Ok;
      assert Pages(0x8000_0000) == KERNPAGE && Pages(0) == 0;
      var _ := DeallocUvm(d, 0x8000_0000, 0);
      ghost var m := M();
      IsDir(m, frames, d);
      DropStart(m, frames, d);
      for i := 0 to ENTRIES
        invariant Dropping(m, M(), frames, d, i)
      {
        DropNext(m, M(), frames, d, i);
        if tables[d][i].Present? {
          Kfree(tables[d][i].frame);
        }
      }
      DropEnd(old(M()), m, M(), frames, d);
      Kfree(d);
    }

    /** The start of setupkvm: a cleared page for the directory. */
    method NewSpace() returns (r: Option<nat>)
      requires Valid()
      modifies this
      ensures Valid() && (r.None? <==> old(free) == {}) && (r.None? ==> M() == old(M()))
      ensures r.Some? ==> Built(old(M()), M(), r.value) && (forall v :: Lookup(M(), r.value, v) == Absent)
      ensures r.Some? ==> |free| == |old(free)| - 1 && Pdes(M(), r.value) == {}
    {
      hide Lookup;
      r := KallocPage([]);
      if r.Some? {
        NewDirOk(M(), frames, r.value);
        tables := tables[r.value := ZeroTable()];
        owner := owner[r.value := Dir];
      }
    }

    /** setupkvm. It takes 65 pages: the directory and 64 tables. It fails exactly when they are not there. */
    method SetupKvm(data: nat) returns (r: Option<nat>)
      requires Valid() && 0x80100 < data < 0x8E000
      modifies this
      ensures Valid()
      ensures r.None? <==> |old(free)| < 65
      ensures r.Some? ==> Built(old(M()), M(), r.value)
      ensures r.Some? ==> forall v :: Lookup(M(), r.value, v) == KernelPte(KernelMap(data), v)
      ensures r.None? ==> Restored(old(M()), M())
      ensures r.Some? ==> |free| == |old(free)| - 65 && Pdes(M(), r.value) == KernelPdes(KernelMap(data))
    {
      hide Lookup, Ok, KernelPte, KernelPdes, KernelMap, Spans, Pdes, NewTables, Built, Freed, Restored;
      r := NewSpace();
      if r.None? {
        SameMem(M());
        return;
      }
      var d := r.value;
      BuiltDir(old(M()), M(), d);
      var kmap := KernelMap(data);
      forall v: nat ensures KernelPte(kmap[..0], v) == Absent {
        KernelPrefix(kmap, 0, v);
      }
      PdesPrefix(kmap, 0);
      for i := 0 to 4
        invariant Valid() && Built(old(M()), M(), d) && Owns(M(), d, Dir)
        invariant forall v :: Lookup(M(), d, v) == KernelPte(kmap[..i], v)
        invariant Pdes(M(), d) == KernelPdes(kmap[..i]) && |free| == |old(free)| - 1 - |Pdes(M(), d)|
      {
        KernelEntry(data, i);
        KernelTables(data, i + 1);
        PdesPrefix(kmap, i);
        ghost var m := M();
        KernelFree(m, d, kmap, i);
        TablesSum(m, d, kmap[i].virt, kmap[i].count);
        var ok, k := MapPages(d, kmap[i].virt, kmap[i].count, kmap[i].phys, kmap[i].perm);
        BuiltThenMapped(old(M()), m, M(), d, kmap[i].virt, k, kmap[i].phys, kmap[i].perm);
        BuiltDir(old(M()), M(), d);
        if !ok.Done? {
          m := M();
          FreeVm(d);
          BuiltThenFreed(old(M()), m, M(), frames, d);
          return None;
        }
        forall v: nat ensures Lookup(M(), d, v) == KernelPte(kmap[..i + 1], v) {
          KernelPrefix(kmap, i, v);
          MappedAt(m, M(), d, kmap[i].virt, kmap[i].count, kmap[i].phys, kmap[i].perm, v);
        }
      }
      assert kmap[..4] == kmap;
      KernelTables(data, 4);
    }

    /** One round of allocuvm or copyuvm: a page filled with `w.page`, mapped at the next address. */
    method AddPage(d: nat, v: nat, w: Want, ghost m0: Mem, ghost lo: nat, ghost k: nat, ghost img: seq<Want>)
      returns (r: Mapping, f: Option<nat>)
      requires Valid() && Owns(m0, d, Dir) && Owns(M(), d, Dir) && Grown(m0, M(), d, lo, k, img, {}) && k < |img|
      requires v == lo + k < KERNPAGE && w == img[k]
      modifies this
      ensures Valid() && Owns(M(), d, Dir)
      ensures r.Done? ==> f.Some? && Grown(m0, M(), d, lo, k + 1, img, {}) && Lookup(m0, d, v) == Absent
      ensures r.Done? ==> |free| == |old(free)| - 1 - (if v / ENTRIES in Pdes(old(M()), d) then 0 else 1)
      ensures r.Done? ==> Pdes(M(), d) == Pdes(old(M()), d) + {v / ENTRIES}
      ensures !r.Done? ==> Grown(m0, M(), d, lo, k, img, if f.None? then {} else {f.value})
      ensures r.NoMemory? ==> |old(free)| < 1 + (if v / ENTRIES in Pdes(old(M()), d) then 0 else 1)
      ensures r.Panic? ==> f.Some? && Lookup(m0, d, v).Present? && |old(free)| > 0
    {
      hide Lookup, Ok, Grown, Pdes, Spans, Mapped;
      GrownFacts(m0, M(), d, lo, k, img, v);
      ghost var m := M();
      f := KallocPage(w.page);
      if f.None? {
        return NoMemory, f;
      }
      GrownTake(m0, m, frames, d, lo, k, img, f.value, w.page);
      SameDirs(m, M(), d);
      GrownDir(m0, M(), d, lo, k, img, {f.value});
      ghost var c;
      m := M();
      OneTable(m, d, v);
      OneInHand(m, v, f.value);
      r, c := MapPages(d, v, 1, f.value, w.perm);
      MappedDir(m, M(), d, v, c, f.value, w.perm);
      if r.Done? {
        UnmappedOne(m, d, v);
        GrownNext(m0, m, M(), d, lo, k, img, f.value);
      } else {
        MappedZero(m, M(), d, v, f.value, w.perm);
        GrownTables(m0, m, M(), d, lo, k, img, f.value);
      }
    }

    /** allocuvm's way out when memory runs short: deallocuvm, and the page in hand. */
    method GiveBack(d: nat, oldsz: nat, newsz: nat, f: Option<nat>, ghost m0: Mem, ghost k: nat, ghost img: seq<Want>)
      requires Valid() && Ok(m0, frames) && Owns(m0, d, Dir) && Owns(M(), d, Dir) && oldsz <= newsz < 0x8000_0000
      requires Pages(oldsz) + k <= Pages(newsz) && Grown(m0, M(), d, Pages(oldsz), k, img, if f.None? then {} else {f.value})
      modifies this
      ensures Valid() && (Unmapped(m0, d, Pages(oldsz), Pages(newsz) - Pages(oldsz)) ==> OnlyTables(m0, M(), d))
    {
      hide Lookup, Ok, Grown, Unmapped, OnlyTables, Cleared;
      ghost var m, lo, hi := M(), Pages(oldsz), Pages(newsz);
      var _ := DeallocUvm(d, newsz, oldsz);
      ghost var m1, hand := M(), if f.None? then {} else {f.value};
      if f.Some? {
        StillLoose(m0, m, m1, d, lo, k, hi, img, f.value);
        KfreePage(f.value);
      }
      if Unmapped(m0, d, lo, hi - lo) {
        GrownUndo(m0, m, m1, M(), frames, d, lo, k, hi, img, hand);
      }
    }

    /**
     allocuvm. None is the panic of mappages at a page that is mapped already. If none is, the call
     succeeds exactly when there are enough pages for the new memory and its tables; on failure the
     flat maps, the owners and all contents are as before, save for empty tables.
     */
    method AllocUvm(d: nat, oldsz: nat, newsz: nat) returns (r: Option<nat>)
      requires Valid() && Owns(M(), d, Dir)
      modifies this
      ensures Valid()
      ensures newsz >= 0x8000_0000 ==> r == Some(0) && M() == old(M())
      ensures newsz < 0x8000_0000 && newsz < oldsz ==> r == Some(oldsz) && M() == old(M())
      ensures oldsz <= newsz < 0x8000_0000 ==>
                var lo, n := Pages(oldsz), Pages(newsz) - Pages(oldsz);
                && (r.None? <==> Blocked(old(M()), d, lo, n))
                && (!Unmapped(old(M()), d, lo, n) && !Blocked(old(M()), d, lo, n) ==> r == Some(0))
                && (Unmapped(old(M()), d, lo, n) ==>
                      if |old(free)| >= n + |NewTables(old(M()), d, lo, n)|
                      then r == Some(newsz) && Grown(old(M()), M(), d, lo, n, ZeroPages(n), {})
                      else r == Some(0) && OnlyTables(old(M()), M(), d))
      ensures oldsz <= newsz < 0x8000_0000 && newsz > 0 && r == Some(newsz) ==> Added(old(M()), M(), d, oldsz, newsz)
    {
      hide Lookup, Ok, Grown, ZeroPages, Unmapped, Pdes, Spans, NewTables, Added, Blocked;
      if newsz >= 0x8000_0000 {
        return Some(0);
      }
      if newsz < oldsz {
        return Some(oldsz);
      }
      ghost var lo, n := Pages(oldsz), Pages(newsz) - Pages(oldsz);
      ghost var img := ZeroPages(n);
      ghost var k := 0;
      GrownNothing(M(), d, lo, img);
      MapStart(M(), d, lo);
      var a := Pages(oldsz);
      while a < Pages(newsz)
        invariant Valid() && k <= n && a == lo + k && Grown(old(M()), M(), d, lo, k, img, {}) && Owns(M(), d, Dir)
        invariant Pdes(M(), d) == Pdes(old(M()), d) + Spans(lo, k) && Unmapped(old(M()), d, lo, k)
        invariant |free| == |old(free)| - k - |NewTables(old(M()), d, lo, k)|
      {
        ZeroPagesAt(n, k);
        TablesNext(old(M()), Pdes(M(), d), d, lo, k);
        TablesGrow(old(M()), d, lo, k + 1, n);
        UnmappedNext(old(M()), d, lo, k);
        var ok, f := AddPage(d, a, Want(PTE_W + PTE_U, ZeroPage()), old(M()), lo, k, img);
        if ok.Panic? {
          MappedAlready(old(M()), d, lo, n, a);
          BlockedAt(old(M()), d, lo, n, k);
          return None;
        }
        if ok.NoMemory? {
          NotBlocked(old(M()), frames, d, lo, n, k);
          GiveBack(d, oldsz, newsz, f, old(M()), k, img);
          return Some(0);
        }
        a, k := a + 1, k + 1;
      }
      GrownAdds(old(M()), M(), d, oldsz, newsz);
      NeverBlocked(old(M()), d, lo, n);
      r := Some(newsz);
    }

    /** One round of copyuvm's loop. `missing` is its panic; a page that could not be mapped is given back. */
    method CopyPage(d: nat, c: nat, i: nat, ghost m0: Mem, ghost m1: Mem, ghost img: seq<Want>) returns (ok: bool, missing: bool)
      requires Valid() && i < |img| <= KERNPAGE && img == ImageOf(m0, d, |img|) && Ok(m0, frames) && Owns(m0, d, Dir)
      requires Built(m0, m1, c) && Owns(m1, c, Dir) && Grown(m1, M(), c, 0, i, img, {}) && Owns(M(), c, Dir) && Lookup(m1, c, i) == Absent
      modifies this
      ensures Valid() && Owns(M(), c, Dir)
      ensures missing ==> !ok
      ensures missing <==> Lookup(m0, d, i) == Absent
      ensures !ok && !missing ==> Grown(m1, M(), c, 0, i, img, {})
      ensures !ok && !missing ==> |old(free)| < 1 + (if i / ENTRIES in Pdes(old(M()), c) then 0 else 1)
      ensures ok ==> Grown(m1, M(), c, 0, i + 1, img, {}) && Pdes(M(), c) == Pdes(old(M()), c) + {i / ENTRIES}
      ensures ok ==> |free| == |old(free)| - 1 - (if i / ENTRIES in Pdes(old(M()), c) then 0 else 1)
    {
      hide Lookup, Ok, Grown, Built, ImageOf, WantAt, Pdes, OnlyTables;
      BuiltThenGrown(m0, m1, M(), c, i, img);
      BuiltOld(m0, M(), c, d, i);
      var t := Walk(d, i, false);
      if t.None? {
        NoEntry(M(), d, i);
        return false, true;
      }
      var pte := tables[t.value][i % ENTRIES];
      if pte == Absent {
        return false, true;
      }
      SourceKept(m0, M(), frames, c, d, i);
      ImageAt(m0, d, |img|, i);
      WantPage(M(), d, i);
      var r, f := AddPage(c, i, Want(pte.perm, data[pte.frame]), m1, 0, i, img);
      ok, missing := r.Done?, false;
      if !ok && f.Some? {
        GrownDrop(m1, M(), c, 0, i, img, f.value);
        KfreePage(f.value);
        GrownDir(m1, M(), c, 0, i, img, {});
      }
    }

    /**
     copyuvm. `panic` says that it met a page below `sz` that is not mapped. If all are, it succeeds
     exactly when there are pages for the new space: 65, the user pages and their tables. The copy has
     equal pages with equal permissions on pages of its own; on failure everything is given back.
     */
    method CopyUvm(d: nat, sz: nat, data: nat) returns (r: Option<nat>, panic: bool)
      requires Valid() && Owns(M(), d, Dir) && sz <= 0x8000_0000 && 0x80100 < data < 0x8E000
      modifies this
      ensures Valid()
      ensures panic <==> Misses(old(M()), d, sz)
      ensures !panic ==> (r.None? <==> |old(free)| < 65 + Pages(sz) + Tables(Pages(sz)))
      ensures !panic && r.Some? ==> Built(old(M()), M(), r.value)
      ensures !panic && r.Some? ==> ImageOf(M(), r.value, Pages(sz)) == ImageOf(old(M()), d, Pages(sz))
      ensures !panic && r.Some? ==> Copied(old(M()), M(), d, r.value, sz, data)
      ensures !panic && r.None? ==> Restored(old(M()), M())
    {
      hide Lookup, Ok, Grown, Built, Freed, Restored, ImageOf, WantAt, KernelPte, KernelMap, Pdes, Spans, NewTables, SamePage, Tables, MissesAt;
      panic := false;
      r := SetupKvm(data);
      if r.None? {
        TooFew(old(M()), d, sz);
        return;
      }
      var c, i := r.value, 0;
      BuiltDir(old(M()), M(), c);
      ghost var m1, img, n := M(), ImageOf(old(M()), d, Pages(sz)), Pages(sz);
      GrownNothing(m1, c, 0, img);
      MapStart(m1, c, 0);
      UserTables(m1, c, data, n);
      while i < Pages(sz)
        invariant Valid() && i <= Pages(sz) && Grown(m1, M(), c, 0, i, img, {}) && Owns(M(), c, Dir)
        invariant Pdes(M(), c) == Pdes(m1, c) + Spans(0, i)
        invariant |free| == |old(free)| - 65 - i - |NewTables(m1, c, 0, i)|
        invariant forall v: nat :: v < i ==> Lookup(old(M()), d, v).Present?
      {
        KernelView(data, i);
        TablesNext(m1, Pdes(M(), c), c, 0, i);
        TablesGrow(m1, c, 0, i + 1, n);
        var ok, missing := CopyPage(d, c, i, old(M()), m1, img);
        PagesExactly(sz, i);
        UserTables(m1, c, data, i);
        UserTables(m1, c, data, i + 1);
        if missing {
          MissesHere(old(M()), d, i);
          return None, true;
        }
        if !ok {
          NotMissed(old(M()), d, sz, i);
          GiveUp(c, i, old(M()), m1, img);
          return None, false;
        }
        i := i + 1;
      }
      NotMissed(old(M()), d, sz, i);
      BuiltThenGrown(old(M()), m1, M(), c, i, img);
      CopySees(m1, M(), c, i, img);
      forall v: nat ensures if Begins(v, 0, sz) then SamePage(old(M()), M(), d, c, v) else Lookup(M(), c, v) == KernelPte(KernelMap(data), v) {
        PagesExactly(sz, v);
        if Begins(v, 0, sz) {
          GrownSame(old(M()), m1, M(), frames, d, c, n, v);
        } else {
          GrownAbove(m1, M(), c, i, img, v);
        }
      }
    }

    /** freevm of a space that was only partly copied. */
    method GiveUp(c: nat, i: nat, ghost m0: Mem, ghost m1: Mem, ghost img: seq<Want>)
      requires Valid() && Ok(m0, frames) && Built(m0, m1, c) && Grown(m1, M(), c, 0, i, img, {})
      modifies this
      ensures Valid() && Restored(m0, M())
    {
      hide Lookup, Ok, Grown, Built, Freed, Restored;
      ghost var m := M();
      BuiltThenGrown(m0, m1, m, c, i, img);
      BuiltDir(m0, m, c);
      FreeVm(c);
      BuiltThenFreed(m0, m, M(), frames, c);
    }
  }
}
