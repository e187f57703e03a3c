/** The two-level page tables of kern/mm/vm.c, and who owns which physical page. */
module PageTable {
  /**
   The format is 32-bit paging, section 4.3 of the Intel SDM volume 3A: two levels of 1024 entries.
   Virtual and physical addresses are page numbers. KERNBASE is virtual page 0x80000.
   */

  const ENTRIES: nat := 1024
  const KERNPAGE: nat := 0x80000

  datatype Pte = Absent | Present(frame: nat, perm: nat)

  type Page = seq<char>

  /** Why a physical page is not free. `Loose` pages are in the hands of the running function. */
  datatype Owner = Dir | Table(dir: nat, pdx: nat) | User(dir: nat, vpn: nat) | Loose

  /** The memory the kernel manages, and the record of what each page is for. */
  datatype Mem = Mem(free: set<nat>, tables: map<nat, seq<Pte>>, data: map<nat, Page>, owner: map<nat, Owner>)

  predicate IsTable(m: Mem, t: nat) { t in m.tables && |m.tables[t]| == ENTRIES }

  /** The two-level walk, for a directory whose tables exist. */
  function Lookup(m: Mem, d: nat, vpn: nat): Pte
  {
    if !IsTable(m, d) || vpn / ENTRIES >= ENTRIES then Absent
    else
      match m.tables[d][vpn / ENTRIES]
      case Absent => Absent
      case Present(t, _) => if IsTable(m, t) then m.tables[t][vpn % ENTRIES] else Absent
  }

  predicate Owns(m: Mem, f: nat, o: Owner) { f in m.owner && m.owner[f] == o }

  predicate PdeOk(m: Mem, d: nat, i: nat, e: Pte) { e.Present? ==> Owns(m, e.frame, Table(d, i)) }

  predicate PteOk(m: Mem, d: nat, vpn: nat, e: Pte) { vpn < KERNPAGE && e.Present? ==> Owns(m, e.frame, User(d, vpn)) }

  /** One page in use: what refers to it and what it refers to. */
  ghost predicate FrameOk(m: Mem, f: nat)
    requires f in m.owner
  {
    match m.owner[f]
    case Dir => IsTable(m, f) && forall i :: 0 <= i < ENTRIES ==> PdeOk(m, f, i, m.tables[f][i])
    case Table(d, i) =>
      && i < ENTRIES && IsTable(m, f) && IsTable(m, d) && Owns(m, d, Dir)
      && m.tables[d][i].Present? && m.tables[d][i].frame == f
      && forall j :: 0 <= j < ENTRIES ==> PteOk(m, d, i * ENTRIES + j, m.tables[f][j])
    case User(d, vpn) =>
      vpn < KERNPAGE && f in m.data && Owns(m, d, Dir) && Lookup(m, d, vpn).Present? && Lookup(m, d, vpn).frame == f
    case Loose => f in m.data
  }

  /** Every page is free or owned, and owned pages are consistent: no leak, no sharing. */
  ghost predicate Ok(m: Mem, frames: set<nat>)
  {
    && m.free !! m.owner.Keys && m.free + m.owner.Keys == frames
    && forall f {:trigger FrameOk(m, f)} :: f in m.owner ==> FrameOk(m, f)
  }

  // ---------- the elementary changes ----------

  function ZeroTable(): (t: seq<Pte>)
    ensures |t| == ENTRIES && forall i :: 0 <= i < ENTRIES ==> t[i] == Absent
  {
    seq(ENTRIES, _ => Absent)
  }

  /** kalloc: a page leaves the free set. */
  function Kalloc(m: Mem, f: nat, p: Page): Mem
  {
    m.(free := m.free - {f}, owner := m.owner[f := Loose], data := m.data[f := p])
  }

  lemma KallocOk(m: Mem, frames: set<nat>, f: nat, p: Page)
    requires Ok(m, frames) && f in m.free
    ensures Ok(Kalloc(m, f, p), frames)
    ensures forall d, v :: Owns(m, d, Dir) ==> Lookup(Kalloc(m, f, p), d, v) == Lookup(m, d, v)
  {
    var m' := Kalloc(m, f, p);
    assert m'.owner.Keys == m.owner.Keys + {f};
    forall g | g in m'.owner ensures FrameOk(m', g) {
      assert g != f ==> FrameOk(m, g);
    }
  }

  /** kfree of a page in hand. */
  function Release(m: Mem, f: nat): Mem
  {
    m.(free := m.free + {f}, owner := m.owner - {f})
  }

  lemma ReleaseOk(m: Mem, frames: set<nat>, f: nat)
    requires Ok(m, frames) && Owns(m, f, Loose)
    ensures Ok(Release(m, f), frames)
  {
    var m' := Release(m, f);
    assert m'.owner.Keys == m.owner.Keys - {f};
    forall g | g in m'.owner ensures FrameOk(m', g) {
      assert FrameOk(m, g);
      LookupSame(m, m', g);
    }
  }

  /** A lookup depends on the tables only. */
  lemma LookupSame(m: Mem, m': Mem, d: nat)
    requires m'.tables == m.tables
    ensures forall v :: Lookup(m', d, v) == Lookup(m, d, v)
  {
  }

  /** The page in hand becomes a directory without entries. */
  function NewDir(m: Mem, f: nat): Mem
  {
    m.(owner := m.owner[f := Dir], tables := m.tables[f := ZeroTable()])
  }

  /** A page that no directory uses as a table does not matter to lookups. */
  lemma LookupFrame(m: Mem, m': Mem, frames: set<nat>, d: nat, f: nat)
    requires Ok(m, frames) && Owns(m, d, Dir) && IsTable(m, d) && IsTable(m', d) && m'.tables[d] == m.tables[d]
    requires forall t :: t != f && t in m.tables ==> t in m'.tables && m'.tables[t] == m.tables[t]
    requires forall i :: !Owns(m, f, Table(d, i))
    ensures forall v :: Lookup(m', d, v) == Lookup(m, d, v)
  {
    assert FrameOk(m, d);
    forall v: nat ensures Lookup(m', d, v) == Lookup(m, d, v) {
      if v / ENTRIES < ENTRIES && m.tables[d][v / ENTRIES].Present? {
        var t := m.tables[d][v / ENTRIES].frame;
        assert PdeOk(m, d, v / ENTRIES, m.tables[d][v / ENTRIES]);
        assert FrameOk(m, t);
      }
    }
  }

  lemma NewDirOk(m: Mem, frames: set<nat>, f: nat)
    requires Ok(m, frames) && Owns(m, f, Loose)
    ensures Ok(NewDir(m, f), frames)
    ensures forall d, v :: Owns(m, d, Dir) ==> Lookup(NewDir(m, f), d, v) == Lookup(m, d, v)
    ensures forall v :: Lookup(NewDir(m, f), f, v) == Absent
  {
    var m' := NewDir(m, f);
    assert m'.owner.Keys == m.owner.Keys;
    forall d | Owns(m, d, Dir) ensures forall v :: Lookup(m', d, v) == Lookup(m, d, v) {
      assert FrameOk(m, d);
      LookupFrame(m, m', frames, d, f);
    }
    hide Lookup;
    forall g | g in m'.owner ensures FrameOk(m', g) {
      assert FrameOk(m, g);
    }
  }

  /** The page in hand becomes the table of an absent directory entry. */
  function NewTable(m: Mem, d: nat, i: nat, f: nat, perm: nat): Mem
    requires IsTable(m, d) && i < ENTRIES
  {
    m.(owner := m.owner[f := Table(d, i)],
       tables := m.tables[f := ZeroTable()][d := m.tables[d][i := Present(f, perm)]])
  }

  lemma NewTableLookup(m: Mem, frames: set<nat>, d: nat, i: nat, f: nat, perm: nat, e: nat, v: nat)
    requires Ok(m, frames) && Owns(m, f, Loose) && Owns(m, d, Dir) && Owns(m, e, Dir)
    requires IsTable(m, d) && i < ENTRIES && m.tables[d][i] == Absent
    ensures Lookup(NewTable(m, d, i, f, perm), e, v) == Lookup(m, e, v)
  {
    var m' := NewTable(m, d, i, f, perm);
    assert FrameOk(m, e);
    if v / ENTRIES < ENTRIES && m.tables[e][v / ENTRIES].Present? {
      var t := m.tables[e][v / ENTRIES].frame;
      assert PdeOk(m, e, v / ENTRIES, m.tables[e][v / ENTRIES]);
      assert FrameOk(m, t);
    }
  }

  lemma NewTableOk(m: Mem, frames: set<nat>, d: nat, i: nat, f: nat, perm: nat)
    requires Ok(m, frames) && Owns(m, f, Loose) && Owns(m, d, Dir)
    requires IsTable(m, d) && i < ENTRIES && m.tables[d][i] == Absent
    ensures Ok(NewTable(m, d, i, f, perm), frames)
    ensures forall e, v :: Owns(m, e, Dir) ==> Lookup(NewTable(m, d, i, f, perm), e, v) == Lookup(m, e, v)
  {
    var m' := NewTable(m, d, i, f, perm);
    assert m'.owner.Keys == m.owner.Keys;
    forall e, v | Owns(m, e, Dir) ensures Lookup(m', e, v) == Lookup(m, e, v) {
      NewTableLookup(m, frames, d, i, f, perm, e, v);
    }
    hide Lookup;
    forall g | g in m'.owner ensures FrameOk(m', g) {
      assert FrameOk(m, g);
      if g == d {
        forall j | 0 <= j < ENTRIES ensures PdeOk(m', d, j, m'.tables[d][j]) {
          assert PdeOk(m, d, j, m.tables[d][j]);
        }
      }
    }
  }

  /** One entry of a page table changes. */
  function SetPte(m: Mem, t: nat, j: nat, e: Pte): Mem
    requires IsTable(m, t) && j < ENTRIES
  {
    m.(tables := m.tables[t := m.tables[t][j := e]])
  }

  lemma SetPteLookup(m: Mem, m': Mem, frames: set<nat>, d: nat, i: nat, t: nat, j: nat, e: Pte, d': nat, v: nat)
    requires Ok(m, frames) && Owns(m, t, Table(d, i)) && IsTable(m, t) && j < ENTRIES && i < ENTRIES && Owns(m, d', Dir)
    requires m'.tables == SetPte(m, t, j, e).tables
    ensures Lookup(m', d', v) == if d' == d && v == i * ENTRIES + j then e else Lookup(m, d', v)
  {
    assert FrameOk(m, t) && FrameOk(m, d');
    if v / ENTRIES < ENTRIES && m.tables[d'][v / ENTRIES].Present? {
      var t' := m.tables[d'][v / ENTRIES].frame;
      assert PdeOk(m, d', v / ENTRIES, m.tables[d'][v / ENTRIES]);
      assert FrameOk(m, t');
    }
  }

  lemma TableLookup(m: Mem, frames: set<nat>, d: nat, i: nat, t: nat, j: nat)
    requires Ok(m, frames) && Owns(m, t, Table(d, i)) && j < ENTRIES
    ensures i < ENTRIES && IsTable(m, t) && IsTable(m, d) && Owns(m, d, Dir)
    ensures m.tables[d][i].Present? && m.tables[d][i].frame == t && Lookup(m, d, i * ENTRIES + j) == m.tables[t][j]
  {
    assert FrameOk(m, t);
  }

  /** The page in hand is mapped at an absent user address. */
  function MapUser(m: Mem, d: nat, i: nat, j: nat, t: nat, f: nat, perm: nat): Mem
    requires IsTable(m, t) && j < ENTRIES
  {
    SetPte(m, t, j, Present(f, perm)).(owner := m.owner[f := User(d, i * ENTRIES + j)])
  }

  lemma MapUserOk(m: Mem, frames: set<nat>, d: nat, i: nat, j: nat, t: nat, f: nat, perm: nat)
    requires Ok(m, frames) && Owns(m, t, Table(d, i)) && IsTable(m, t) && i < ENTRIES && j < ENTRIES
    requires Owns(m, f, Loose) && i * ENTRIES + j < KERNPAGE && m.tables[t][j] == Absent
    ensures Ok(MapUser(m, d, i, j, t, f, perm), frames)
    ensures forall e, v :: Owns(m, e, Dir) ==>
              Lookup(MapUser(m, d, i, j, t, f, perm), e, v) == if e == d && v == i * ENTRIES + j then Present(f, perm) else Lookup(m, e, v)
  {
    var m', vpn := MapUser(m, d, i, j, t, f, perm), i * ENTRIES + j;
    assert m'.owner.Keys == m.owner.Keys;
    forall e, v | Owns(m, e, Dir) ensures Lookup(m', e, v) == if e == d && v == vpn then Present(f, perm) else Lookup(m, e, v) {
      SetPteLookup(m, m', frames, d, i, t, j, Present(f, perm), e, v);
    }
    TableLookup(m, frames, d, i, t, j);
    assert FrameOk(m, t);
    hide Lookup;
    forall g | g in m'.owner ensures FrameOk(m', g) {
      assert FrameOk(m, g);
      if g == t {
        forall n | 0 <= n < ENTRIES ensures PteOk(m', d, i * ENTRIES + n, m'.tables[t][n]) {
          assert PteOk(m, d, i * ENTRIES + n, m.tables[t][n]);
        }
      }
    }
  }

  /** A kernel address gets its fixed physical page, which nobody owns. */
  lemma MapKernelOk(m: Mem, frames: set<nat>, d: nat, i: nat, j: nat, t: nat, e: Pte)
    requires Ok(m, frames) && Owns(m, t, Table(d, i)) && IsTable(m, t) && i < ENTRIES && j < ENTRIES
    requires i * ENTRIES + j >= KERNPAGE
    ensures Ok(SetPte(m, t, j, e), frames)
    ensures forall d', v :: Owns(m, d', Dir) ==>
              Lookup(SetPte(m, t, j, e), d', v) == if d' == d && v == i * ENTRIES + j then e else Lookup(m, d', v)
  {
    var m', vpn := SetPte(m, t, j, e), i * ENTRIES + j;
    forall d', v | Owns(m, d', Dir) ensures Lookup(m', d', v) == if d' == d && v == vpn then e else Lookup(m, d', v) {
      SetPteLookup(m, m', frames, d, i, t, j, e, d', v);
    }
    assert FrameOk(m, t);
    hide Lookup;
    forall g | g in m'.owner ensures FrameOk(m', g) {
      assert FrameOk(m, g);
      if g == t {
        forall n | 0 <= n < ENTRIES ensures PteOk(m', d, i * ENTRIES + n, m'.tables[t][n]) {
          assert PteOk(m, d, i * ENTRIES + n, m.tables[t][n]);
        }
      }
    }
  }

  /** A user page is freed and its entry cleared. */
  function Unmap(m: Mem, t: nat, j: nat): Mem
    requires IsTable(m, t) && j < ENTRIES && m.tables[t][j].Present?
  {
    Release(SetPte(m, t, j, Absent), m.tables[t][j].frame)
  }

  lemma UnmapOk(m: Mem, frames: set<nat>, d: nat, i: nat, j: nat, t: nat)
    requires Ok(m, frames) && Owns(m, t, Table(d, i)) && IsTable(m, t) && i < ENTRIES && j < ENTRIES
    requires i * ENTRIES + j < KERNPAGE && m.tables[t][j].Present?
    ensures Owns(m, m.tables[t][j].frame, User(d, i * ENTRIES + j)) && Ok(Unmap(m, t, j), frames)
    ensures forall e, v :: Owns(m, e, Dir) ==>
              Lookup(Unmap(m, t, j), e, v) == if e == d && v == i * ENTRIES + j then Absent else Lookup(m, e, v)
  {
    var m', vpn, f := Unmap(m, t, j), i * ENTRIES + j, m.tables[t][j].frame;
    assert FrameOk(m, t) && PteOk(m, d, vpn, m.tables[t][j]);
    assert m'.owner.Keys == m.owner.Keys - {f};
    forall e, v | Owns(m, e, Dir) ensures Lookup(m', e, v) == if e == d && v == vpn then Absent else Lookup(m, e, v) {
      SetPteLookup(m, m', frames, d, i, t, j, Absent, e, v);
    }
    TableLookup(m, frames, d, i, t, j);
    hide Lookup;
    forall g | g in m'.owner ensures FrameOk(m', g) {
      assert FrameOk(m, g);
      if m.owner[g].Table? {
        forall n | 0 <= n < ENTRIES ensures PteOk(m', m.owner[g].dir, m.owner[g].pdx * ENTRIES + n, m'.tables[g][n]) {
          assert PteOk(m, m.owner[g].dir, m.owner[g].pdx * ENTRIES + n, m.tables[g][n]);
        }
      }
    }
  }

  /** freevm's last step: the tables of a directory without user pages, and the directory. */
  predicate Belongs(o: Owner, d: nat) { o.Table? && o.dir == d }

  lemma DropDirOk(m: Mem, m': Mem, frames: set<nat>, d: nat)
    requires Ok(m, frames) && Owns(m, d, Dir) && (forall f, v :: !Owns(m, f, User(d, v)))
    requires m'.tables == m.tables && m'.data == m.data && m'.free == frames - m'.owner.Keys
    requires forall f :: f in m'.owner <==> f in m.owner && f != d && !Belongs(m.owner[f], d)
    requires forall f :: f in m'.owner ==> m'.owner[f] == m.owner[f]
    ensures Ok(m', frames)
  {
    assert m'.owner.Keys <= m.owner.Keys;
    hide Lookup;
    forall g, v ensures Lookup(m', g, v) == Lookup(m, g, v) {
      LookupSame(m, m', g);
    }
    forall g | g in m'.owner ensures FrameOk(m', g) {
      assert FrameOk(m, g);
      if m.owner[g].User? {
        assert !Owns(m, g, User(d, m.owner[g].vpn));
      } else if m.owner[g].Dir? {
        forall i | 0 <= i < ENTRIES ensures PdeOk(m', g, i, m'.tables[g][i]) {
          assert PdeOk(m, g, i, m.tables[g][i]);
        }
      } else if m.owner[g].Table? {
        forall n | 0 <= n < ENTRIES ensures PteOk(m', m.owner[g].dir, m.owner[g].pdx * ENTRIES + n, m'.tables[g][n]) {
          assert PteOk(m, m.owner[g].dir, m.owner[g].pdx * ENTRIES + n, m.tables[g][n]);
        }
      }
    }
  }
}
