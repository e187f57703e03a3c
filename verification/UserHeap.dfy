/**
 malloc and free of lib/ulibc/umalloc.c: the circular, address-ordered free list of section 8.7 of The C
 Programming Language, 2nd edition. `base` is the static header that starts the list; it lies below
 everything sbrk returns. Addresses count units of one header, and `mem` holds the headers.
 */
module UserHeap {
  import opened Common
  import opened UserHeapSpec

  predicate UsedAt(used: set<Blk>, u: nat)
  {
    exists b :: b in used && InBlock(b, u)
  }

  /** Free and allocated blocks, all disjoint, make up the memory obtained from sbrk. */
  ghost predicate Parted(l: seq<Blk>, used: set<Blk>, regions: set<Blk>)
  {
    && (forall u: nat :: UsedAt(regions, u) <==> FreeAt(l, u) || UsedAt(used, u))
    && (forall u: nat :: !(FreeAt(l, u) && UsedAt(used, u)))
    && (forall b, c, u: nat :: b in used && c in used && InBlock(b, u) && InBlock(c, u) ==> b == c)
    && (forall b :: b in used ==> b.n > 0)
  }

  /** Everything obtained so far lies between base and brk. */
  ghost predicate Below(regions: set<Blk>, base: nat, brk: nat)
  {
    base < brk && forall u: nat :: UsedAt(regions, u) ==> base < u < brk
  }

  ghost predicate Headed(mem: map<nat, Header>, used: set<Blk>)
  {
    forall b :: b in used ==> b.a in mem && mem[b.a].size == b.n
  }

  // ---------- where a freed block belongs ----------

  ghost function PlaceOf(l: seq<Blk>, a: nat, from: nat): (k: nat)
    requires from < |l| && l[from].a < a
    ensures from <= k < |l| && l[k].a < a && (k + 1 < |l| ==> a <= l[k + 1].a)
    decreases |l| - from
  {
    if from + 1 < |l| && l[from + 1].a < a then PlaceOf(l, a, from + 1) else from
  }

  /** free's loop stops at a block exactly when the new one belongs behind it. */
  lemma StopsAtPlace(l: seq<Blk>, base: nat, a: nat, i: nat)
    requires ListOk(l, base) && i < |l| && base < a && (forall k :: 0 <= k < |l| ==> l[k].a != a)
    ensures var p, next := l[i].a, After(l, i);
            ((p < a < next) || (p >= next && (a > p || a < next))) <==> Place(l, a, i)
  {
    Order(l, base, 0, i);
    if i + 1 < |l| {
      Order(l, base, i, i + 1);
    }
  }

  ghost function NextOf(l: seq<Blk>, k: nat): (n: nat)
    requires k < |l|
    ensures n < |l| && l[n].a == After(l, k) && n == if k + 1 < |l| then k + 1 else 0
  {
    if k + 1 < |l| then k + 1 else 0
  }

  lemma FindsPlace(l: seq<Blk>, base: nat, a: nat) returns (k: nat)
    requires ListOk(l, base) && base < a && (forall j :: 0 <= j < |l| ==> l[j].a != a)
    ensures k < |l| && Place(l, a, k)
  {
    k := PlaceOf(l, a, 0);
  }

  lemma AtBlock(m: map<nat, Header>, l: seq<Blk>, base: nat, a: nat, k: nat)
    requires ListOk(l, base) && Linked(m, l) && k < |l| && base < a && (forall j :: 0 <= j < |l| ==> l[j].a != a)
    ensures l[k].a in m && m[l[k].a].ptr == After(l, k)
    ensures var p, next := l[k].a, After(l, k);
            ((p < a < next) || (p >= next && (a > p || a < next))) <==> Place(l, a, k)
  {
    assert CellOk(m, l, k);
    StopsAtPlace(l, base, a, k);
  }

  lemma PlaceUnique(l: seq<Blk>, base: nat, a: nat, i: nat, k: nat)
    requires ListOk(l, base) && Place(l, a, i) && Place(l, a, k)
    ensures i == k
  {
    hide ListOk;
    if i + 1 < k {
      Order(l, base, i + 1, k);
    } else if k + 1 < i {
      Order(l, base, k + 1, i);
    }
  }

  /** Steps along the cycle of `n` blocks from i to k. */
  function Distance(i: nat, k: nat, n: nat): nat
    requires i < n && k < n
  {
    if i <= k then k - i else k - i + n
  }

  /** The header units for a request, in 32-bit arithmetic. */
  function Units(nbytes: nat): nat { (nbytes + 7) % UINT / 8 + 1 }

  /** They are the fewest that hold the bytes asked for, exactly when the addition does not wrap. */
  lemma UnitsHold(nbytes: nat)
    requires nbytes < UINT
    ensures 8 * (Units(nbytes) - 1) >= nbytes <==> nbytes <= 0xFFFF_FFF8
    ensures nbytes <= 0xFFFF_FFF8 ==> forall u: nat :: Holds(u, nbytes) <==> Units(nbytes) <= u
    ensures nbytes > 0xFFFF_FFF8 ==> Units(nbytes) == 1
  {
  }

  /** A block of `u` units, the header one of them, holds so many bytes. */
  predicate Holds(u: nat, nbytes: nat) { 1 <= u && nbytes <= 8 * (u - 1) }

  // ---------- sbrk ----------

  const KERNBASE: nat := 0x8000_0000

  /** What sbrk returns, None for -1, and the size of the process then, in units. */
  datatype Break = Break(addr: Option<nat>, size: nat)

  /**
   sbrk and growproc for a process of `size` units, with the number of bytes as the caller's uint.
   The kernel takes it as an int. `enough` says whether allocuvm finds the pages it needs.
   */
  function Sbrk(size: nat, bytes: nat, enough: bool): Break
    requires bytes < UINT && bytes % 8 == 0 && 8 * size < KERNBASE
  {
    var n: int := if bytes < KERNBASE then bytes else bytes - UINT;
    if n > 0 then
      if 8 * size + n >= KERNBASE || !enough then Break(None, size) else Break(Some(size), size + n / 8)
    else if n == 0 || (8 * size + n < 0 && size > 0) then Break(Some(size), size)
    else if 8 * size + n <= 0 then Break(None, size)
    else Break(Some(size), size + n / 8)
  }

  /**
   sbrk fails exactly when the process would reach KERNBASE, or its memory is not there, or it would give back all
   it has; else it returns the old size, and the size changes by what was asked, unless that wraps below zero.
   */
  lemma SbrkExactly(size: nat, bytes: nat, enough: bool)
    requires bytes < UINT && bytes % 8 == 0 && 8 * size < KERNBASE
    ensures var s := Sbrk(size, bytes, enough);
            && (s.addr.Some? ==> s.addr.value == size) && (s.addr.None? ==> s.size == size)
            && (bytes == 0 ==> s == Break(Some(size), size))
            && (0 < bytes < KERNBASE ==> (s.addr.Some? <==> enough && 8 * size + bytes < KERNBASE) && (s.addr.Some? ==> 8 * s.size == 8 * size + bytes))
            && (bytes >= KERNBASE && size > 0 ==>
                  && (s.addr.None? <==> UINT - bytes == 8 * size)
                  && (s.addr.Some? ==> 8 * s.size == if UINT - bytes < 8 * size then 8 * size - (UINT - bytes) else 8 * size))
  {
  }

  /** The request of morecore, in bytes. */
  function CoreBytes(nu: nat): (n: nat)
    ensures n < UINT && n % 8 == 0
  {
    CoreUnits(nu) * 8 % UINT
  }

  /**
   When sbrk does not fail, the region that morecore adds was really obtained if and only if it is
   smaller than 2 GiB; otherwise sbrk's argument is zero or negative, and the process gets no larger.
   */
  lemma CoreObtained(size: nat, nu: nat, enough: bool)
    requires nu <= 0x2000_0000 && 8 * size < KERNBASE && Sbrk(size, CoreBytes(nu), enough).addr.Some?
    ensures var s := Sbrk(size, CoreBytes(nu), enough);
            && s.addr == Some(size) && (s.size == size + CoreUnits(nu) <==> CoreUnits(nu) < 0x1000_0000)
            && (CoreUnits(nu) >= 0x1000_0000 ==> s.size <= size)
  {
  }

  /** How morecore ends: memory was added, or sbrk failed, or it returned an address with no memory behind it. */
  ghost predicate Refilled(size: nat, nu: nat, enough: bool, ok: bool, astray: bool, size': nat)
    requires 8 * size < KERNBASE
  {
    var s := Sbrk(size, CoreBytes(nu), enough);
    && size' == s.size && (ok || astray <==> s.addr.Some?) && !(ok && astray)
    && (astray <==> s.addr.Some? && CoreUnits(nu) >= 0x1000_0000) && (ok ==> size' == size + CoreUnits(nu))
  }

  /** The block `c + 1` steps after block `at` on a cycle of `n`. */
  function Nth(at: nat, c: nat, n: nat): (k: nat)
    requires at < n && c < n
    ensures k < n
  {
    if at + 1 + c < n then at + 1 + c else at + 1 + c - n
  }

  /** The request of morecore. */
  function CoreUnits(nu: nat): nat { if nu < 4096 then 4096 else nu }

  lemma CoreAtLeast(nu: nat)
    ensures CoreUnits(nu) > 0 && nu <= CoreUnits(nu) && 4096 <= CoreUnits(nu) && (CoreUnits(nu) == nu || CoreUnits(nu) == 4096)
  {
  }

  class Heap {
    var mem: map<nat, Header>
    var freep: Option<nat>
    const base: nat

    ghost var list: seq<Blk>
    ghost var at: nat
    ghost var used: set<Blk>
    ghost var regions: set<Blk>
    ghost var brk: nat

    ghost predicate Valid()
      reads this
    {
      && Below(regions, base, brk) && Headed(mem, used)
      && (freep.None? ==> regions == {} && used == {} && list == [])
      && (freep.Some? ==> ListOk(list, base) && Linked(mem, list) && at < |list| && freep.value == list[at].a)
      && Parted(list, used, regions)
    }

    constructor (base: nat, brk: nat)
      requires base < brk
      ensures Valid() && freep.None? && used == {} && regions == {} && this.base == base && this.brk == brk
    {
      this.base := base;
      mem, freep := map[], None;
      list, at, used, regions, this.brk := [], 0, {}, {}, brk;
    }

    /** free's search for the block after which `bp` belongs. */
    method FindPlace(bp: nat) returns (p: nat, ghost k: nat)
      requires freep.Some? && ListOk(list, base) && Linked(mem, list) && at < |list| && freep.value == list[at].a
      requires base < bp && (forall j :: 0 <= j < |list| ==> list[j].a != bp)
      ensures Place(list, bp, k) && p == list[k].a
    {
      hide ListOk, Linked, CellOk, Place, After;
      ghost var target := FindsPlace(list, base, bp);
      p := freep.value;
      k := at;
      AtBlock(mem, list, base, bp, k);
      while !(bp > p && bp < mem[p].ptr)
        invariant k < |list| && p == list[k].a && p in mem && mem[p].ptr == After(list, k)
        invariant ((p < bp < mem[p].ptr) || (p >= mem[p].ptr && (bp > p || bp < mem[p].ptr))) <==> Place(list, bp, k)
        decreases Distance(k, target, |list|)
      {
        if p >= mem[p].ptr && (bp > p || bp < mem[p].ptr) {
          break;
        }
        assert k != target;
        p := mem[p].ptr;
        k := NextOf(list, k);
        AtBlock(mem, list, base, bp, k);
      }
    }

    /** The body of free: the block goes into the list, joined to the neighbours it touches. */
    method Insert(bp: nat)
      requires freep.Some? && ListOk(list, base) && Linked(mem, list) && at < |list| && freep.value == list[at].a
      requires bp in mem && mem[bp].size > 0 && base < bp && Outside(list, Blk(bp, mem[bp].size))
      modifies this`mem, this`freep, this`list, this`at
      ensures freep.Some? && ListOk(list, base) && Linked(mem, list) && at < |list| && freep.value == list[at].a
      ensures forall u: nat :: FreeAt(list, u) <==> FreeAt(old(list), u) || InBlock(Blk(bp, old(mem[bp].size)), u)
      ensures Fits(list, old(mem[bp].size))
      ensures Others(old(mem), mem, old(list), bp)
    {
      hide ListOk, FreeAt, Outside, Linked, Freed, FreedMem, Place, CellOk, InBlock;
      ghost var l, m, b := list, mem, Blk(bp, mem[bp].size);
      OutsideStart(l, base, b);
      var p, k := FindPlace(bp);
      InsertFacts(m, l, base, k, b);
      WriteHeaders(bp, p, k);
      freep := Some(p);
      list, at := Freed(l, k, b), k;
    }

    /** free of an allocated block, whose data start one header behind it. */
    method Free(ap: nat, ghost b: Blk)
      requires Valid() && b in used && ap == b.a + 1
      modifies this`mem, this`freep, this`list, this`at, this`used
      ensures Valid() && freep.Some? && used == old(used) - {b}
      ensures forall u: nat :: FreeAt(list, u) <==> FreeAt(old(list), u) || InBlock(b, u)
    {
      ghost var m, l := mem, list;
      FreeReady(m, l, used, regions, base, brk, b);
      assert freep.Some?;
      hide ListOk, Linked, Parted, Outside, Below, FreeAt, InBlock;
      Insert(ap - 1);
      FreeParts(l, list, used, regions, b);
      used := used - {b};
    }

    /**
     morecore: at least 4096 units more, for a process of `size` units that kept all it got from sbrk.
     `astray` says that sbrk returned an address without memory behind it; what happens after the
     header is written there is not modelled.
     */
    method Morecore(nu: nat, size: nat, enough: bool) returns (ok: bool, astray: bool, size': nat)
      requires Valid() && freep.Some? && brk <= size && 8 * size < KERNBASE && nu <= 0x2000_0000
      modifies this`mem, this`freep, this`list, this`at, this`regions, this`brk
      ensures Valid() && freep.Some? && Refilled(size, nu, enough, ok, astray, size')
      ensures !ok ==> list == old(list) && mem == old(mem) && regions == old(regions) && freep == old(freep) && brk == old(brk)
      ensures ok ==> Fits(list, nu) && regions == old(regions) + {Blk(size, CoreUnits(nu))} && brk == size' == size + CoreUnits(nu)
    {
      var s := Sbrk(size, CoreBytes(nu), enough);
      ok, astray, size' := false, false, s.size;
      if s.addr.None? {
        return;
      }
      CoreObtained(size, nu, enough);
      var hp := s.addr.value;
      if s.size != hp + CoreUnits(nu) {
        astray := true;
        return;
      }
      Release(hp, nu);
      ok := true;
    }

    /** morecore's call of free, for the region at `hp`. */
    method Release(hp: nat, nu: nat)
      requires Valid() && freep.Some? && brk <= hp
      modifies this`mem, this`freep, this`list, this`at, this`regions, this`brk
      ensures Valid() && freep.Some? && Fits(list, nu) && regions == old(regions) + {Blk(hp, CoreUnits(nu))}
      ensures brk == hp + CoreUnits(nu)
    {
      hide ListOk, Linked, Parted, Outside, Below, FreeAt, InBlock, StartsBlock, Fits, CoreUnits, Headed, Others;
      ghost var m, l, b := mem, list, Blk(hp, CoreUnits(nu));
      var h := Header(if hp in mem then mem[hp].ptr else 0, CoreUnits(nu));
      CoreAtLeast(nu);
      CoreReady(m, l, used, regions, base, brk, b, h);
      mem := mem[hp := h];
      ghost var m1 := mem;
      Insert(hp);
      HeadedStays(m1, mem, l, hp, used);
      CoreParts(l, list, used, regions, base, brk, b);
      regions := regions + {b};
      brk := hp + CoreUnits(nu);
      FitsLess(list, CoreUnits(nu), nu);
    }

    /** The header writes of malloc, for block `j` of the list behind block `j - 1`. */
    method Take(prevp: nat, p: nat, nunits: nat, ghost j: nat) returns (r: nat)
      requires 0 < j < |list| && prevp == list[j - 1].a && p == list[j].a && 0 < nunits <= list[j].n
      requires CellOk(mem, list, j) && CellOk(mem, list, j - 1)
      modifies this`mem
      ensures r == Tail(list, j, nunits).a && mem == TakenMem(old(mem), list, j, nunits)
    {
      r := p;
      if mem[p].size == nunits {
        mem := mem[prevp := mem[prevp].(ptr := mem[p].ptr)];
      } else {
        mem := mem[p := mem[p].(size := mem[p].size - nunits)];
        r := r + mem[p].size;
        mem := mem[r := Header(if r in mem then mem[r].ptr else 0, nunits)];
      }
    }

    /** The end of malloc: the tail of block `j` goes to the caller, and the next search starts before it. */
    method HandOut(prevp: nat, p: nat, nunits: nat, ghost j: nat) returns (r: nat, ghost b: Blk)
      requires Valid() && freep.Some? && j < |list| && 0 < nunits <= list[j].n
      requires j > 0 ==> prevp == list[j - 1].a
      requires p == list[j].a
      modifies this`mem, this`freep, this`list, this`at, this`used
      ensures Valid() && r == b.a + 1 && b.n == nunits && b !in old(used) && used == old(used) + {b}
      ensures forall u: nat :: InBlock(b, u) ==> FreeAt(old(list), u)
    {
      hide ListOk, Linked, Parted, Below, Headed, FreeAt, InBlock, CellOk, Taken, TakenMem;
      NotBase(list, base, j, nunits);
      CellAt(mem, list, j);
      CellAt(mem, list, j - 1);
      b := Tail(list, j, nunits);
      forall u: nat ensures InBlock(b, u) ==> FreeAt(list, u) { TakenCovers(list, base, j, nunits, u); }
      TakeFacts(mem, list, used, regions, base, j, nunits);
      var q := Take(prevp, p, nunits, j);
      freep := Some(prevp);
      list, at, used := Taken(list, j, nunits), j - 1, used + {b};
      r := q + 1;
    }

    /** The first call of malloc makes the list of just `base`. */
    method Start()
      requires Valid()
      modifies this`mem, this`freep, this`list, this`at
      ensures Valid() && freep.Some? && (list == old(list) || (old(list) == [] && list == [Blk(base, 0)]))
    {
      if freep.None? {
        freep := Some(base);
        mem := mem[base := Header(base, 0)];
        FirstList(mem, base, regions);
        list, at := [Blk(base, 0)], 0;
      }
    }

    /** malloc's search from freep on: the first block that is large enough, or back at freep without one. */
    method Search(nunits: nat) returns (found: bool, prevp: nat, p: nat, ghost j: nat)
      requires Valid() && freep.Some?
      ensures found <==> Fits(list, nunits)
      ensures found ==> j < |list| && nunits <= list[j].n && p == list[j].a && (j > 0 ==> prevp == list[j - 1].a)
      ensures !found ==> p == freep.value
    {
      hide ListOk, Parted, Below, Headed, CellOk, Scan, Fits, Linked;
      ScanStart(mem, list, at, nunits);
      prevp := freep.value;
      p := mem[prevp].ptr;
      ghost var c := 0;
      while true
        invariant c < |list| && Scan(list, at, c, nunits, prevp, p)
        decreases |list| - c
      {
        j := ScanHere(mem, list, at, c, nunits, prevp, p);
        if mem[p].size >= nunits {
          FitsHere(list, j, nunits);
          return true, prevp, p, j;
        }
        ScanStep(mem, list, base, at, c, nunits, prevp, p);
        if p == freep.value {
          return false, prevp, p, j;
        }
        prevp, p, c := p, mem[p].ptr, c + 1;
      }
    }

    /** malloc's loop: a block that is large enough, after morecore if there was none. */
    method FindRoom(nunits: nat, size: nat, enough: bool)
      returns (ok: bool, astray: bool, size': nat, prevp: nat, p: nat, ghost j: nat, ghost more: bool)
      requires Valid() && freep.Some? && 0 < nunits <= 0x2000_0000 && brk <= size && 8 * size < KERNBASE
      modifies this`mem, this`freep, this`list, this`at, this`regions, this`brk
      ensures Valid() && freep.Some? && (more <==> !Fits(old(list), nunits)) && brk <= Max(size, size')
      ensures !more ==> ok && !astray && size' == size && regions == old(regions)
      ensures more ==> Refilled(size, nunits, enough, ok, astray, size')
      ensures more && ok ==> regions == old(regions) + {Blk(size, CoreUnits(nunits))}
      ensures !ok ==> regions == old(regions)
      ensures ok ==> !astray && j < |list| && nunits <= list[j].n && p == list[j].a && (j > 0 ==> prevp == list[j - 1].a)
    {
      hide Heap.Valid, Fits, Sbrk, CoreBytes;
      ok, astray, size' := true, false, size;
      more := false;
      var found;
      found, prevp, p, j := Search(nunits);
      if !found {
        more := true;
        ok, astray, size' := Morecore(nunits, size, enough);
        if ok {
          found, prevp, p, j := Search(nunits);
        }
      }
    }

    /**
     malloc, for a process of `size` units that kept all it got from sbrk. The block handed out was
     free, holds the units asked for, and nothing else changes hands. morecore is called at most
     once, when no free block is large enough; None means that sbrk failed, or that the memory it
     is said to have returned is not there.
     */
    method Malloc(nbytes: nat, size: nat, enough: bool) returns (r: Option<nat>, astray: bool, size': nat, ghost b: Blk, ghost more: bool)
      requires Valid() && nbytes < UINT && brk <= size && 8 * size < KERNBASE
      modifies this
      ensures Valid() && (more <==> !Fits(old(list), Units(nbytes))) && brk <= Max(size, size')
      ensures !more ==> r.Some? && !astray && size' == size && regions == old(regions)
      ensures more ==> Refilled(size, Units(nbytes), enough, r.Some?, astray, size')
      ensures more && r.Some? ==> regions == old(regions) + {Blk(size, CoreUnits(Units(nbytes)))}
      ensures r.Some? ==> !astray && r.value == b.a + 1 && b.n == Units(nbytes) && b !in old(used) && used == old(used) + {b}
      ensures r.None? ==> used == old(used) && regions == old(regions)
    {
      var nunits := Units(nbytes);
      hide Heap.Valid, FreeAt, InBlock, Fits, Units, Refilled;
      r, b := None, Blk(0, 0);
      UnitsBound(nbytes);
      Start();
      StartFits(old(list), list, base, nunits);
      var ok, prevp, p;
      ghost var j;
      ok, astray, size', prevp, p, j, more := FindRoom(nunits, size, enough);
      if ok {
        var q;
        q, b := HandOut(prevp, p, nunits, j);
        r := Some(q);
      }
    }

    /** The header writes of free. */
    method WriteHeaders(bp: nat, p: nat, ghost k: nat)
      requires k < |list| && p == list[k].a && bp in mem && p != bp
      requires CellOk(mem, list, k) && (k + 1 < |list| ==> CellOk(mem, list, k + 1) && list[k + 1].a != bp && list[k + 1].a != p)
      requires bp + mem[bp].size == After(list, k) <==> JoinsNext(list, k, Blk(bp, mem[bp].size))
      modifies this`mem
      ensures mem == FreedMem(old(mem), list, k, Blk(bp, old(mem[bp].size)))
    {
      if bp + mem[bp].size == mem[p].ptr {
        mem := mem[bp := Header(mem[mem[p].ptr].ptr, mem[bp].size + mem[mem[p].ptr].size)];
      } else {
        mem := mem[bp := mem[bp].(ptr := mem[p].ptr)];
      }
      if p + mem[p].size == bp {
        mem := mem[p := Header(mem[bp].ptr, mem[p].size + mem[bp].size)];
      } else {
        mem := mem[p := mem[p].(ptr := bp)];
      }
    }
  }

  /** All that free needs to know about its place in the list. */
  lemma InsertFacts(m: map<nat, Header>, l: seq<Blk>, base: nat, k: nat, b: Blk)
    requires ListOk(l, base) && Linked(m, l) && Place(l, b.a, k) && Outside(l, b) && b.n > 0 && b.a in m
    ensures k < |l| && CellOk(m, l, k) && (k + 1 < |l| ==> CellOk(m, l, k + 1) && l[k + 1].a != b.a && l[k + 1].a != l[k].a)
    ensures (End(b) == After(l, k) <==> JoinsNext(l, k, b)) && l[k].a != b.a
    ensures ListOk(Freed(l, k, b), base) && Linked(FreedMem(m, l, k, b), Freed(l, k, b))
    ensures k < |Freed(l, k, b)| && Freed(l, k, b)[k].a == l[k].a && Fits(Freed(l, k, b), b.n)
    ensures forall u: nat :: FreeAt(Freed(l, k, b), u) <==> FreeAt(l, u) || InBlock(b, u)
    ensures forall a :: a in m ==> a in FreedMem(m, l, k, b)
    ensures forall a :: a in m && a != b.a && !StartsBlock(l, a) ==> FreedMem(m, l, k, b)[a] == m[a]
  {
    FreedLinked(m, l, base, k, b);
    JoinTests(l, base, k, b);
    FreedKeepsPlace(l, base, k, b);
    FreedListOk(l, base, k, b);
    hide ListOk, Linked, Outside, Freed, FreeAt, InBlock;
    forall u: nat ensures FreeAt(Freed(l, k, b), u) <==> FreeAt(l, u) || InBlock(b, u) {
      FreedCovers(l, base, k, b, u);
    }
  }

  /** Some block of the list holds `n` units. */
  ghost predicate Fits(l: seq<Blk>, n: nat)
  {
    exists k :: 0 <= k < |l| && l[k].n >= n
  }

  /** Only the header of `bp` and headers of listed blocks may have changed. */
  ghost predicate Others(m: map<nat, Header>, m': map<nat, Header>, l: seq<Blk>, bp: nat)
  {
    && (forall a :: a in m ==> a in m')
    && forall a :: a in m && a != bp && !StartsBlock(l, a) ==> m'[a] == m[a]
  }

  lemma HeadedStays(m: map<nat, Header>, m': map<nat, Header>, l: seq<Blk>, bp: nat, used: set<Blk>)
    requires Headed(m, used) && Others(m, m', l, bp) && forall c :: c in used ==> c.a != bp && !StartsBlock(l, c.a)
    ensures Headed(m', used)
  {
  }

  ghost predicate StartsBlock(l: seq<Blk>, a: nat)
  {
    exists k :: 0 <= k < |l| && l[k].a == a
  }

  lemma OutsideStart(l: seq<Blk>, base: nat, b: Blk)
    requires ListOk(l, base) && Outside(l, b) && b.n > 0 && base < b.a
    ensures forall j :: 0 <= j < |l| ==> l[j].a != b.a
  {
    forall j | 0 <= j < |l| ensures l[j].a != b.a {
      if j > 0 && l[j].a == b.a {
        assert InBlock(b, b.a) && InBlock(l[j], b.a);
      }
    }
  }

  lemma FreedKeepsPlace(l: seq<Blk>, base: nat, k: nat, b: Blk)
    requires ListOk(l, base) && Place(l, b.a, k) && Outside(l, b) && b.n > 0
    ensures k < |Freed(l, k, b)| && Freed(l, k, b)[k].a == l[k].a && Fits(Freed(l, k, b), b.n)
  {
    Gap(l, base, k, b);
    assert Freed(l, k, b)[if JoinsPrev(l, k, b) then k else k + 1].n >= b.n;
  }

  /** The tests of free, which compare with the next header even across the wrap. */
  lemma JoinTests(l: seq<Blk>, base: nat, k: nat, b: Blk)
    requires ListOk(l, base) && Place(l, b.a, k)
    ensures End(b) == After(l, k) <==> JoinsNext(l, k, b)
    ensures l[k].a < b.a && (k + 1 < |l| ==> l[k + 1].a != l[k].a && l[k + 1].a != b.a)
  {
    Order(l, base, 0, k);
    if k + 1 < |l| {
      Order(l, base, k, k + 1);
    }
  }

  lemma FreeReady(m: map<nat, Header>, l: seq<Blk>, used: set<Blk>, regions: set<Blk>, base: nat, brk: nat, b: Blk)
    requires Parted(l, used, regions) && Below(regions, base, brk) && Headed(m, used) && b in used
    ensures b == Blk(b.a, m[b.a].size) && b.n > 0 && base < b.a && b.a in m && Outside(l, b)
    ensures l == [] || ListOk(l, base) ==> forall c :: c in used && c != b ==> c.a in m && c.a != b.a && !StartsBlock(l, c.a)
  {
    assert InBlock(b, b.a);
    assert UsedAt(used, b.a);
    forall u | InBlock(b, u) ensures !FreeAt(l, u) {
      assert UsedAt(used, u);
    }
    if l == [] || ListOk(l, base) {
      forall c | c in used && c != b ensures c.a != b.a && !StartsBlock(l, c.a) {
        assert InBlock(c, c.a);
        assert UsedAt(used, c.a);
        NotStart(l, base, c.a);
      }
    }
  }

  lemma NotStart(l: seq<Blk>, base: nat, a: nat)
    requires l == [] || ListOk(l, base)
    requires base < a && !FreeAt(l, a)
    ensures !StartsBlock(l, a)
  {
    forall k | 0 <= k < |l| ensures l[k].a != a {
      assert k > 0 ==> InBlock(l[k], l[k].a);
    }
  }

  lemma FreeParts(l: seq<Blk>, l': seq<Blk>, used: set<Blk>, regions: set<Blk>, b: Blk)
    requires Parted(l, used, regions) && b in used
    requires forall u: nat :: FreeAt(l', u) <==> FreeAt(l, u) || InBlock(b, u)
    ensures Parted(l', used - {b}, regions)
  {
    hide FreeAt, InBlock;
    var used' := used - {b};
    forall u: nat ensures UsedAt(used, u) <==> UsedAt(used', u) || InBlock(b, u) {
      if UsedAt(used, u) {
        var c :| c in used && InBlock(c, u);
        assert c == b || c in used';
      }
      if UsedAt(used', u) {
        var c :| c in used' && InBlock(c, u);
        assert c in used;
      }
    }
    forall u: nat ensures !(FreeAt(l', u) && UsedAt(used', u)) {
      if UsedAt(used', u) {
        var c :| c in used' && InBlock(c, u);
        assert c in used && c != b;
        assert !InBlock(b, u);
      }
    }
  }

  lemma FitsHere(l: seq<Blk>, j: nat, n: nat)
    requires j < |l| && n <= l[j].n
    ensures Fits(l, n)
  {
  }

  lemma UnitsBound(nbytes: nat)
    requires nbytes < UINT
    ensures 0 < Units(nbytes) <= 0x2000_0000
  {
  }

  /** The list of just `base` has no more room than none at all. */
  lemma StartFits(l: seq<Blk>, l': seq<Blk>, base: nat, n: nat)
    requires l' == l || (l == [] && l' == [Blk(base, 0)] && n > 0)
    ensures Fits(l', n) <==> Fits(l, n)
  {
  }

  lemma FitsLess(l: seq<Blk>, n: nat, m: nat)
    requires Fits(l, n) && m <= n
    ensures Fits(l, m)
  {
  }

  /** New memory is outside everything, and giving it a header disturbs no other. */
  lemma CoreReady(m: map<nat, Header>, l: seq<Blk>, used: set<Blk>, regions: set<Blk>, base: nat, brk: nat, b: Blk, h: Header)
    requires ListOk(l, base) && Linked(m, l) && Parted(l, used, regions) && Below(regions, base, brk) && Headed(m, used)
    requires b.a >= brk && b.n > 0
    ensures Outside(l, b) && base < b.a
    ensures Linked(m[b.a := h], l) && Headed(m[b.a := h], used)
    ensures forall c :: c in used ==> c.a != b.a && !StartsBlock(l, c.a)
  {
    forall u: nat | u >= brk ensures !FreeAt(l, u) && !UsedAt(used, u) {
    }
    forall c | c in used ensures c.a < brk && c.a != b.a && !StartsBlock(l, c.a) {
      assert InBlock(c, c.a);
      assert UsedAt(used, c.a);
      NotStart(l, base, c.a);
    }
    forall k: nat | k < |l| ensures l[k].a != b.a {
      assert k > 0 ==> InBlock(l[k], l[k].a);
      assert k > 0 ==> FreeAt(l, l[k].a);
    }
    hide ListOk, Parted;
    var m' := m[b.a := h];
    forall k: nat | k < |l| ensures CellOk(m', l, k) {
      assert CellOk(m, l, k);
    }
  }

  lemma CoreParts(l: seq<Blk>, l': seq<Blk>, used: set<Blk>, regions: set<Blk>, base: nat, brk: nat, b: Blk)
    requires Parted(l, used, regions) && Below(regions, base, brk) && b.a >= brk && b.n > 0
    requires forall u: nat :: FreeAt(l', u) <==> FreeAt(l, u) || InBlock(b, u)
    ensures Parted(l', used, regions + {b}) && Below(regions + {b}, base, End(b))
  {
    forall u: nat ensures UsedAt(regions + {b}, u) <==> UsedAt(regions, u) || InBlock(b, u) {
      if UsedAt(regions, u) {
        var c :| c in regions && InBlock(c, u);
        assert c in regions + {b};
      }
    }
    hide FreeAt;
    assert forall u: nat :: InBlock(b, u) ==> u >= brk;
  }

  // ---------- malloc ----------

  lemma CellAt(m: map<nat, Header>, l: seq<Blk>, k: nat)
    requires Linked(m, l) && k < |l|
    ensures CellOk(m, l, k) && l[k].a in m && m[l[k].a] == Header(After(l, k), l[k].n)
  {
  }

  lemma NotBase(l: seq<Blk>, base: nat, j: nat, n: nat)
    requires ListOk(l, base) && j < |l| && 0 < n <= l[j].n
    ensures j > 0
  {
  }

  lemma SameStart(l: seq<Blk>, base: nat, j: nat, k: nat)
    requires ListOk(l, base) && j < |l| && k < |l|
    ensures l[j].a == l[k].a <==> j == k
  {
  }

  /** malloc's search stands at `p`, behind `prevp`; the blocks since the start were too small. */
  ghost predicate Scan(l: seq<Blk>, at: nat, c: nat, n: nat, prevp: nat, p: nat)
  {
    && at < |l| && c < |l| && p == l[Nth(at, c, |l|)].a
    && prevp == l[if c == 0 then at else Nth(at, c - 1, |l|)].a
    && forall d :: 0 <= d < c ==> l[Nth(at, d, |l|)].n < n
  }

  lemma ScanStart(m: map<nat, Header>, l: seq<Blk>, at: nat, n: nat)
    requires Linked(m, l) && at < |l|
    ensures l[at].a in m && Scan(l, at, 0, n, l[at].a, m[l[at].a].ptr)
  {
    assert CellOk(m, l, at);
  }

  lemma ScanHere(m: map<nat, Header>, l: seq<Blk>, at: nat, c: nat, n: nat, prevp: nat, p: nat) returns (j: nat)
    requires Linked(m, l) && Scan(l, at, c, n, prevp, p)
    ensures j < |l| && p == l[j].a && p in m && m[p].size == l[j].n && (j > 0 ==> prevp == l[j - 1].a)
  {
    j := Nth(at, c, |l|);
    assert CellOk(m, l, j);
  }

  lemma ScanStep(m: map<nat, Header>, l: seq<Blk>, base: nat, at: nat, c: nat, n: nat, prevp: nat, p: nat)
    requires ListOk(l, base) && Linked(m, l) && Scan(l, at, c, n, prevp, p) && p in m && m[p].size < n
    ensures p != l[at].a ==> c + 1 < |l| && Scan(l, at, c + 1, n, p, m[p].ptr)
    ensures p == l[at].a ==> !Fits(l, n)
  {
    var j := Nth(at, c, |l|);
    SameStart(l, base, j, at);
    assert CellOk(m, l, j);
    hide ListOk, Linked;
    if j == at {
      AllScanned(l, at, c, n);
    }
  }

  lemma FirstList(m: map<nat, Header>, base: nat, regions: set<Blk>)
    requires base in m && m[base] == Header(base, 0) && regions == {}
    ensures ListOk([Blk(base, 0)], base) && Linked(m, [Blk(base, 0)]) && Parted([Blk(base, 0)], {}, regions)
  {
    assert forall u :: !FreeAt([Blk(base, 0)], u);
  }

  /** Having come back to where the search began, it has seen every block. */
  lemma AllScanned(l: seq<Blk>, at: nat, c: nat, n: nat)
    requires at < |l| && c < |l| && Nth(at, c, |l|) == at && l[at].n < n
    requires forall d :: 0 <= d < c ==> l[Nth(at, d, |l|)].n < n
    ensures !Fits(l, n)
  {
    forall k | 0 <= k < |l| ensures l[k].n < n {
      var d := if k > at then k - at - 1 else k - at - 1 + |l|;
      assert Nth(at, d, |l|) == k;
    }
  }

  lemma TakeFacts(m: map<nat, Header>, l: seq<Blk>, used: set<Blk>, regions: set<Blk>, base: nat, j: nat, n: nat)
    requires ListOk(l, base) && Linked(m, l) && Parted(l, used, regions) && Headed(m, used)
    requires 0 < j < |l| && 0 < n <= l[j].n && CellOk(m, l, j) && CellOk(m, l, j - 1)
    ensures ListOk(Taken(l, j, n), base) && Linked(TakenMem(m, l, j, n), Taken(l, j, n))
    ensures j - 1 < |Taken(l, j, n)| && Taken(l, j, n)[j - 1].a == l[j - 1].a
    ensures Tail(l, j, n) !in used && Parted(Taken(l, j, n), used + {Tail(l, j, n)}, regions)
    ensures Headed(TakenMem(m, l, j, n), used + {Tail(l, j, n)})
  {
    TakenListOk(l, base, j, n);
    TakenLinked(m, l, base, j, n);
    TakeParts(l, used, regions, base, j, n);
    TakeHeads(m, l, used, regions, base, j, n);
  }

  lemma TakeParts(l: seq<Blk>, used: set<Blk>, regions: set<Blk>, base: nat, j: nat, n: nat)
    requires ListOk(l, base) && Parted(l, used, regions) && 0 < j < |l| && 0 < n <= l[j].n
    ensures Tail(l, j, n) !in used && Parted(Taken(l, j, n), used + {Tail(l, j, n)}, regions)
  {
    var b, l' := Tail(l, j, n), Taken(l, j, n);
    var used' := used + {b};
    forall u: nat ensures (FreeAt(l', u) <==> FreeAt(l, u) && !InBlock(b, u)) && (InBlock(b, u) ==> FreeAt(l, u)) {
      TakenCovers(l, base, j, n, u);
    }
    assert InBlock(b, b.a);
    hide ListOk, FreeAt, Taken, Tail;
    forall u: nat ensures UsedAt(used', u) <==> UsedAt(used, u) || InBlock(b, u) {
      if UsedAt(used, u) {
        var c :| c in used && InBlock(c, u);
        assert c in used';
      }
    }
    assert b in used ==> UsedAt(used, b.a);
    forall c, d, u: nat | c in used' && d in used' && InBlock(c, u) && InBlock(d, u) ensures c == d {
      assert c in used ==> UsedAt(used, u);
      assert d in used ==> UsedAt(used, u);
    }
  }

  lemma TakeHeads(m: map<nat, Header>, l: seq<Blk>, used: set<Blk>, regions: set<Blk>, base: nat, j: nat, n: nat)
    requires ListOk(l, base) && Linked(m, l) && Parted(l, used, regions) && Headed(m, used)
    requires 0 < j < |l| && 0 < n <= l[j].n && CellOk(m, l, j) && CellOk(m, l, j - 1)
    ensures Headed(TakenMem(m, l, j, n), used + {Tail(l, j, n)})
  {
    forall c | c in used ensures c.a != l[j].a && c.a != Tail(l, j, n).a && (c.a == l[j - 1].a ==> TakenMem(m, l, j, n)[c.a].size == c.n) {
      assert InBlock(c, c.a);
      assert UsedAt(used, c.a);
      assert InBlock(l[j], l[j].a) && InBlock(l[j], Tail(l, j, n).a);
    }
  }
}
