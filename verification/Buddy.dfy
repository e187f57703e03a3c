/**
 The buddy allocator of kern/mm/buddy.c: marks, list heads, recursive split and merge.

 Every order in use has at most 0xFFFF marks, the largest number whose indexes fit the 16-bit
 links beside NIL; `low` is the lowest level in use.
 */
module Buddy {
  import opened Common
  import opened BuddySpec
  import opened BuddyMarks


  /** blkid2mem, start_heap + (1 << order) * blkid: units of 64 bytes, and shifts by the level. */
  function Address(startHeap: nat, b: Blk): nat
  {
    startHeap + 64 * First(b.k, b.id)
  }

  /** mem2blkid, a shift right by the order. */
  function BlockId(startHeap: nat, mem: nat, k: nat): nat
    requires startHeap <= mem
  {
    Up((mem - startHeap) / 64, k)
  }

  /** The low `order` bits of the address are zero. */
  predicate AlignedTo(mem: nat, k: nat)
  {
    mem % 64 == 0 && First(k, Up(mem / 64, k)) == mem / 64
  }

  /** mem2blkid undoes blkid2mem, and a page-aligned heap has aligned blocks only. */
  lemma AddressRoundTrip(startHeap: nat, b: Blk)
    requires AlignedTo(startHeap, TOP) && b.k <= TOP
    ensures BlockId(startHeap, Address(startHeap, b), b.k) == b.id
    ensures AlignedTo(Address(startHeap, b), b.k)
  {
    hide First, Up;
    var h := Up(startHeap / 64, TOP);
    FirstFirst(b.k, TOP - b.k, h);
    FirstAdd(b.k, First(TOP - b.k, h), b.id);
    Units(startHeap, First(b.k, b.id));
  }

  /** The bytes of a block: 2^order of them, from its address on. */
  lemma BlockBytes(startHeap: nat, b: Blk, u: nat)
    ensures Address(startHeap, b) == startHeap + 64 * Length(b.k) * b.id
    ensures Inside(b, u) <==> Address(startHeap, b) <= startHeap + 64 * u < Address(startHeap, b) + 64 * Length(b.k)
    ensures Length(0) == 1 && Length(b.k + 1) == 2 * Length(b.k)
  {
    FirstIs(b.k, b.id);
    InsideRun(b, u);
    assert 64 * (Length(b.k) * b.id) == 64 * Length(b.k) * b.id;
  }

  lemma OneHolder(used: set<Blk>, b: Blk, c: Blk, u: nat)
    requires Disjoint(used) && Levels(used) && b in used && c in used && b != c && Inside(b, u)
    ensures !Inside(c, u)
  {
    hide Up;
    assert At(used, u, b.k);
    assert Inside(c, u) ==> At(used, u, c.k);
  }

  /** Two blocks that callers hold have no byte in common. */
  lemma HeldApart(free: set<Blk>, used: set<Blk>, units: nat, startHeap: nat, b: Blk, c: Blk)
    requires Tiled(free, used, units) && b in used && c in used && b != c
    ensures var x, y := Address(startHeap, b), Address(startHeap, c); x + 64 * Length(b.k) <= y || y + 64 * Length(c.k) <= x
  {
    hide Up, First, Length, Covered, Disjoint, Levels, Address, Inside;
    var u, v := First(b.k, b.id), First(c.k, c.id);
    assert Address(startHeap, b) == startHeap + 64 * u && Address(startHeap, c) == startHeap + 64 * v by { AddressIs(startHeap, b); AddressIs(startHeap, c); }
    BlockBytes(startHeap, b, u);
    BlockBytes(startHeap, c, v);
    BlockBytes(startHeap, c, u);
    BlockBytes(startHeap, b, v);
    LengthPositive(b.k);
    LengthPositive(c.k);
    OneHolder(used, b, c, u);
    OneHolder(used, c, b, v);
  }

  lemma AddressIs(startHeap: nat, b: Blk)
    ensures Address(startHeap, b) == startHeap + 64 * First(b.k, b.id)
  {
  }

  lemma LengthPositive(k: nat)
    ensures Length(k) > 0
  {
  }

  lemma BuddyIndex(k: nat, id: nat)
    ensures var other := if id % 2 == 0 then id + 1 else id - 1; Blk(k, other) == Buddy(Blk(k, id)) && other / 32 == id / 32
  {
  }

  lemma ParentIndex(k: nat, id: nat)
    ensures Parent(Blk(k, id)) == Blk(k + 1, id / 2)
  {
  }

  lemma Units(start: nat, u: nat)
    requires start % 64 == 0
    ensures (start + 64 * u) % 64 == 0 && (start + 64 * u) / 64 == start / 64 + u
  {
  }

  // ---------- the layout of buddy_init ----------

  const EMPTY: Mark := Mark(0xFFFF_FFFF, [false, false, false, false, false, false, false, false,
                                         false, false, false, false, false, false, false, false,
                                         false, false, false, false, false, false, false, false,
                                         false, false, false, false, false, false, false, false])

  function EmptyMarks(n: nat): (r: seq<Mark>)
    ensures |r| == n && forall i :: 0 <= i < n ==> r[i] == EMPTY
  {
    seq(n, _ => EMPTY)
  }

  /** The marks of the highest order for `len` bytes. */
  function TopMarks(len: nat): nat { len / 0x20000 + 1 }

  lemma TopCount(n: nat)
    ensures MarkCount(n, TOP) == n
  {
  }

  /** Every order below has twice the marks. */
  function MarkCount(n: nat, k: nat): nat
    requires k <= TOP
    decreases TOP - k
  {
    if k == TOP then n else 2 * MarkCount(n, k + 1)
  }

  function MarkOffset(n: nat, k: nat): nat
    requires k <= TOP
    decreases TOP - k
  {
    if k == TOP then 0 else MarkOffset(n, k + 1) + MarkCount(n, k + 1)
  }

  /** All orders together have 127 marks for each of the highest. */
  lemma AllMarks(n: nat)
    ensures MarkOffset(n, 0) + MarkCount(n, 0) == 127 * n
  {
    assert MarkCount(n, 6) == n && MarkCount(n, 5) == 2 * n && MarkCount(n, 4) == 4 * n && MarkCount(n, 3) == 8 * n;
    assert MarkCount(n, 2) == 16 * n && MarkCount(n, 1) == 32 * n && MarkCount(n, 0) == 64 * n;
    assert MarkOffset(n, 6) == 0 && MarkOffset(n, 5) == n && MarkOffset(n, 4) == 3 * n && MarkOffset(n, 3) == 7 * n;
    assert MarkOffset(n, 2) == 15 * n && MarkOffset(n, 1) == 31 * n && MarkOffset(n, 0) == 63 * n;
  }

  lemma PageAligned(page: nat)
    ensures AlignedTo(4096 * page, TOP)
  {
    FirstTop(page);
  }

  /** The marks take eight bytes each; the heap starts at the next page. */
  function HeapStart(vstart: nat, vend: nat): (a: nat)
    requires vstart <= vend
    ensures AlignedTo(a, TOP) && a >= vstart && a % 4096 == 0
    ensures vstart + 8 * 127 * TopMarks(vend - vstart) <= a < vstart + 8 * 127 * TopMarks(vend - vstart) + 4096
  {
    var n := TopMarks(vend - vstart);
    AllMarks(n);
    var page := (vstart + (MarkOffset(n, 0) + MarkCount(n, 0)) * 8 + 4095) / 4096;
    PageAligned(page);
    page * 4096
  }

  function TopBlocks(startHeap: nat, vend: nat): nat
  {
    if startHeap < vend then (vend - startHeap + 4095) / 4096 else 0
  }

  function MarkOffsets(n: nat): (r: seq<nat>)
    ensures |r| == TOP + 1 && forall k :: 0 <= k <= TOP ==> r[k] == MarkOffset(n, k)
  {
    seq(TOP + 1, k requires 0 <= k <= TOP => MarkOffset(n, k))
  }

  function MarkCounts(n: nat): (r: seq<nat>)
    ensures |r| == TOP + 1 && forall k :: 0 <= k <= TOP ==> r[k] == MarkCount(n, k)
  {
    seq(TOP + 1, k requires 0 <= k <= TOP => MarkCount(n, k))
  }

  ghost function EmptyLevelMarks(n: nat): (r: seq<seq<Mark>>)
    ensures |r| == TOP + 1 && forall k :: 0 <= k <= TOP ==> r[k] == EmptyMarks(MarkCount(n, k))
  {
    seq(TOP + 1, k requires 0 <= k <= TOP => EmptyMarks(MarkCount(n, k)))
  }

  ghost function EmptyPlaces(n: nat): (r: seq<seq<nat>>)
    ensures |r| == TOP + 1 && forall k :: 0 <= k <= TOP ==> |r[k]| == MarkCount(n, k)
  {
    seq(TOP + 1, k requires 0 <= k <= TOP => seq(MarkCount(n, k), _ => 0))
  }

  /** The regions of the orders follow one another, highest order first. */
  lemma MarkLayout(n: nat)
    ensures forall k :: 0 <= k < TOP ==> MarkCount(n, k) == 2 * MarkCount(n, k + 1)
    ensures forall k :: 0 <= k <= TOP ==> MarkOffset(n, k) + MarkCount(n, k) <= MarkOffset(n, 0) + MarkCount(n, 0)
    ensures forall j, k :: 0 <= j < k <= TOP ==> MarkOffset(n, k) + MarkCount(n, k) <= MarkOffset(n, j)
  {
    forall j, k | 0 <= j < k <= TOP ensures MarkOffset(n, k) + MarkCount(n, k) <= MarkOffset(n, j) {
      OffsetsDescend(n, j, k);
    }
  }

  lemma {:induction false} OffsetsDescend(n: nat, j: nat, k: nat)
    requires j < k <= TOP
    ensures MarkOffset(n, k) + MarkCount(n, k) <= MarkOffset(n, j)
    decreases k - j
  {
    if j + 1 < k {
      OffsetsDescend(n, j + 1, k);
    }
  }

  lemma {:induction false} CountsDescend(n: nat, j: nat, k: nat)
    requires j <= k <= TOP
    ensures MarkCount(n, k) <= MarkCount(n, j)
    decreases k - j
  {
    if j < k {
      CountsDescend(n, j + 1, k);
    }
  }

  lemma EmptyLevels(n: nat, low: nat, ls: seq<seq<Mark>>, heads: seq<nat>, lists: seq<seq<nat>>, poss: seq<seq<nat>>)
    requires low <= TOP && MarkCount(n, low) <= NIL
    requires |ls| == |heads| == |lists| == |poss| == TOP + 1
    requires forall k :: 0 <= k <= TOP ==> heads[k] == NIL && lists[k] == []
    requires forall k :: 0 <= k <= TOP ==> ls[k] == EmptyMarks(MarkCount(n, k)) && |poss[k]| == MarkCount(n, k)
    ensures LevelsOk(ls, heads, lists, poss, {}, low)
  {
    forall k | low <= k <= TOP ensures LevelOk(ls[k], heads[k], lists[k], poss[k], k, {}) {
      CountsDescend(n, low, k);
      assert Zero(EMPTY.bitmap);
      assert forall id: nat :: !Bit(EMPTY.bitmap, id);
    }
  }

  lemma NothingFree()
    ensures FreeOk({}) && Tiled({}, {}, 0)
  {
  }

  lemma NextTopApart(free: set<Blk>, j: nat)
    requires Tiled(free, {}, 64 * j)
    ensures Apart(free, Blk(TOP, j))
  {
    forall u | Inside(Blk(TOP, j), u) ensures !Covered(free, u) {
      TopUnit(u);
    }
  }

  lemma NextTopTiles(free: set<Blk>, j: nat, free': set<Blk>)
    requires Tiled(free, {}, 64 * j) && Gained(free, Blk(TOP, j), free')
    ensures Tiled(free', {}, 64 * (j + 1))
  {
    forall u: nat ensures Covered(free', u) <==> u < 64 * (j + 1) {
      TopUnit(u);
      assert !Covered({}, u);
    }
  }

  /** The marks of the highest order are enough for the whole heap. */
  lemma TopBlockFits(vstart: nat, vend: nat, j: nat)
    requires vstart <= vend
    ensures var a, n := HeapStart(vstart, vend), TopMarks(vend - vstart);
            && TopBlocks(a, vend) <= 32 * n
            && (a + 4096 * j < vend ==> j < TopBlocks(a, vend) && j / 32 < n)
            && (a + 4096 * j >= vend ==> j >= TopBlocks(a, vend))
  {
  }

  // ---------- free and used blocks ----------

  /** Free and used blocks are disjoint, among themselves and from each other, and tile the heap. */
  ghost predicate Tiled(free: set<Blk>, used: set<Blk>, units: nat)
  {
    && Disjoint(used) && Levels(used)
    && (forall u: nat :: !(Covered(free, u) && Covered(used, u)))
    && (forall u: nat :: Covered(free, u) || Covered(used, u) <==> u < units)
  }

  /** No run of free units fills an aligned block of the level. */
  ghost predicate NoRun(free: set<Blk>, k: nat)
  {
    forall id: nat :: !Within(free, Blk(k, id))
  }

  ghost predicate Handed(free: set<Blk>, used: set<Blk>, free': set<Blk>, used': set<Blk>, b: Blk)
  {
    b.k <= TOP && Within(free, b) && Lost(free, b, free') && b !in used && used' == used + {b}
  }

  ghost predicate Returned(free: set<Blk>, used: set<Blk>, free': set<Blk>, used': set<Blk>, b: Blk)
  {
    b.k <= TOP && Gained(free, b, free') && b in used && used' == used - {b}
  }

  lemma HandOut(free: set<Blk>, used: set<Blk>, units: nat, b: Blk, free': set<Blk>)
    requires Tiled(free, used, units) && b.k <= TOP && Within(free, b) && Lost(free, b, free')
    ensures Tiled(free', used + {b}, units) && b !in used
  {
    InsertCovers(used, b);
    var used' := used + {b};
    var v := First(b.k, b.id);
    assert Inside(b, v);
    assert b in used ==> At(used, v, b.k);
    forall u, j, k | 0 <= j < k <= TOP && At(used', u, j) ensures !At(used', u, k) {
      assert At(used, u, j) ==> Covered(used, u);
      assert At(used, u, k) ==> Covered(used, u);
      assert Up(u, j) == b.id && j == b.k ==> Inside(b, u);
      assert Up(u, k) == b.id && k == b.k ==> Inside(b, u);
    }
  }

  lemma HeldIsApart(free: set<Blk>, used: set<Blk>, units: nat, b: Blk)
    requires Tiled(free, used, units) && b in used
    ensures Apart(free, b) && b.k <= TOP
  {
    forall u | Inside(b, u) ensures !Covered(free, u) {
      assert At(used, u, b.k);
    }
  }

  lemma TopUnit(u: nat)
    ensures Up(u, TOP) == u / 64
  {
    Shifts(u);
  }

  lemma HeldInRange(free: set<Blk>, used: set<Blk>, top: nat, b: Blk)
    requires Tiled(free, used, 64 * top) && b in used
    ensures b.k <= TOP && Up(b.id, TOP - b.k) < top
  {
    var u := First(b.k, b.id);
    assert At(used, u, b.k);
    assert Covered(used, u);
    UpUp(u, b.k, TOP - b.k);
    TopUnit(u);
  }

  lemma SomeRun(s: set<Blk>, b: Blk)
    requires Within(s, b)
    ensures !NoRun(s, b.k)
  {
    assert b == Blk(b.k, b.id);
  }

  lemma NoneRun(s: set<Blk>, k: nat)
    requires FreeOk(s) && k <= TOP && forall b :: b in s ==> b.k < k
    ensures NoRun(s, k)
  {
    forall i: nat ensures !Within(s, Blk(k, i)) { NoAlignedRun(s, k, i); }
  }

  lemma TakeBack(free: set<Blk>, used: set<Blk>, units: nat, b: Blk, free': set<Blk>)
    requires Tiled(free, used, units) && b in used && Gained(free, b, free')
    ensures Tiled(free', used - {b}, units)
  {
    RemoveCovers(used, b);
    var used' := used - {b};
    SubsetDisjoint(used, used');
    forall u | Inside(b, u) ensures Covered(used, u) {
      assert At(used, u, b.k);
    }
  }

  /** The set bits of one level are its free blocks. */
  ghost predicate Reflects(ms: seq<Mark>, k: nat, free: set<Blk>)
  {
    forall id: nat :: Blk(k, id) in free <==> id / 32 < |ms| && Bit(ms[id / 32].bitmap, id)
  }

  ghost predicate LevelOk(ms: seq<Mark>, head: nat, list: seq<nat>, pos: seq<nat>, k: nat, free: set<Blk>)
  {
    ListOk(ms, head, list, pos) && Reflects(ms, k, free)
  }

  /** The levels in use are in order; those below are as buddy_init left them. */
  ghost predicate LevelsOk(ls: seq<seq<Mark>>, heads: seq<nat>, lists: seq<seq<nat>>, poss: seq<seq<nat>>, free: set<Blk>, low: nat)
  {
    && |ls| == |heads| == |lists| == |poss| == TOP + 1
    && (forall k :: low <= k <= TOP ==> LevelOk(ls[k], heads[k], lists[k], poss[k], k, free))
    && forall k :: 0 <= k < low && k <= TOP ==> heads[k] == NIL && ls[k] == EmptyMarks(|ls[k]|)
  }

  // ---------- one level, as values ----------

  /** mark_blk on the marks of one level. */
  function Marked(ms: seq<Mark>, head: nat, id: nat): seq<Mark>
    requires id / 32 < |ms| && (head != NIL ==> head < |ms|)
  {
    var i := id / 32;
    var ms' := ms[i := ms[i].(bitmap := SetBit(ms[i].bitmap, id))];
    if Zero(ms[i].bitmap) then Pushed(ms', head, i) else ms'
  }

  function MarkedHead(ms: seq<Mark>, head: nat, id: nat): nat
    requires id / 32 < |ms|
  {
    if Zero(ms[id / 32].bitmap) then id / 32 else head
  }

  lemma MarkLevel(ms: seq<Mark>, head: nat, list: seq<nat>, pos: seq<nat>, k: nat, free: set<Blk>, id: nat)
      returns (list': seq<nat>, pos': seq<nat>)
    requires LevelOk(ms, head, list, pos, k, free) && id / 32 < |ms|
    ensures head != NIL ==> head < |ms|
    ensures LevelOk(Marked(ms, head, id), MarkedHead(ms, head, id), list', pos', k, free + {Blk(k, id)})
  {
    var i := id / 32;
    var bm := SetBit(ms[i].bitmap, id);
    HeadInRange(ms, head, list, pos);
    MarkReflects(ms, head, k, free, id);
    hide Reflects, Pushed, NextsOk, PrevsOk, MembersOk, PlacesOk, Zero, SetBit;
    if Zero(ms[i].bitmap) {
      PushKeepsList(ms, head, list, pos, i, bm);
      list', pos' := [i] + list, FrontPos(pos, i);
    } else {
      BitsKeepList(ms, head, list, pos, i, bm);
      list', pos' := list, pos;
    }
  }

  lemma HeadInRange(ms: seq<Mark>, head: nat, list: seq<nat>, pos: seq<nat>)
    requires ListOk(ms, head, list, pos)
    ensures head != NIL ==> head < |ms| && !Zero(ms[head].bitmap)
    ensures head == NIL ==> forall i :: 0 <= i < |ms| ==> Zero(ms[i].bitmap)
  {
    hide Zero, NextsOk, PrevsOk;
    assert list != [] ==> pos[list[0]] == 0;
  }

  lemma MarkReflects(ms: seq<Mark>, head: nat, k: nat, free: set<Blk>, id: nat)
    requires Reflects(ms, k, free) && id / 32 < |ms| && (head != NIL ==> head < |ms|)
    ensures Reflects(Marked(ms, head, id), k, free + {Blk(k, id)})
  {
    hide Lnks, NextLnk, PreLnk, Zero, SetBit, Bit, Relink;
    var r := Marked(ms, head, id);
    assert forall i :: 0 <= i < |ms| ==> r[i].bitmap == if i == id / 32 then SetBit(ms[i].bitmap, id) else ms[i].bitmap;
    forall x: nat ensures Blk(k, x) in free + {Blk(k, id)} <==> x / 32 < |r| && Bit(r[x / 32].bitmap, x) {
      SameBlock(x, id);
    }
  }

  lemma SameBlock(x: nat, y: nat)
    ensures x == y <==> x / 32 == y / 32 && x % 32 == y % 32
  {
  }

  /** unmark_blk on the marks of one level. */
  function Unmarked(ms: seq<Mark>, id: nat): seq<Mark>
    requires id / 32 < |ms|
    requires var l := ms[id / 32].lnks; (PreLnk(l) != NIL ==> PreLnk(l) < |ms|) && (NextLnk(l) != NIL ==> NextLnk(l) < |ms|)
  {
    var i := id / 32;
    var ms' := ms[i := ms[i].(bitmap := ClearBit(ms[i].bitmap, id))];
    if Zero(ms'[i].bitmap) then Unlinked(ms', i) else ms'
  }

  function UnmarkedHead(ms: seq<Mark>, head: nat, id: nat): nat
    requires id / 32 < |ms|
  {
    var i := id / 32;
    if Zero(ClearBit(ms[i].bitmap, id)) then UnlinkedHead(ms, head, i) else head
  }

  lemma UnmarkLevel(ms: seq<Mark>, head: nat, list: seq<nat>, pos: seq<nat>, k: nat, free: set<Blk>, id: nat)
      returns (list': seq<nat>, pos': seq<nat>)
    requires LevelOk(ms, head, list, pos, k, free) && Blk(k, id) in free
    ensures id / 32 < |ms|
    ensures var l := ms[id / 32].lnks; (PreLnk(l) != NIL ==> PreLnk(l) < |ms|) && (NextLnk(l) != NIL ==> NextLnk(l) < |ms|)
    ensures LevelOk(Unmarked(ms, id), UnmarkedHead(ms, head, id), list', pos', k, free - {Blk(k, id)})
  {
    var i := id / 32;
    var bm := ClearBit(ms[i].bitmap, id);
    assert !Zero(ms[i].bitmap);
    LinksInRange(ms, head, list, pos, i);
    UnmarkReflects(ms, k, free, id);
    hide Reflects, Unlinked, NextsOk, PrevsOk, MembersOk, PlacesOk, Zero, ClearBit, PreLnk, NextLnk;
    if Zero(bm) {
      UnlinkKeepsList(ms, head, list, pos, i, bm);
      list', pos' := Cut(list, pos[i]), CutPos(pos, pos[i]);
    } else {
      BitsKeepList(ms, head, list, pos, i, bm);
      list', pos' := list, pos;
    }
  }

  lemma LinksInRange(ms: seq<Mark>, head: nat, list: seq<nat>, pos: seq<nat>, i: nat)
    requires ListOk(ms, head, list, pos) && i < |ms| && !Zero(ms[i].bitmap)
    ensures var l := ms[i].lnks; (PreLnk(l) != NIL ==> PreLnk(l) < |ms|) && (NextLnk(l) != NIL ==> NextLnk(l) < |ms|)
  {
    hide PreLnk, NextLnk, Zero, NextsOk, PrevsOk;
    LinksOf(ms, list, pos, pos[i]);
  }

  lemma UnmarkReflects(ms: seq<Mark>, k: nat, free: set<Blk>, id: nat)
    requires Reflects(ms, k, free) && id / 32 < |ms|
    requires var l := ms[id / 32].lnks; (PreLnk(l) != NIL ==> PreLnk(l) < |ms|) && (NextLnk(l) != NIL ==> NextLnk(l) < |ms|)
    ensures Reflects(Unmarked(ms, id), k, free - {Blk(k, id)})
  {
    hide Lnks, NextLnk, PreLnk, Zero, ClearBit, Bit, Relink;
    var r := Unmarked(ms, id);
    assert forall i :: 0 <= i < |ms| ==> r[i].bitmap == if i == id / 32 then ClearBit(ms[i].bitmap, id) else ms[i].bitmap;
    forall x: nat ensures Blk(k, x) in free - {Blk(k, id)} <==> x / 32 < |r| && Bit(r[x / 32].bitmap, x) {
      SameBlock(x, id);
    }
  }

  /** The other levels do not notice. */
  lemma ReplaceLevel(ls: seq<seq<Mark>>, heads: seq<nat>, lists: seq<seq<nat>>, poss: seq<seq<nat>>, free: set<Blk>,
                     low: nat, k: nat, ms: seq<Mark>, head: nat, list: seq<nat>, pos: seq<nat>, free': set<Blk>)
    requires LevelsOk(ls, heads, lists, poss, free, low) && low <= k <= TOP && LevelOk(ms, head, list, pos, k, free')
    requires forall b: Blk :: b.k != k ==> (b in free' <==> b in free)
    ensures LevelsOk(ls[k := ms], heads[k := head], lists[k := list], poss[k := pos], free', low)
  {
    hide ListOk;
    forall j | low <= j <= TOP && j != k ensures LevelOk(ls[j], heads[j], lists[j], poss[j], j, free') {
      assert LevelOk(ls[j], heads[j], lists[j], poss[j], j, free);
    }
  }

  // ---------- the allocator ----------

  class Allocator {
    const marks: array<Mark>    // the marks of all orders, highest order first
    const heads: array<nat>     // kmem.orders[..].head
    const offset: seq<nat>      // kmem.orders[..].offset
    const count: seq<nat>       // how many marks each order has
    const startHeap: nat        // kmem.start_heap
    ghost const low: nat        // the lowest level in use
    ghost const top: nat        // how many blocks of the highest order the heap has

    ghost var ls: seq<seq<Mark>>
    ghost var lists: seq<seq<nat>>
    ghost var poss: seq<seq<nat>>
    ghost var free: set<Blk>
    ghost var used: set<Blk>    // what callers hold

    ghost predicate Shape()
    {
      && heads.Length == |offset| == |count| == TOP + 1
      && (forall k :: 0 <= k <= TOP ==> offset[k] + count[k] <= marks.Length)
      && (forall j, k :: 0 <= j < k <= TOP ==> offset[k] + count[k] <= offset[j])
      && (forall k :: 0 <= k < TOP ==> count[k] == 2 * count[k + 1])
    }

    /** `ls` is the mark array cut into its levels. */
    ghost predicate Mirrors()
      requires Shape()
      reads this`ls, marks
    {
      |ls| == TOP + 1 && forall k :: 0 <= k <= TOP ==> ls[k] == marks[offset[k]..offset[k] + count[k]]
    }

    ghost predicate Valid()
      reads this, marks, heads
    {
      && Shape() && Mirrors()
      && LevelsOk(ls, heads[..], lists, poss, free, low)
      && Levels(free) && forall b :: b in free ==> low <= b.k
    }

    /**
     buddy_init over [vstart, vend): the marks first, then the heap, whose blocks of the highest
     order are freed one by one. The last one may reach beyond vend.
     */
    constructor (vstart: nat, vend: nat, ghost low: nat)
      requires vstart <= vend && low <= TOP && MarkCount(TopMarks(vend - vstart), low) <= NIL
      ensures HeapOk() && used == {} && startHeap == HeapStart(vstart, vend) && this.low == low
      ensures top == TopBlocks(startHeap, vend)
      ensures fresh(marks) && fresh(heads)
    {
      hide LevelsOk, FreeOk, Tiled, MarkOffset, MarkCount, EmptyMarks, MarkOffsets, MarkCounts, EmptyPlaces, EmptyLevelMarks;
      hide HeapStart, TopBlocks, TopMarks, NextsOk;
      var n := TopMarks(vend - vstart);
      TopCount(n);
      var total := MarkOffset(n, 0) + MarkCount(n, 0);
      this.low := low;
      startHeap := HeapStart(vstart, vend);
      top := TopBlocks(HeapStart(vstart, vend), vend);
      offset, count := MarkOffsets(n), MarkCounts(n);
      marks := new Mark[total](_ => EMPTY);
      heads := new nat[TOP + 1](_ => NIL);
      free, used := {}, {};
      lists, poss, ls := [[], [], [], [], [], [], []], EmptyPlaces(n), EmptyLevelMarks(n);
      new;
      LaidOut(n, low);
      FillHeap(vstart, vend);
    }

    /** The freshly set marks are a valid, empty free list of every order in use. */
    lemma LaidOut(n: nat, low: nat)
      requires low <= TOP && MarkCount(n, low) <= NIL && free == {} && low == this.low
      requires offset == MarkOffsets(n) && count == MarkCounts(n)
      requires heads.Length == TOP + 1 && forall k :: 0 <= k <= TOP ==> heads[k] == NIL
      requires lists == [[], [], [], [], [], [], []] && poss == EmptyPlaces(n) && ls == EmptyLevelMarks(n)
      requires marks.Length == MarkOffset(n, 0) + MarkCount(n, 0)
      requires forall i :: 0 <= i < marks.Length ==> marks[i] == EMPTY
      ensures Valid()
    {
      hide LevelsOk, MarkOffset, MarkCount, EmptyMarks;
      MarkLayout(n);
      EmptyLevels(n, low, ls, heads[..], lists, poss);
      forall k | 0 <= k <= TOP ensures ls[k] == marks[offset[k]..offset[k] + count[k]] {
      }
    }

    method FillHeap(vstart: nat, vend: nat)
      requires Valid() && low <= TOP && free == used == {} && vstart <= vend
      requires startHeap == HeapStart(vstart, vend) && top == TopBlocks(startHeap, vend)
      requires |ls[TOP]| == TopMarks(vend - vstart)
      modifies this`ls, this`lists, this`poss, this`free, marks, heads
      ensures HeapOk()
    {
      hide LevelsOk, Shape, FreeOk, Tiled, Apart, Gained;
      NothingFree();
      var i := startHeap;
      ghost var j := 0;
      while i < vend
        invariant i == startHeap + 4096 * j && j <= top
        invariant Valid() && FreeOk(free) && Tiled(free, {}, 64 * j)
        invariant |ls[TOP]| == TopMarks(vend - vstart)
        decreases vend - i
      {
        TopBlockFits(vstart, vend, j);
        NextTopApart(free, j);
        ghost var f := free;
        InternalKfree(TOP, (i - startHeap) / 4096);
        NextTopTiles(f, j, free);
        i := i + 4096;
        j := j + 1;
      }
      TopBlockFits(vstart, vend, j);
    }

    /** get_mark. */
    method GetMark(k: nat, i: nat) returns (m: Mark)
      requires Shape() && Mirrors() && k <= TOP && i < |ls[k]|
      ensures m == ls[k][i]
    {
      m := marks[offset[k] + i];
    }

    method SetMark(k: nat, i: nat, m: Mark)
      requires Shape() && Mirrors() && k <= TOP && i < |ls[k]|
      modifies marks, this`ls
      ensures Mirrors() && ls == old(ls)[k := old(ls)[k][i := m]]
    {
      marks[offset[k] + i] := m;
      ls := ls[k := ls[k][i := m]];
      forall j | 0 <= j <= TOP ensures ls[j] == marks[offset[j]..offset[j] + count[j]] {
        if j < k {
          assert offset[k] + count[k] <= offset[j];
        } else if j > k {
          assert offset[j] + count[j] <= offset[k];
        }
      }
    }

    /** The link writes of mark_blk. */
    method PushFront(k: nat, i: nat)
      requires Shape() && Mirrors() && k <= TOP && i < |ls[k]| && (heads[k] != NIL ==> heads[k] < |ls[k]|)
      modifies marks, heads, this`ls
      ensures Mirrors() && ls == old(ls)[k := Pushed(old(ls)[k], old(heads[k]), i)]
      ensures heads[..] == old(heads[..])[k := i]
    {
      hide NextLnk, Lnks;
      var mk := GetMark(k, i);
      SetMark(k, i, mk.(lnks := Lnks(NIL, heads[k])));
      if heads[k] != NIL {
        var p := GetMark(k, heads[k]);
        SetMark(k, heads[k], p.(lnks := Lnks(i, NextLnk(p.lnks))));
      }
      heads[k] := i;
    }

    /** mark_blk. Its panic needs a block that is free already. */
    method MarkBlk(k: nat, id: nat)
      requires Valid() && low <= k <= TOP && id / 32 < |ls[k]| && Blk(k, id) !in free
      modifies this`ls, this`lists, this`poss, this`free, marks, heads
      ensures Valid() && free == old(free) + {Blk(k, id)} && SameSizes(old(ls), ls)
    {
      hide LevelsOk, Zero, SetBit, Pushed, Shape, Mirrors, Levels;
      LevelsSnoc(free, Blk(k, id));
      ghost var ls', list, pos := MarkAll(ls, heads[..], lists, poss, free, low, k, id);
      ghost var ms, head := ls[k], heads[k];
      var i := id / 32;
      var mk := GetMark(k, i);
      var insert := Zero(mk.bitmap);
      SetMark(k, i, mk.(bitmap := SetBit(mk.bitmap, id)));
      if insert {
        PushFront(k, i);
      }
      assert ls == ls' && heads[..] == old(heads[..])[k := MarkedHead(ms, head, id)];
      lists, poss, free := list, pos, free + {Blk(k, id)};
    }

    /** The link writes of unmark_blk. */
    method Unlink(k: nat, i: nat)
      requires Shape() && Mirrors() && k <= TOP && i < |ls[k]|
      requires var l := ls[k][i].lnks;
               (PreLnk(l) != NIL ==> PreLnk(l) < |ls[k]|) && (NextLnk(l) != NIL ==> NextLnk(l) < |ls[k]|)
      modifies marks, heads, this`ls
      ensures Mirrors() && ls == old(ls)[k := Unlinked(old(ls)[k], i)]
      ensures heads[..] == old(heads[..])[k := UnlinkedHead(old(ls)[k], old(heads[k]), i)]
    {
      hide NextLnk, Lnks, PreLnk;
      var mk := GetMark(k, i);
      var prev, next := PreLnk(mk.lnks), NextLnk(mk.lnks);
      if prev != NIL {
        var p := GetMark(k, prev);
        SetMark(k, prev, p.(lnks := Lnks(PreLnk(p.lnks), next)));
      } else if heads[k] == i {
        heads[k] := next;
      }
      if next != NIL {
        var p := GetMark(k, next);
        SetMark(k, next, p.(lnks := Lnks(prev, NextLnk(p.lnks))));
      }
      mk := GetMark(k, i);
      SetMark(k, i, mk.(lnks := Lnks(NIL, NIL)));
    }

    /** unmark_blk. Its panic needs a block that is not free. */
    method UnmarkBlk(k: nat, id: nat)
      requires Valid() && low <= k <= TOP && Blk(k, id) in free
      modifies this`ls, this`lists, this`poss, this`free, marks, heads
      ensures Valid() && free == old(free) - {Blk(k, id)} && SameSizes(old(ls), ls)
    {
      hide LevelsOk, Zero, ClearBit, Unlinked, PreLnk, NextLnk, Shape, Mirrors, Levels;
      LevelsSnoc(free, Blk(k, id));
      ghost var ls', list, pos := UnmarkAll(ls, heads[..], lists, poss, free, low, k, id);
      ghost var ms, head := ls[k], heads[k];
      var i := id / 32;
      var mk := GetMark(k, i);
      SetMark(k, i, mk.(bitmap := ClearBit(mk.bitmap, id)));
      mk := GetMark(k, i);
      if Zero(mk.bitmap) {
        Unlink(k, i);
      }
      assert ls == ls' && heads[..] == old(heads[..])[k := UnmarkedHead(ms, head, id)];
      lists, poss, free := list, pos, free - {Blk(k, id)};
    }

    /** A free block has a mark, and a level has free blocks exactly when its list is not empty. */
    lemma FreeFacts(k: nat)
      requires Valid() && low <= k <= TOP
      ensures forall id: nat :: Blk(k, id) in free ==> id / 32 < |ls[k]|
      ensures heads[k] == NIL ==> forall b :: b in free ==> b.k != k
      ensures heads[k] != NIL ==> heads[k] < |ls[k]| && !Zero(ls[k][heads[k]].bitmap)
      ensures forall id: nat :: id / 32 < |ls[k]| ==> (Bit(ls[k][id / 32].bitmap, id) <==> Blk(k, id) in free)
    {
      assert LevelOk(ls[k], heads[k], lists[k], poss[k], k, free);
      HeadInRange(ls[k], heads[k], lists[k], poss[k]);
      forall b | b in free && b.k == k ensures b.id / 32 < |ls[k]| && !Zero(ls[k][b.id / 32].bitmap) {
        assert b == Blk(k, b.id);
      }
    }

    /** get_blk: take the first free block of the first listed mark. */
    method GetBlk(k: nat) returns (id: nat)
      requires Valid() && low <= k <= TOP && heads[k] != NIL
      modifies this`ls, this`lists, this`poss, this`free, marks, heads
      ensures Valid() && Blk(k, id) in old(free) && free == old(free) - {Blk(k, id)} && SameSizes(old(ls), ls)
    {
      FreeFacts(k);
      var mk := GetMark(k, heads[k]);
      var i := 0;
      while !Bit(mk.bitmap, i)
        invariant 0 <= i < 32
        invariant forall j :: 0 <= j < i ==> !mk.bitmap[j]
        decreases 32 - i
      {
        assert i == 31 ==> Zero(mk.bitmap);
        i := i + 1;
      }
      id := heads[k] * 32 + i;
      assert id / 32 == heads[k] && id % 32 == i;
      UnmarkBlk(k, id);
    }

    /**
     __internal_kfree of a block none of whose bytes is free: mark it, or take out its free
     buddy and free the block they make up. No panic can happen.
     */
    method InternalKfree(k: nat, id: nat)
      requires Valid() && low <= k <= TOP && id / 32 < |ls[k]|
      requires FreeOk(free) && Apart(free, Blk(k, id))
      modifies this`ls, this`lists, this`poss, this`free, marks, heads
      ensures Valid() && SameSizes(old(ls), ls)
      ensures FreeOk(free) && Gained(old(free), Blk(k, id), free)
      decreases TOP - k
    {
      hide FreeOk, Apart, Gained, Levels, Covered, LevelsOk, Bit, Buddy, Parent;
      ghost var b := Blk(k, id);
      FreeFacts(k);
      ApartNotIn(free, b);
      var mk := GetMark(k, id / 32);
      if Bit(mk.bitmap, id) {
        assert false;
      }
      var buddy := if id % 2 == 0 then id + 1 else id - 1;
      BuddyIndex(k, id);
      if !Bit(mk.bitmap, buddy) || k == TOP {
        InsertBlock(free, b);
        MarkBlk(k, id);
      } else {
        MergeStep(free, b);
        ghost var f := free;
        UnmarkBlk(k, buddy);
        assert free == f - {Buddy(b)};
        ParentRange(k, id);
        ParentIndex(k, id);
        InternalKfree(k + 1, id / 2);
      }
    }

    lemma {:induction false} RangeUp(k: nat, id: nat)
      requires Shape() && Mirrors() && k <= TOP
      ensures id / 32 < |ls[k]| <==> Up(id, TOP - k) / 32 < |ls[TOP]|
      decreases TOP - k
    {
      if k < TOP {
        ParentRange(k, id);
        RangeUp(k + 1, id / 2);
        UpUp(id, 1, TOP - k - 1);
      }
    }

    lemma ParentRange(k: nat, id: nat)
      requires Shape() && Mirrors() && k < TOP
      ensures id / 32 < |ls[k]| <==> id / 2 / 32 < |ls[k + 1]|
    {
      assert count[k] == 2 * count[k + 1];
    }

    /**
     __internal_kmalloc: a block of level k, the list head's or half of a larger one; None
     exactly when no free block is large enough.
     */
    method InternalKmalloc(k: nat) returns (ok: bool, id: nat)
      requires Valid() && low <= k <= TOP && FreeOk(free)
      modifies this`ls, this`lists, this`poss, this`free, marks, heads
      ensures Valid() && FreeOk(free) && SameSizes(old(ls), ls)
      ensures !ok <==> forall b :: b in old(free) ==> b.k < k
      ensures !ok ==> free == old(free)
      ensures ok ==> id / 32 < |ls[k]| && Within(old(free), Blk(k, id)) && Lost(old(free), Blk(k, id), free)
      decreases TOP - k
    {
      hide FreeOk, Lost, Within, Gained, Apart, LevelsOk, Bit, Zero, Parent, Buddy;
      FreeFacts(k);
      ok, id := false, 0;
      if heads[k] != NIL {
        ghost var f := free;
        id := GetBlk(k);
        RemoveBlock(f, Blk(k, id));
        ok := true;
      } else if k < TOP {
        ghost var f := free;
        ok, id := InternalKmalloc(k + 1);
        if ok {
          ghost var p, f' := Blk(k + 1, id), free;
          id := 2 * id;
          ParentRange(k, id);
          ParentRange(k, id + 1);
          Halves(k, id);
          UpperHalfApart(f, p, f', Blk(k, id + 1));
          InternalKfree(k, id + 1);
          SplitStep(f, p, f', Blk(k, id), free);
        }
      }
    }

    ghost predicate HeapOk()
      reads this, marks, heads
    {
      Valid() && FreeOk(free) && Tiled(free, used, 64 * top) && top <= 32 * |ls[TOP]| && AlignedTo(startHeap, TOP)
    }

    /**
     buddy_kmalloc. `panic` is the order check; NULL means that no aligned free run of 2^order
     bytes exists. A block returned is made of free bytes and no other byte changes hands.
     */
    method Kmalloc(order: int) returns (panic: bool, mem: Option<nat>, ghost b: Blk)
      requires HeapOk() && (MIN_ORD <= order <= MAX_ORD ==> low <= order - MIN_ORD)
      modifies this`ls, this`lists, this`poss, this`free, this`used, marks, heads
      ensures HeapOk()
      ensures panic <==> !(MIN_ORD <= order <= MAX_ORD)
      ensures panic || mem.None? ==> free == old(free) && used == old(used)
      ensures !panic ==> (mem.None? <==> NoRun(old(free), order - MIN_ORD))
      ensures !panic && mem.Some? ==> b.k == order - MIN_ORD && mem.value == Address(startHeap, b) == startHeap + 64 * Length(b.k) * b.id
      ensures !panic && mem.Some? ==> Handed(old(free), old(used), free, used, b)
    {
      hide FreeOk, Tiled, Within, Lost, LevelsOk, Shape, NoRun;
      panic, mem, b := true, None, Blk(0, 0);
      if MIN_ORD <= order <= MAX_ORD {
        panic := false;
        var k := order - MIN_ORD;
        ghost var f := free;
        var ok, id := InternalKmalloc(k);
        if ok {
          b := Blk(k, id);
          HandOut(f, used, 64 * top, b, free);
          SomeRun(f, b);
          used := used + {b};
          BlockBytes(startHeap, b, 0);
          mem := Some(Address(startHeap, Blk(k, id)));
        } else {
          NoneRun(f, k);
        }
      }
    }

    /** buddy_kmfree of a block that was handed out. `panic` is the check of order and alignment. */
    method Kmfree(mem: nat, order: int, ghost id: nat) returns (panic: bool)
      requires HeapOk() && MIN_ORD <= order <= MAX_ORD && low <= order - MIN_ORD
      requires Blk(order - MIN_ORD, id) in used && mem == Address(startHeap, Blk(order - MIN_ORD, id))
      modifies this`ls, this`lists, this`poss, this`free, this`used, marks, heads
      ensures HeapOk() && !panic
      ensures Returned(old(free), old(used), free, used, Blk(order - MIN_ORD, id))
    {
      hide FreeOk, Tiled, Gained, Apart, LevelsOk, Shape, BlockId, AlignedTo;
      AddressRoundTrip(startHeap, Blk(order - MIN_ORD, id));
      panic := true;
      if MIN_ORD <= order <= MAX_ORD && AlignedTo(mem, order - MIN_ORD) {
        var k := order - MIN_ORD;
        var blkId := BlockId(startHeap, mem, k);
        ghost var b := Blk(k, id);
        HeldIsApart(free, used, 64 * top, b);
        HeldInRange(free, used, top, b);
        RangeUp(k, id);
        ghost var f := free;
        InternalKfree(k, blkId);
        TakeBack(f, used, 64 * top, b, free);
        used := used - {b};
        panic := false;
      }
    }

    /** mark_blk of the first block of an order that gets free. */
    method MarkFirst(k: nat, id: nat)
      requires Shape() && Mirrors() && k <= TOP && id / 32 < |ls[k]| && heads[k] == NIL && Zero(ls[k][id / 32].bitmap)
      modifies marks, heads, this`ls
      ensures Mirrors() && ls == old(ls)[k := Marked(old(ls)[k], NIL, id)]
      ensures heads[..] == old(heads[..])[k := id / 32]
    {
      hide Zero, SetBit, Pushed;
      var i := id / 32;
      var mk := GetMark(k, i);
      SetMark(k, i, mk.(bitmap := SetBit(mk.bitmap, id)));
      PushFront(k, i);
    }

    /**
     __internal_kmalloc of the lowest order, when it is used for the first time: a block of the next order
     is split, and __internal_kfree marks the upper half.
     */
    method FirstSplit() returns (ok: bool, p: nat)
      requires HeapOk() && low == 1
      modifies this`ls, this`lists, this`poss, this`free, marks, heads
      ensures !ok <==> NoRun(old(free), 1)
      ensures Shape() && Mirrors() && old(heads[0]) == NIL && old(ls)[0] == EmptyMarks(|old(ls)[0]|)
      ensures ok ==> Within(old(free), Blk(1, p)) && (2 * p + 1) / 32 < |old(ls)[0]|
      ensures ok ==> ls[0] == Marked(old(ls)[0], NIL, 2 * p + 1) && heads[0] == (2 * p + 1) / 32
    {
      hide FreeOk, Lost, Within, Tiled, LevelsOk, Zero, NoRun, Shape, Mirrors, Marked, Levels, EmptyMarks, AlignedTo, Bit;
      LevelZero();
      ghost var f := free;
      if heads[0] != NIL {
        assert false;
      }
      ok, p := InternalKmalloc(1);
      LevelZero();
      if !ok {
        NoneRun(f, 1);
        return;
      }
      SomeRun(f, Blk(1, p));
      MarkUpper(p);
    }

    /** __internal_kfree of the upper half, in an order where nothing is free. */
    method MarkUpper(p: nat)
      requires Shape() && Mirrors() && p / 32 < |ls[1]| && heads[0] == NIL && ls[0] == EmptyMarks(|ls[0]|)
      modifies marks, heads, this`ls
      ensures Mirrors() && |ls[0]| == |old(ls)[0]| && (2 * p + 1) / 32 < |ls[0]|
      ensures ls[0] == Marked(old(ls)[0], NIL, 2 * p + 1) && heads[0] == (2 * p + 1) / 32
    {
      hide Zero, Marked, EmptyMarks, Bit;
      ParentRange(0, 2 * p + 1);
      var i := (2 * p + 1) / 32;
      var mk := GetMark(0, i);
      EmptyMark(ls[0], i, 2 * p + 1);
      EmptyMark(ls[0], i, 2 * p);
      if Bit(mk.bitmap, 2 * p + 1) || Bit(mk.bitmap, 2 * p) {
        assert false;
      }
      MarkFirst(0, 2 * p + 1);
    }

    lemma LevelZero()
      requires Valid() && low == 1
      ensures Shape() && Mirrors() && heads.Length > 0 && heads[0] == NIL && |ls| == TOP + 1 && ls[0] == EmptyMarks(|ls[0]|)
    {
    }
  }

  lemma EmptyMark(ms: seq<Mark>, i: nat, id: nat)
    requires ms == EmptyMarks(|ms|) && i < |ms|
    ensures Zero(ms[i].bitmap) && !Bit(ms[i].bitmap, id)
  {
  }

  /** What Kmalloc handed out, Kmfree takes back: the same free blocks, not just the same free bytes. */
  lemma KmallocKmfree(free: set<Blk>, used: set<Blk>, b: Blk, free': set<Blk>, used': set<Blk>, free'': set<Blk>, used'': set<Blk>)
    requires FreeOk(free) && Handed(free, used, free', used', b)
    requires FreeOk(free'') && Returned(free', used', free'', used'', b)
    ensures free'' == free && used'' == used
  {
    hide FreeOk, Within, Lost, Gained;
    AllocThenFree(free, b, free', free'');
  }

  // ---------- the size of the links ----------

  /**
   mark_blk keeps the list of an order threaded if and only if the mark is listed already, or
   its index and the head can be told from NIL and kept in 16 bits.
   */
  lemma MarkThreadsExactly(ms: seq<Mark>, head: nat, list: seq<nat>, pos: seq<nat>, id: nat)
    requires Threaded(ms, head, list, pos) && id / 32 < |ms|
    ensures head != NIL ==> head < |ms|
    ensures (exists l, q :: Threaded(Marked(ms, head, id), MarkedHead(ms, head, id), l, q)) <==>
            !Zero(ms[id / 32].bitmap) || Linkable(head, id / 32)
  {
    assert list != [] ==> pos[list[0]] == 0;
    hide Pushed, Threaded, Zero, Linkable, SetBit;
    var i := id / 32;
    var bm := SetBit(ms[i].bitmap, id);
    if Zero(ms[i].bitmap) {
      PushThreadsExactly(ms, head, list, pos, i, bm);
      var r := Pushed(ms[i := ms[i].(bitmap := bm)], head, i);
      assert Marked(ms, head, id) == r && MarkedHead(ms, head, id) == i;
      assert (exists l, q :: Threaded(r, i, l, q)) <==> Linkable(head, i);
    } else {
      BitsThread(ms, head, list, pos, i, bm);
      assert Threaded(Marked(ms, head, id), MarkedHead(ms, head, id), list, pos);
    }
  }

  /** A block of mark NIL, marked when no block of its order is free: its bit is set, the list stays empty. */
  lemma NilMarkIsLost(ms: seq<Mark>, id: nat)
    requires |ms| > NIL && Zero(ms[NIL].bitmap) && id / 32 == NIL
    ensures MarkedHead(ms, NIL, id) == NIL && Bit(Marked(ms, NIL, id)[NIL].bitmap, id)
    ensures forall l, q :: !Threaded(Marked(ms, NIL, id), NIL, l, q)
  {
    hide SetBit;
    var r := Marked(ms, NIL, id);
    assert !Zero(r[NIL].bitmap);
  }

  /**
   kern/init/main.c gives the allocator everything from 4 MiB to PHYSTOP. The lowest order then
   has more marks than the links can name, and the heap is large enough to use them; all the
   other orders, and with them whole pages, are safe.
   */
  lemma BootMarks()
    ensures var vstart, vend := 0x80400000, 0x8E000000;
            var n := TopMarks(vend - vstart);
            MarkCount(n, 0) > NIL && (forall k :: 1 <= k <= TOP ==> MarkCount(n, k) <= NIL) &&
            32 * NIL < 64 * TopBlocks(HeapStart(vstart, vend), vend)
  {
    hide AlignedTo;
    var vstart, vend := 0x80400000, 0x8E000000;
    var n := TopMarks(vend - vstart);
    assert n == 1761;
    assert MarkCount(n, 6) == n && MarkCount(n, 5) == 2 * n;
    assert MarkCount(n, 4) == 4 * n && MarkCount(n, 3) == 8 * n;
    assert MarkCount(n, 2) == 16 * n && MarkCount(n, 1) == 32 * n && MarkCount(n, 0) == 64 * n;
    assert MarkOffset(n, 6) == 0 && MarkOffset(n, 5) == n && MarkOffset(n, 4) == 3 * n;
    assert MarkOffset(n, 3) == 7 * n && MarkOffset(n, 2) == 15 * n;
    assert MarkOffset(n, 1) == 31 * n && MarkOffset(n, 0) == 63 * n;
  }

  lemma OnlyHalf(free: set<Blk>, b: Blk, c: Blk)
    requires Gained({}, b, free) && Within(free, c) && c.k == b.k
    ensures c == b
  {
    var u := First(c.k, c.id);
    assert Inside(c, u);
    assert !Covered({}, u);
  }

  lemma GainedRun(b: Blk, free: set<Blk>)
    requires Gained({}, b, free)
    ensures !NoRun(free, b.k)
  {
    assert Within(free, Blk(b.k, b.id));
  }

  /** Nothing is free when no block of the lowest level in use is. */
  lemma NoneLeft(free: set<Blk>, low: nat)
    requires NoRun(free, low) && Levels(free) && forall b :: b in free ==> low <= b.k
    ensures free == {}
  {
    if b :| b in free {
      var c := Blk(low, First(b.k - low, b.id));
      forall u | Inside(c, u) ensures Covered(free, u) {
        UpUp(u, low, b.k - low);
        assert At(free, u, b.k);
      }
      assert Within(free, c);
    }
  }

  /** The unit's block of level k is held, when all held blocks are of that level. */
  lemma HeldAt(used: set<Blk>, units: nat, u: nat, k: nat)
    requires Tiled({}, used, units) && u < units && forall b :: b in used ==> b.k == k
    ensures Blk(k, Up(u, k)) in used
  {
    assert !Covered({}, u);
    assert Covered(used, u);
  }

  ghost function Ids(n: nat): (s: set<nat>)
    ensures forall id: nat :: id in s <==> id < n
  {
    if n == 0 then {} else Ids(n - 1) + {n - 1}
  }

  /** kmalloc of the second lowest order until it returns NULL: every block is held. */
  method TakeAll(a: Allocator)
    requires a.HeapOk() && a.used == {} && a.low == 1
    modifies a`ls, a`lists, a`poss, a`free, a`used, a.marks, a.heads
    ensures a.HeapOk() && a.free == {} && forall b :: b in a.used ==> b.k == 1
  {
    hide FreeOk, Tiled, Within, Lost, LevelsOk, NoRun;
    ghost var left := Ids(32 * a.top);
    while true
      invariant a.HeapOk() && (forall b :: b in a.used ==> b.k == 1)
      invariant forall id: nat :: id < 32 * a.top && id !in left ==> Blk(1, id) in a.used
      decreases left
    {
      var panic, mem, b := a.Kmalloc(7);
      if mem.None? {
        NoneLeft(a.free, 1);
        return;
      }
      HeldInRange(a.free, a.used, a.top, b);
      Shifts(b.id);
      assert b == Blk(1, b.id);
      left := left - {b.id};
    }
  }

  /**
   A run from buddy_init on the heap given at boot that loses a block: kmalloc(7) until it fails, kmfree of
   the block that holds the first block of mark NIL, then kmalloc(6). The block of order 6 that is left over
   is marked free, and the list of its order, which should hold it, is empty.
   */
  method BootRun() returns (a: Allocator, lost: nat)
    ensures fresh(a) && a.Shape() && a.Mirrors() && lost / 32 == NIL < |a.ls[0]| && a.heads[0] == NIL
    ensures Bit(a.ls[0][NIL].bitmap, lost) && forall l, q :: !Threaded(a.ls[0], a.heads[0], l, q)
  {
    hide FreeOk, Tiled, Within, LevelsOk, Levels, Threaded, Marked, NoRun, Gained, HeapStart, TopBlocks, TopMarks, MarkCount, Address;
    BootMarks();
    a := new Allocator(0x80400000, 0x8E000000, 1);
    TakeAll(a);
    HeldAt(a.used, 64 * a.top, 32 * NIL, 1);
    ghost var b := Blk(1, 16 * NIL);
    Shifts(32 * NIL);
    var panic := a.Kmfree(Address(a.startHeap, Blk(1, 16 * NIL)), 7, 16 * NIL);
    GainedRun(b, a.free);
    ghost var f, ms := a.free, a.ls[0];
    var ok, p := a.FirstSplit();
    OnlyHalf(f, b, Blk(1, p));
    lost := 2 * p + 1;
    EmptyMark(ms, NIL, lost);
    NilMarkIsLost(ms, lost);
  }

  /** The heap stays below its end exactly when it is a whole number of pages. */
  lemma HeapEnds(startHeap: nat, vend: nat)
    requires startHeap < vend
    ensures startHeap + 4096 * TopBlocks(startHeap, vend) <= vend <==> (vend - startHeap) % 4096 == 0
  {
  }

  lemma Halves(k: nat, id: nat)
    requires id % 2 == 0
    ensures Parent(Blk(k, id)) == Parent(Blk(k, id + 1)) == Blk(k + 1, id / 2)
    ensures Buddy(Blk(k, id)) == Blk(k, id + 1)
  {
  }

  lemma LevelsSnoc(s: set<Blk>, b: Blk)
    requires Levels(s) && b.k <= TOP
    ensures Levels(s + {b}) && Levels(s - {b})
  {
  }

  ghost predicate SameSizes(ls: seq<seq<Mark>>, ls': seq<seq<Mark>>)
  {
    |ls| == |ls'| && forall j :: 0 <= j < |ls| ==> |ls[j]| == |ls'[j]|
  }

  lemma MarkAll(ls: seq<seq<Mark>>, heads: seq<nat>, lists: seq<seq<nat>>, poss: seq<seq<nat>>, free: set<Blk>, low: nat, k: nat, id: nat)
      returns (ls': seq<seq<Mark>>, lists': seq<seq<nat>>, poss': seq<seq<nat>>)
    requires LevelsOk(ls, heads, lists, poss, free, low) && low <= k <= TOP && id / 32 < |ls[k]|
    ensures |ls| == |heads| == TOP + 1 && (heads[k] != NIL ==> heads[k] < |ls[k]|)
    ensures var i, ms := id / 32, ls[k];
            var ms' := ms[i := ms[i].(bitmap := SetBit(ms[i].bitmap, id))];
            ls' == ls[k := if Zero(ms[i].bitmap) then Pushed(ms', heads[k], i) else ms'] && SameSizes(ls, ls')
    ensures LevelsOk(ls', heads[k := MarkedHead(ls[k], heads[k], id)], lists', poss', free + {Blk(k, id)}, low)
  {
    hide LevelOk, Zero, Pushed, SetBit;
    var ms, head := ls[k], heads[k];
    assert LevelOk(ms, head, lists[k], poss[k], k, free);
    var list, pos := MarkLevel(ms, head, lists[k], poss[k], k, free, id);
    ls' := ls[k := Marked(ms, head, id)];
    lists', poss' := lists[k := list], poss[k := pos];
    ReplaceLevel(ls, heads, lists, poss, free, low, k, Marked(ms, head, id), MarkedHead(ms, head, id), list, pos, free + {Blk(k, id)});
  }

  lemma UnmarkAll(ls: seq<seq<Mark>>, heads: seq<nat>, lists: seq<seq<nat>>, poss: seq<seq<nat>>, free: set<Blk>, low: nat, k: nat, id: nat)
      returns (ls': seq<seq<Mark>>, lists': seq<seq<nat>>, poss': seq<seq<nat>>)
    requires LevelsOk(ls, heads, lists, poss, free, low) && low <= k <= TOP && Blk(k, id) in free
    ensures |ls| == |heads| == TOP + 1 && id / 32 < |ls[k]|
    ensures var l := ls[k][id / 32].lnks;
            (PreLnk(l) != NIL ==> PreLnk(l) < |ls[k]|) && (NextLnk(l) != NIL ==> NextLnk(l) < |ls[k]|)
    ensures var i, ms := id / 32, ls[k];
            var ms' := ms[i := ms[i].(bitmap := ClearBit(ms[i].bitmap, id))];
            ls' == ls[k := if Zero(ms'[i].bitmap) then Unlinked(ms', i) else ms'] && SameSizes(ls, ls')
    ensures LevelsOk(ls', heads[k := UnmarkedHead(ls[k], heads[k], id)], lists', poss', free - {Blk(k, id)}, low)
  {
    hide LevelOk, Zero, Unlinked, ClearBit, PreLnk, NextLnk;
    var ms, head := ls[k], heads[k];
    assert LevelOk(ms, head, lists[k], poss[k], k, free);
    var list, pos := UnmarkLevel(ms, head, lists[k], poss[k], k, free, id);
    ls' := ls[k := Unmarked(ms, id)];
    lists', poss' := lists[k := list], poss[k := pos];
    ReplaceLevel(ls, heads, lists, poss, free, low, k, Unmarked(ms, id), UnmarkedHead(ms, head, id), list, pos, free - {Blk(k, id)});
  }
}
