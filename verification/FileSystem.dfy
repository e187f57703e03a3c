/** Blocks of files in fs/sfs/fs.c: balloc, bfree, iupdate, bmap. */
module FileSystem {
  import opened Common
  import opened FsImage
  import opened Dinodes

  const BPB: nat := 4096

  /** Blocks were added to file `i`, zeroed; everything mapped before is as it was. */
  ghost predicate Extends(m: Img, m': Img, i: nat)
  {
    && OthersKept(m, m', i)
    && (i in m.inodes ==> m'.inodes[i].size == m.inodes[i].size)
    && (forall t :: Ref(m, t) != 0 ==> Ref(m', t) == Ref(m, t))
    && (forall b :: b in m.owner ==> b in m'.owner && m'.owner[b] == m.owner[b])
    && (forall b :: b in m.owner && m.owner[b] != Pointer(i) && b < |m.disk| ==> m'.disk[b] == m.disk[b])
    && (forall t :: Ref(m, t) == 0 && Ref(m', t) != 0 && !t.Pointer? ==> Ref(m', t) < |m'.disk| && m'.disk[Ref(m', t)] == Zero())
  }

  lemma ExtendsSelf(m: Img, i: nat)
    ensures Extends(m, m, i)
  {
  }

  lemma ExtendsTwice(m: Img, m1: Img, m2: Img, start: nat, i: nat)
    requires Ok(m1, start) && Extends(m, m1, i) && Extends(m1, m2, i)
    ensures Extends(m, m2, i)
  {
    hide Ref;
    forall t | Ref(m, t) == 0 && Ref(m2, t) != 0 && !t.Pointer?
      ensures Ref(m2, t) < |m2.disk| && m2.disk[Ref(m2, t)] == Zero()
    {
      assert SlotOk(m1, t);
    }
  }

  lemma AssignExtends(m: Img, start: nat, s: Slot, b: nat)
    requires Ok(m, start) && Open(m, s) && start <= b < |m.disk| && !m.used[b]
    ensures Ok(Assign(m, s, b), start) && Extends(m, Assign(m, s, b), s.inum)
    ensures forall t :: Ref(Assign(m, s, b), t) == if t == s then b else Ref(m, t)
  {
    AssignOk(m, start, s, b);
    var m' := Assign(m, s, b);
    assert UsedOk(m, start, b);
    assert SlotOk(m, Pointer(s.inum));
    hide Ref;
  }

  /** What bmap does to the image: block bn of file i is there, and only its slots changed. */
  ghost predicate BmapTo(m: Img, m': Img, i: nat, bn: nat)
  {
    && Extends(m, m', i)
    && (forall t :: t != FileSlot(i, bn) && !(bn >= NDIRECT && t == Pointer(i)) ==> Ref(m', t) == Ref(m, t))
    && Ref(m', FileSlot(i, bn)) != 0
    && (bn >= NDIRECT ==> Ref(m', Pointer(i)) != 0)
  }

  /** How many empty slots bmap may have to fill. */
  function Empties(m: Img, i: nat, bn: nat): nat
  {
    (if Ref(m, FileSlot(i, bn)) == 0 then 1 else 0) + (if bn >= NDIRECT && Ref(m, Pointer(i)) == 0 then 1 else 0)
  }

  /** The blocks of a file with `cnt` mapped: from the thirteenth on there is an indirect block. */
  function Taken(cnt: nat): nat { cnt + if cnt > NDIRECT then 1 else 0 }

  /** The blocks that a file of `size` bytes takes. */
  function Cost(size: nat): nat { Taken(Blocks(size)) }

  lemma TakenGrows(a: nat, b: nat)
    requires a <= b
    ensures Taken(a) <= Taken(b)
  {
  }

  lemma CostGrows(a: nat, b: nat)
    requires a <= b
    ensures Cost(a) <= Cost(b)
  {
    TakenGrows(Blocks(a), Blocks(b));
  }

  lemma EmptiesTaken(m: Img, i: nat, bn: nat, cnt: nat)
    requires Prefix(m, i, cnt) && bn <= cnt && bn < MAXFILE
    ensures Empties(m, i, bn) == Taken(Max(cnt, bn + 1)) - Taken(cnt)
  {
    assert Ref(m, FileSlot(i, bn)) != 0 <==> bn < cnt;
  }

  // ---------- counting blocks ----------

  /** How many blocks are not in use. */
  ghost function Unused(used: seq<bool>): nat
  {
    if used == [] then 0 else Unused(used[..|used| - 1]) + if used[|used| - 1] then 0 else 1
  }

  lemma {:induction false} UnusedNone(used: seq<bool>)
    ensures Unused(used) == 0 <==> forall c :: 0 <= c < |used| ==> used[c]
  {
    if used != [] {
      UnusedNone(used[..|used| - 1]);
      assert forall c :: 0 <= c < |used| - 1 ==> used[..|used| - 1][c] == used[c];
    }
  }

  lemma {:induction false} UnusedTake(used: seq<bool>, b: nat)
    requires b < |used| && !used[b]
    ensures Unused(used[b := true]) == Unused(used) - 1
  {
    var n := |used| - 1;
    if b < n {
      UnusedTake(used[..n], b);
      assert used[b := true][..n] == used[..n][b := true];
    } else {
      assert used[b := true][..n] == used[..n];
    }
  }

  /** The indirect block, if there is one. */
  function Pointers(m: Img, i: nat): set<nat> { if PointerOf(m, i) == 0 then {} else {PointerOf(m, i)} }

  /** A block from `start` on, or one of the bitmap. */
  predicate LogPlace(m: Img, start: nat, bmapstart: nat, b: nat)
  {
    start <= b < |m.disk| || (bmapstart <= b && BPB * (b - bmapstart) < |m.used|)
  }

  /**
   Every block that changed was given to log_write, and no block before `start` changed. Only blocks from
   there on and bitmap blocks were given to it.
   */
  ghost predicate Covered(m: Img, m': Img, start: nat, bmapstart: nat, before: set<nat>, logged: set<nat>)
  {
    && before <= logged && |m'.disk| == |m.disk| && |m'.used| == |m.used|
    && (forall b: nat :: b < |m.disk| && m'.disk[b] != m.disk[b] ==> b in logged && start <= b)
    && (forall c: nat :: c < |m.used| && m'.used[c] != m.used[c] ==> c / BPB + bmapstart in logged)
    && (forall b :: b in logged && b !in before ==> LogPlace(m, start, bmapstart, b))
  }

  lemma CoveredTwice(m: Img, m1: Img, m2: Img, start: nat, bmapstart: nat, before: set<nat>, logged1: set<nat>, logged2: set<nat>)
    requires Covered(m, m1, start, bmapstart, before, logged1) && Covered(m1, m2, start, bmapstart, logged1, logged2)
    ensures Covered(m, m2, start, bmapstart, before, logged2)
  {
  }

  lemma NoChange(m: Img, start: nat, bmapstart: nat, logged: set<nat>)
    ensures Covered(m, m, start, bmapstart, logged, logged)
  {
  }

  /** What balloc and the store of the new block's number log covers what they change. */
  lemma AssignCovered(m: Img, start: nat, bmapstart: nat, s: Slot, b: nat, before: set<nat>)
    requires Ok(m, start) && Open(m, s) && start <= b < |m.disk| && !m.used[b]
    ensures var logged := before + {b / BPB + bmapstart, b} + (if s.Indirect? then {PointerOf(m, s.inum)} else {});
            Covered(m, Assign(m, s, b), start, bmapstart, before, logged)
  {
    assert SlotOk(m, Pointer(s.inum));
    assert s.Indirect? ==> BlockOk(m, start, PointerOf(m, s.inum));
  }

  /** The block of inode i. */
  function IBlock(inodestart: nat, i: nat): nat { i / IPB + inodestart }

  /** The inode blocks lie before the bitmap, and all inodes but those in `open` are there as they are in memory. */
  ghost predicate Filed(m: Img, start: nat, bmapstart: nat, inodestart: nat, open: set<nat>)
  {
    && bmapstart <= start <= |m.disk|
    && (forall i {:trigger i in m.inodes} :: i in m.inodes ==> IBlock(inodestart, i) < bmapstart)
    && forall i {:trigger i in m.inodes} :: i in m.inodes && i !in open ==> GetInode(m.disk[IBlock(inodestart, i)], i % IPB) == m.inodes[i]
  }

  lemma FiledBound(m: Img, start: nat, bmapstart: nat, inodestart: nat, i: nat)
    requires i in m.inodes && exists open :: Filed(m, start, bmapstart, inodestart, open)
    ensures inodestart <= bmapstart <= start <= |m.disk|
  {
    assert IBlock(inodestart, i) < bmapstart;
  }

  /** Changes to the data of file i leave the other inodes filed. */
  lemma FiledBeside(m: Img, m': Img, start: nat, bmapstart: nat, inodestart: nat, before: set<nat>, logged: set<nat>, i: nat)
    requires Filed(m, start, bmapstart, inodestart, {}) && Covered(m, m', start, bmapstart, before, logged) && OthersKept(m, m', i)
    ensures Filed(m', start, bmapstart, inodestart, {i})
    ensures m'.inodes == m.inodes ==> Filed(m', start, bmapstart, inodestart, {})
  {
    hide GetInode, Ref;
  }

  /** iupdate files the inode, and its neighbours in the block are as before. */
  lemma FiledPut(m: Img, m': Img, start: nat, bmapstart: nat, inodestart: nat, i: nat)
    requires Filed(m, start, bmapstart, inodestart, {i}) && i in m.inodes && Packable(m.inodes[i])
    requires var b := IBlock(inodestart, i); m' == m.(disk := m.disk[b := PutInode(m.disk[b], i % IPB, m.inodes[i])])
    ensures Filed(m', start, bmapstart, inodestart, {})
  {
    hide GetInode, PutInode, Packable;
    forall j | j in m.inodes ensures GetInode(m'.disk[IBlock(inodestart, j)], j % IPB) == m.inodes[j] {
      InodePut(m.disk[IBlock(inodestart, i)], i % IPB, m.inodes[i], j % IPB);
    }
  }

  lemma NoPointer(m: Img, i: nat, k: nat)
    ensures Ref(m, Indirect(i, k)) != 0 ==> PointerOf(m, i) != 0
  {
  }

  class Files {
    var used: seq<bool>
    var disk: seq<Block>
    /** The inodes as ip->addrs and ip->size hold them. */
    var inodes: map<nat, Inode>
    /** The block numbers given to log_write. */
    ghost var logged: set<nat>
    ghost var owner: map<nat, Slot>
    const start: nat
    const bmapstart: nat
    const inodestart: nat

    ghost function M(): Img
      reads this
    {
      Img(used, disk, inodes, owner)
    }

    /** An image as it is found at boot; `slots` says which slot refers to each block. */
    constructor (bits: seq<bool>, blocks: seq<Block>, inos: map<nat, Inode>, ghost slots: map<nat, Slot>, data: nat, bitmap: nat, table: nat)
      ensures M() == Img(bits, blocks, inos, slots) && logged == {}
      ensures start == data && bmapstart == bitmap && inodestart == table
    {
      used, disk, inodes, logged, owner := bits, blocks, inos, {}, slots;
      start, bmapstart, inodestart := data, bitmap, table;
    }

    ghost predicate Valid()
      reads this
    {
      Ok(M(), start)
    }

    /** balloc: the first block that is not in use, zeroed. None stands for its panic. */
    method Balloc() returns (r: Option<nat>)
      requires |disk| == |used|
      modifies `used, `disk, `logged
      ensures r.None? ==> (forall c :: 0 <= c < |used| ==> used[c]) && M() == old(M()) && logged == old(logged)
      ensures r.Some? ==> r.value < |old(used)| && !old(used)[r.value] && forall c :: 0 <= c < r.value ==> old(used)[c]
      ensures r.Some? ==> M() == Take(old(M()), r.value)
      ensures r.Some? ==> used == old(used)[r.value := true] && disk == old(disk)[r.value := disk[r.value]]
      ensures r.Some? ==> forall k :: 0 <= k < BSIZE ==> disk[r.value][k] == 0
      ensures r.None? <==> Unused(old(used)) == 0
      ensures r.Some? ==> Unused(used) == Unused(old(used)) - 1
      ensures r.Some? ==> logged == old(logged) + {r.value / BPB + bmapstart, r.value}
    {
      UnusedNone(used);
      var b := 0;
      while b < |used|
        invariant b % BPB == 0
        invariant forall c :: 0 <= c < b && c < |used| ==> used[c]
      {
        var bi := 0;
        while bi < BPB && b + bi < |used|
          invariant bi <= BPB
          invariant forall c :: 0 <= c < b + bi && c < |used| ==> used[c]
        {
          if !used[b + bi] {
            UnusedTake(used, b + bi);
            used := used[b + bi := true];
            logged := logged + {(b + bi) / BPB + bmapstart};
            disk := disk[b + bi := Zero()];
            logged := logged + {b + bi};
            return Some(b + bi);
          }
          bi := bi + 1;
        }
        b := b + BPB;
      }
      r := None;
    }

    /** bfree. A block that is not in use would make it panic. */
    method Bfree(b: nat)
      requires b < |used| && used[b]
      modifies `used, `logged
      ensures used == old(used)[b := false] && logged == old(logged) + {b / BPB + bmapstart}
    {
      used := used[b := false];
      logged := logged + {b / BPB + bmapstart};
    }

    /** iupdate: the inode goes to its slot of its block. */
    method Iupdate(i: nat)
      requires i in inodes && Packable(inodes[i]) && IBlock(inodestart, i) < |disk|
      modifies `disk, `logged
      ensures var b := IBlock(inodestart, i); disk == old(disk)[b := PutInode(old(disk)[b], i % IPB, inodes[i])]
      ensures logged == old(logged) + {IBlock(inodestart, i)}
      ensures var b, w := disk[inodestart + i / 8], 16 * (i % 8);
              Word(b, w + 2) == inodes[i].size && forall a :: 0 <= a < 13 ==> Word(b, w + 3 + a) == inodes[i].addrs[a]
    {
      InodeWords(disk[IBlock(inodestart, i)], i % IPB, inodes[i]);
      var b := IBlock(inodestart, i);
      disk := disk[b := PutInode(disk[b], i % IPB, inodes[i])];
      logged := logged + {b};
    }

    /** bmap's step for an empty slot of the inode: a new block, stored there. */
    method Fill(i: nat, a: nat, ghost s: Slot) returns (r: Option<nat>)
      requires Valid() && HasInode(M(), i) && Open(M(), s) && s == (if a < NDIRECT then Direct(i, a) else Pointer(i)) && a < 13
      modifies `used, `disk, `logged, `inodes, `owner
      ensures r.Some? ==> Valid() && Extends(old(M()), M(), i) && start <= r.value < |disk|
      ensures r.Some? ==> forall t :: Ref(M(), t) == if t == s then r.value else Ref(old(M()), t)
      ensures if r.None? then Unused(old(used)) == 0 else Unused(used) == Unused(old(used)) - 1
      ensures r.Some? ==> logged == old(logged) + {r.value / BPB + bmapstart, r.value}
      ensures r.Some? ==> Covered(old(M()), M(), start, bmapstart, old(logged), logged)
      ensures r.None? ==> forall c :: 0 <= c < |used| ==> used[c]
    {
      hide Covered, Extends, Unused;
      ghost var m := M();
      r := Balloc();
      if r.Some? {
        assert UsedOk(m, start, r.value);
        AssignExtends(m, start, s, r.value);
        AssignCovered(m, start, bmapstart, s, r.value, old(logged));
        inodes := inodes[i := inodes[i].(addrs := inodes[i].addrs[a := r.value])];
        owner := owner[r.value := s];
        assert logged == old(logged) + {r.value / BPB + bmapstart, r.value} + {};
        assert M() == Assign(m, s, r.value);
      }
    }

    /** bmap's step for an empty slot of the indirect block. */
    method FillIndirect(i: nat, k: nat) returns (r: Option<nat>)
      requires Valid() && HasInode(M(), i) && k < NINDIRECT && Open(M(), Indirect(i, k))
      modifies `used, `disk, `logged, `owner
      ensures r.Some? ==> Valid() && Extends(old(M()), M(), i) && start <= r.value < |disk|
      ensures r.Some? ==> forall t :: Ref(M(), t) == if t == Indirect(i, k) then r.value else Ref(old(M()), t)
      ensures if r.None? then Unused(old(used)) == 0 else Unused(used) == Unused(old(used)) - 1
      ensures r.Some? ==> logged == old(logged) + {r.value / BPB + bmapstart, r.value, PointerOf(M(), i)}
      ensures r.Some? ==> Covered(old(M()), M(), start, bmapstart, old(logged), logged)
      ensures r.None? ==> forall c :: 0 <= c < |used| ==> used[c]
    {
      hide Covered, Extends, Unused, PutWord;
      ghost var m := M();
      r := Balloc();
      if r.Some? {
        assert UsedOk(m, start, r.value);
        AssignExtends(m, start, Indirect(i, k), r.value);
        AssignCovered(m, start, bmapstart, Indirect(i, k), r.value, old(logged));
        var p := inodes[i].addrs[12];
        disk := disk[p := PutWord(disk[p], k, r.value)];
        logged := logged + {p};
        assert logged == old(logged) + {r.value / BPB + bmapstart, r.value} + {p};
        owner := owner[r.value := Indirect(i, k)];
        assert M() == Assign(m, Indirect(i, k), r.value);
      }
    }

    /** The indirect block of a file, new if need be. */
    method PointerBlock(i: nat) returns (r: Option<nat>, ghost bm: set<nat>)
      requires Valid() && i in inodes
      modifies `used, `disk, `logged, `inodes, `owner
      ensures r.None? ==> PointerOf(old(M()), i) == 0 && forall c :: 0 <= c < |used| ==> used[c]
      ensures r.Some? ==> Valid() && Extends(old(M()), M(), i) && i in inodes && r.value == PointerOf(M(), i) && 0 < r.value < |disk|
      ensures r.Some? ==> forall t :: t != Pointer(i) ==> Ref(M(), t) == Ref(old(M()), t)
      ensures var e := if PointerOf(old(M()), i) == 0 then 1 else 0;
              if r.None? then Unused(old(used)) < e else Unused(used) == Unused(old(used)) - e
      ensures PointerOf(old(M()), i) != 0 ==> M() == old(M()) && logged == old(logged) && bm == {}
      ensures r.Some? ==> logged <= old(logged) + bm + {r.value} && |bm| <= 1
      ensures r.Some? ==> Covered(old(M()), M(), start, bmapstart, old(logged), logged)
    {
      hide Extends, Covered;
      ghost var m := M();
      NoChange(m, start, bmapstart, logged);
      ExtendsSelf(m, i);
      bm := {};
      r := Some(inodes[i].addrs[12]);
      if r.value == 0 {
        r := Fill(i, 12, Pointer(i));
        if r.Some? {
          bm := {r.value / BPB + bmapstart};
          assert Ref(M(), Pointer(i)) == r.value;
        }
      } else {
        assert SlotOk(m, Pointer(i)) && BlockOk(m, start, r.value);
      }
    }

    /** The block in slot k of the indirect block, new if need be. */
    method IndirectBlock(i: nat, k: nat) returns (r: Option<nat>, ghost bm: set<nat>)
      requires Valid() && i in inodes && k < NINDIRECT && 0 < PointerOf(M(), i) < |disk|
      modifies `used, `disk, `logged, `owner
      ensures r.None? ==> Ref(old(M()), Indirect(i, k)) == 0 && forall c :: 0 <= c < |used| ==> used[c]
      ensures r.Some? ==> Valid() && Extends(old(M()), M(), i) && r.value == Ref(M(), Indirect(i, k)) && 0 < r.value < |disk|
      ensures r.Some? ==> forall t :: t != Indirect(i, k) ==> Ref(M(), t) == Ref(old(M()), t)
      ensures var e := if Ref(old(M()), Indirect(i, k)) == 0 then 1 else 0;
              if r.None? then Unused(old(used)) < e else Unused(used) == Unused(old(used)) - e
      ensures Ref(old(M()), Indirect(i, k)) != 0 ==> M() == old(M()) && logged == old(logged) && bm == {}
      ensures r.Some? ==> logged <= old(logged) + bm + {r.value} + Pointers(M(), i) && |bm| <= 1
      ensures r.Some? ==> Covered(old(M()), M(), start, bmapstart, old(logged), logged)
    {
      hide Extends, Covered;
      ghost var m := M();
      NoChange(m, start, bmapstart, logged);
      ExtendsSelf(m, i);
      bm := {};
      r := Some(Word(disk[inodes[i].addrs[12]], k));
      if r.value == 0 {
        r := FillIndirect(i, k);
        if r.Some? {
          bm := {r.value / BPB + bmapstart};
        }
      } else {
        assert SlotOk(m, Indirect(i, k)) && BlockOk(m, start, r.value);
      }
    }

    /** bmap for a block of the indirect range. */
    method BmapIndirect(i: nat, bn: nat) returns (r: Option<nat>, ghost bm: set<nat>)
      requires Valid() && i in inodes && NDIRECT <= bn < MAXFILE
      modifies `used, `disk, `logged, `inodes, `owner
      ensures r.None? ==> Ref(old(M()), FileSlot(i, bn)) == 0 && forall c :: 0 <= c < |used| ==> used[c]
      ensures r.Some? ==> Valid() && BmapTo(old(M()), M(), i, bn) && r.value == Ref(M(), FileSlot(i, bn)) && r.value < |disk|
      ensures r.Some? && Ref(old(M()), FileSlot(i, bn)) != 0 ==> M() == old(M()) && logged == old(logged)
      ensures r.Some? ==> logged <= old(logged) + bm + {r.value} + Pointers(M(), i)
      ensures r.Some? ==> Covered(old(M()), M(), start, bmapstart, old(logged), logged)
      ensures |bm| <= Empties(old(M()), i, bn)
      ensures if r.None? then Unused(old(used)) < Empties(old(M()), i, bn) else Unused(used) == Unused(old(used)) - Empties(old(M()), i, bn)
    {
      hide Extends, Covered, Ok, WordAt;
      ghost var m, k := M(), bn - NDIRECT;
      NoPointer(m, i, k);
      var p;
      p, bm := PointerBlock(i);
      if p.None? {
        return None, {};
      }
      ghost var m1, logged1, bm1 := M(), logged, bm;
      r, bm := IndirectBlock(i, bn - NDIRECT);
      if r.None? {
        return None, {};
      }
      ExtendsTwice(m, m1, M(), start, i);
      CoveredTwice(m, m1, M(), start, bmapstart, old(logged), logged1, logged);
      assert Ref(M(), Pointer(i)) == p.value;
      assert Pointers(M(), i) == {p.value};
      bm := bm1 + bm;
    }

    /**
     bmap, within the largest file. None stands for the panic of balloc. `bm` collects the bitmap
     blocks it logged: one for each slot that was empty.
     */
    method Bmap(i: nat, bn: nat) returns (r: Option<nat>, ghost bm: set<nat>)
      requires Valid() && i in inodes && bn < MAXFILE
      modifies `used, `disk, `logged, `inodes, `owner
      ensures r.None? ==> Ref(old(M()), FileSlot(i, bn)) == 0 && forall c :: 0 <= c < |used| ==> used[c]
      ensures r.Some? ==> Valid() && BmapTo(old(M()), M(), i, bn) && r.value == Ref(M(), FileSlot(i, bn)) && r.value < |disk|
      ensures r.Some? && Ref(old(M()), FileSlot(i, bn)) != 0 ==> M() == old(M()) && logged == old(logged)
      ensures r.Some? ==> logged <= old(logged) + bm + {r.value} + Pointers(M(), i)
      ensures r.Some? ==> Covered(old(M()), M(), start, bmapstart, old(logged), logged)
      ensures |bm| <= Empties(old(M()), i, bn)
      ensures if r.None? then Unused(old(used)) < Empties(old(M()), i, bn) else Unused(used) == Unused(old(used)) - Empties(old(M()), i, bn)
      ensures r.Some? ==> HasInode(M(), i) && r.value == if bn < 12 then inodes[i].addrs[bn] else WordAt(M(), inodes[i].addrs[12], bn - 12)
    {
      if bn >= NDIRECT {
        r, bm := BmapIndirect(i, bn);
        return;
      }
      hide Extends, Covered;
      ghost var m := M();
      NoChange(m, start, bmapstart, logged);
      assert SlotOk(m, Direct(i, bn));
      ExtendsSelf(m, i);
      var addr := inodes[i].addrs[bn];
      if addr == 0 {
        r := Fill(i, bn, Direct(i, bn));
        bm := if r.Some? then {r.value / BPB + bmapstart} else {};
        return;
      }
      assert BlockOk(m, start, addr);
      return Some(addr), {};
    }
  }
}
