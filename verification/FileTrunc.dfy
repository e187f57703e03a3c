/**
 itrunc of fs/sfs/fs.c:417-449: every block of a file goes back to the bitmap, once.

 While the loops run, blocks are unused whose numbers are still in the inode or in the indirect block, so
 the image is in order again only at the end; until then a predicate says how far the loops got.
 */
module FileTrunc {
  import opened FsImage
  import opened Dinodes
  import opened FileSystem
  import opened FileIO

  /** The slots that are emptied when the first `a` direct and the first `j` indirect ones are. */
  predicate Emptied(s: Slot, i: nat, a: nat, j: nat)
  {
    s.inum == i && (s.Direct? ==> s.k < a) && (s.Indirect? ==> s.k < j) && !s.Pointer?
  }

  /** itrunc before direct slot `a` and indirect slot `j`. */
  ghost predicate Dropping(m: Img, m': Img, start: nat, i: nat, a: nat, j: nat)
  {
    && m'.disk == m.disk && |m'.used| == |m.used|
    && (forall b :: b in m'.owner <==> b in m.owner && !Emptied(m.owner[b], i, a, j))
    && (forall b :: b in m'.owner ==> m'.owner[b] == m.owner[b])
    && (forall b: nat {:trigger UsedOk(m', start, b)} :: b < |m'.used| ==> UsedOk(m', start, b))
    && i in m.inodes && i in m'.inodes && m'.inodes == m.inodes[i := m'.inodes[i]]
    && |m'.inodes[i].addrs| == |m.inodes[i].addrs| == 13 && m'.inodes[i].size == m.inodes[i].size
    && (forall k :: 0 <= k < 13 ==> m'.inodes[i].addrs[k] == if k < a then 0 else m.inodes[i].addrs[k])
  }

  lemma DropStart(m: Img, start: nat, i: nat)
    requires Ok(m, start) && i in m.inodes
    ensures Dropping(m, m, start, i, 0, 0)
  {
    forall b | b in m.owner ensures !Emptied(m.owner[b], i, 0, 0) {
    }
    assert m.inodes == m.inodes[i := m.inodes[i]];
  }

  /** The block of a slot that comes next is still in use, so bfree does not panic. */
  lemma StillUsed(m: Img, m': Img, start: nat, i: nat, a: nat, j: nat, s: Slot)
    requires Ok(m, start) && Dropping(m, m', start, i, a, j) && !Emptied(s, i, a, j) && Ref(m, s) != 0
    ensures Ref(m, s) < |m'.used| && m'.used[Ref(m, s)] && Ref(m, s) in m'.owner && m'.owner[Ref(m, s)] == s && start <= Ref(m, s)
  {
    var b := Ref(m, s);
    assert SlotOk(m, s);
    assert BlockOk(m, start, b);
    assert UsedOk(m', start, b);
  }

  /** bfree and the ownership record. */
  function Unown(m: Img, b: nat): Img
    requires b < |m.used|
  {
    m.(used := m.used[b := false], owner := m.owner - {b})
  }

  lemma OwnersNext(m: Img, m': Img, start: nat, i: nat, a: nat, j: nat, a': nat, j': nat, s: Slot)
    requires Ok(m, start) && Dropping(m, m', start, i, a, j) && !Emptied(s, i, a, j)
    requires forall t :: Emptied(t, i, a', j') <==> Emptied(t, i, a, j) || t == s
    ensures Ref(m, s) == 0 ==> forall b :: b in m'.owner <==> b in m.owner && !Emptied(m.owner[b], i, a', j')
    ensures Ref(m, s) != 0 && Ref(m, s) < |m'.used| ==>
              forall b :: b in m'.owner && b != Ref(m, s) <==> b in m.owner && !Emptied(m.owner[b], i, a', j')
  {
    hide Ref;
    forall b | b in m.owner && m.owner[b] == s ensures b == Ref(m, s) && b != 0 {
      assert BlockOk(m, start, b);
    }
    assert SlotOk(m, s);
  }

  lemma DirectNext(m: Img, m': Img, start: nat, i: nat, a: nat)
    requires Ok(m, start) && Dropping(m, m', start, i, a, 0) && a < NDIRECT
    ensures m.inodes[i].addrs[a] == 0 ==> Dropping(m, m', start, i, a + 1, 0)
    ensures var b := m.inodes[i].addrs[a];
            b != 0 ==> start <= b < |m'.used| && m'.used[b]
                       && Dropping(m, Unown(m', b).(inodes := m'.inodes[i := m'.inodes[i].(addrs := m'.inodes[i].addrs[a := 0])]), start, i, a + 1, 0)
  {
    var s := Direct(i, a);
    OwnersNext(m, m', start, i, a, 0, a + 1, 0, s);
    if Ref(m, s) != 0 {
      StillUsed(m, m', start, i, a, 0, s);
      UnownUsed(m', start, Ref(m, s));
      var m'' := Unown(m', Ref(m, s)).(inodes := m'.inodes[i := m'.inodes[i].(addrs := m'.inodes[i].addrs[a := 0])]);
      assert m''.inodes == m.inodes[i := m''.inodes[i]];
      forall b: nat | b < |m''.used| ensures UsedOk(m'', start, b) {
        assert UsedOk(Unown(m', Ref(m, s)), start, b);
      }
    }
  }

  lemma UnownUsed(m: Img, start: nat, b: nat)
    requires forall c: nat {:trigger UsedOk(m, start, c)} :: c < |m.used| ==> UsedOk(m, start, c)
    requires start <= b < |m.used|
    ensures forall c: nat {:trigger UsedOk(Unown(m, b), start, c)} :: c < |m.used| ==> UsedOk(Unown(m, b), start, c)
  {
    forall c: nat | c < |m.used| ensures UsedOk(Unown(m, b), start, c) {
      assert UsedOk(m, start, c);
    }
  }

  lemma IndirectNext(m: Img, m': Img, start: nat, i: nat, j: nat)
    requires Ok(m, start) && Dropping(m, m', start, i, 12, j) && j < NINDIRECT
    ensures Ref(m, Indirect(i, j)) == 0 ==> Dropping(m, m', start, i, 12, j + 1)
    ensures var b := Ref(m, Indirect(i, j));
            b != 0 ==> start <= b < |m'.used| && m'.used[b] && Dropping(m, Unown(m', b), start, i, 12, j + 1)
  {
    var s := Indirect(i, j);
    OwnersNext(m, m', start, i, 12, j, 12, j + 1, s);
    hide Ref;
    if Ref(m, s) != 0 {
      StillUsed(m, m', start, i, 12, j, s);
      UnownUsed(m', start, Ref(m, s));
    }
  }

  /** The file is empty and its blocks, and only those, are free. */
  ghost predicate Truncated(m: Img, m': Img, start: nat, i: nat)
  {
    && OthersKept(m, m', i) && |m'.used| == |m.used|
    && (forall b :: start <= b < |m.disk| ==> m'.disk[b] == m.disk[b])
    && (forall b :: b in m'.owner <==> b in m.owner && m.owner[b].inum != i)
    && (forall b :: b in m'.owner ==> m'.owner[b] == m.owner[b])
    && (forall b: nat :: b < |m.used| ==> (m'.used[b] <==> m.used[b] && !(b in m.owner && m.owner[b].inum == i)))
    && i in m'.inodes && m'.inodes[i].size == 0 && (forall t: Slot :: t.inum == i ==> Ref(m', t) == 0)
  }

  lemma DropEnd(m: Img, m': Img, start: nat, i: nat)
    requires Ok(m, start) && i in m.inodes && i in m'.inodes && m'.disk == m.disk && |m'.used| == |m.used|
    requires forall b :: b in m'.owner <==> b in m.owner && m.owner[b].inum != i
    requires forall b :: b in m'.owner ==> m'.owner[b] == m.owner[b]
    requires forall b: nat {:trigger UsedOk(m', start, b)} :: b < |m'.used| ==> UsedOk(m', start, b)
    requires m'.inodes == m.inodes[i := m'.inodes[i]]
    requires |m'.inodes[i].addrs| == 13 && (forall k :: 0 <= k < 13 ==> m'.inodes[i].addrs[k] == 0) && m'.inodes[i].size == 0
    ensures Ok(m', start) && Truncated(m, m', start, i)
  {
    forall t: Slot ensures Ref(m', t) == if t.inum == i then 0 else Ref(m, t) {
    }
    forall b | b in m.owner ensures start <= b {
      assert BlockOk(m, start, b);
    }
    hide Ref;
    forall b | b in m'.owner ensures BlockOk(m', start, b) {
      assert BlockOk(m, start, b);
    }
    forall t ensures SlotOk(m', t) {
      assert SlotOk(m, t);
    }
    forall b: nat | b < |m.used| ensures m'.used[b] <==> m.used[b] && !(b in m.owner && m.owner[b].inum == i) {
      assert UsedOk(m, start, b) && UsedOk(m', start, b);
    }
  }

  /** iupdate, of an inode block before the data area. */
  lemma TruncatedBelow(m: Img, m1: Img, m2: Img, start: nat, i: nat, b: nat, blk: Block)
    requires Ok(m1, start) && Truncated(m, m1, start, i) && b < start && m2 == m1.(disk := m1.disk[b := blk])
    requires forall c :: c in m1.owner ==> start <= c
    requires forall c :: c in m.owner ==> start <= c
    ensures Ok(m2, start) && Truncated(m, m2, start, i)
  {
    forall t ensures Ref(m2, t) == Ref(m1, t) {
      assert SlotOk(m1, Pointer(t.inum));
    }
    SameRefsOk(m1, m2, start);
    hide Ref, Ok;
  }

  lemma OwnedAbove(m: Img, start: nat)
    requires Ok(m, start)
    ensures forall c :: c in m.owner ==> start <= c
  {
    forall c | c in m.owner ensures start <= c {
      assert BlockOk(m, start, c);
    }
  }

  lemma CoveredFree(m: Img, m1: Img, m2: Img, start: nat, bmapstart: nat, before: set<nat>, logged: set<nat>, b: nat)
    requires Covered(m, m1, start, bmapstart, before, logged) && b < |m1.used| && m2.used == m1.used[b := false] && m2.disk == m1.disk
    ensures Covered(m, m2, start, bmapstart, before, logged + {b / BPB + bmapstart})
  {
  }

  /** Without an indirect block there is nothing left to free. */
  lemma NoIndirect(m: Img, m': Img, start: nat, i: nat)
    requires Ok(m, start) && Dropping(m, m', start, i, 12, 0) && m.inodes[i].addrs[12] == 0
    ensures forall b :: b in m'.owner <==> b in m.owner && m.owner[b].inum != i
  {
    forall b | b in m.owner && m.owner[b].inum == i ensures Emptied(m.owner[b], i, 12, 0) {
      assert BlockOk(m, start, b);
    }
  }

  /** After its slots, the indirect block itself. */
  lemma FreePointer(m: Img, m': Img, start: nat, i: nat)
    requires Ok(m, start) && Dropping(m, m', start, i, 12, 128) && m.inodes[i].addrs[12] != 0
    ensures var p := m.inodes[i].addrs[12];
            && start <= p < |m'.used| && m'.used[p]
            && (forall b :: b in m'.owner && b != p <==> b in m.owner && m.owner[b].inum != i)
            && (forall c: nat {:trigger UsedOk(Unown(m', p), start, c)} :: c < |m'.used| ==> UsedOk(Unown(m', p), start, c))
  {
    assert Ref(m, Pointer(i)) == m.inodes[i].addrs[12];
    StillUsed(m, m', start, i, 12, 128, Pointer(i));
    UnownUsed(m', start, m.inodes[i].addrs[12]);
    forall b | b in m.owner && m.owner[b].inum == i ensures Emptied(m.owner[b], i, 12, 128) || b == m.inodes[i].addrs[12] {
      assert BlockOk(m, start, b);
    }
    assert SlotOk(m, Pointer(i));
  }

  /** The indirect block is still what it was. */
  lemma IndirectKept(m: Img, m': Img, start: nat, i: nat)
    requires Ok(m, start) && Dropping(m, m', start, i, 12, 0) && m.inodes[i].addrs[12] != 0
    ensures i in m'.inodes && |m'.inodes[i].addrs| == 13 && m'.inodes[i].addrs[12] < |m'.disk|
    ensures forall j: nat :: j < NINDIRECT ==> Ref(m, Indirect(i, j)) == Word(m'.disk[m'.inodes[i].addrs[12]], j)
  {
    assert SlotOk(m, Pointer(i)) && BlockOk(m, start, m.inodes[i].addrs[12]);
  }

  /** itrunc's loop over the indirect block. */
  method FreeIndirect(fs: Files, i: nat, ghost m: Img, ghost before: set<nat>)
    requires Ok(m, fs.start) && Dropping(m, fs.M(), fs.start, i, 12, 0) && m.inodes[i].addrs[12] != 0
    requires Covered(m, fs.M(), fs.start, fs.bmapstart, before, fs.logged)
    modifies fs`used, fs`owner, fs`logged
    ensures Dropping(m, fs.M(), fs.start, i, 12, 128) && Covered(m, fs.M(), fs.start, fs.bmapstart, before, fs.logged)
  {
    IndirectKept(m, fs.M(), fs.start, i);
    hide Dropping, Ok, Ref, Covered, Word;
    var a := fs.disk[fs.inodes[i].addrs[12]];
    for j := 0 to NINDIRECT
      invariant Dropping(m, fs.M(), fs.start, i, 12, j) && Covered(m, fs.M(), fs.start, fs.bmapstart, before, fs.logged)
    {
      IndirectNext(m, fs.M(), fs.start, i, j);
      if Word(a, j) != 0 {
        FreeOne(fs, Word(a, j), m, before);
      }
    }
  }

  /** bfree of one block of the file. */
  method FreeOne(fs: Files, b: nat, ghost m: Img, ghost before: set<nat>)
    requires b < |fs.used| && fs.used[b] && Covered(m, fs.M(), fs.start, fs.bmapstart, before, fs.logged)
    modifies fs`used, fs`owner, fs`logged
    ensures fs.M() == Unown(old(fs.M()), b) && Covered(m, fs.M(), fs.start, fs.bmapstart, before, fs.logged)
  {
    hide Covered;
    ghost var m1, logged := fs.M(), fs.logged;
    fs.Bfree(b);
    fs.owner := fs.owner - {b};
    CoveredFree(m, m1, fs.M(), fs.start, fs.bmapstart, before, logged, b);
  }

  /** itrunc's loop over the direct slots. */
  method FreeDirect(fs: Files, i: nat)
    requires fs.Valid() && i in fs.inodes
    modifies fs`used, fs`owner, fs`logged, fs`inodes
    ensures Dropping(old(fs.M()), fs.M(), fs.start, i, 12, 0)
    ensures Covered(old(fs.M()), fs.M(), fs.start, fs.bmapstart, old(fs.logged), fs.logged)
  {
    ghost var m := fs.M();
    DropStart(m, fs.start, i);
    NoChange(m, fs.start, fs.bmapstart, fs.logged);
    for a := 0 to NDIRECT
      invariant Dropping(m, fs.M(), fs.start, i, a, 0) && Covered(m, fs.M(), fs.start, fs.bmapstart, old(fs.logged), fs.logged)
    {
      DirectNext(m, fs.M(), fs.start, i, a);
      hide Ok, Ref, Covered;
      var b := fs.inodes[i].addrs[a];
      if b != 0 {
        CoveredFree(m, fs.M(), Unown(fs.M(), b).(inodes := fs.inodes[i := fs.inodes[i].(addrs := fs.inodes[i].addrs[a := 0])]),
                    fs.start, fs.bmapstart, old(fs.logged), fs.logged, b);
        fs.Bfree(b);
        fs.owner := fs.owner - {b};
        fs.inodes := fs.inodes[i := fs.inodes[i].(addrs := fs.inodes[i].addrs[a := 0])];
      }
    }
  }

  /** The block that holds the indirect slots goes last. */
  method FreeAll(fs: Files, i: nat)
    requires fs.Valid() && i in fs.inodes
    modifies fs`used, fs`owner, fs`logged, fs`inodes
    ensures fs.Valid() && Truncated(old(fs.M()), fs.M(), fs.start, i) && fs.inodes == old(fs.inodes)[i := fs.inodes[i]]
    ensures Covered(old(fs.M()), fs.M(), fs.start, fs.bmapstart, old(fs.logged), fs.logged)
  {
    hide Covered, Truncated, Ref;
    ghost var m, start := fs.M(), fs.start;
    FreeDirect(fs, i);
    assert fs.inodes[i].addrs[12] == m.inodes[i].addrs[12];
    if fs.inodes[i].addrs[12] != 0 {
      FreeIndirect(fs, i, m, old(fs.logged));
      FreePointer(m, fs.M(), start, i);
      var p := fs.inodes[i].addrs[12];
      FreeOne(fs, p, m, old(fs.logged));
      ghost var m1 := fs.M();
      fs.inodes := fs.inodes[i := fs.inodes[i].(addrs := fs.inodes[i].addrs[12 := 0])];
      UsedSame(m1, fs.M(), start);
      CoveredSize(m, m1, fs.M(), start, start, fs.bmapstart, old(fs.logged), fs.logged);
    } else {
      NoIndirect(m, fs.M(), start, i);
    }
    ghost var m2 := fs.M();
    fs.inodes := fs.inodes[i := fs.inodes[i].(size := 0)];
    UsedSame(m2, fs.M(), start);
    CoveredSize(m, m2, fs.M(), start, start, fs.bmapstart, old(fs.logged), fs.logged);
    assert fs.inodes == m.inodes[i := fs.inodes[i]];
    DropEnd(m, fs.M(), start, i);
  }

  /** itrunc. Every block it changes is logged, however many that are. */
  method Itrunc(fs: Files, i: nat)
    requires fs.Valid() && i in fs.inodes && Filed(fs.M(), fs.start, fs.bmapstart, fs.inodestart, {i})
    modifies fs
    ensures fs.Valid() && Truncated(old(fs.M()), fs.M(), fs.start, i)
    ensures Filed(fs.M(), fs.start, fs.bmapstart, fs.inodestart, {})
    ensures Covered(old(fs.M()), fs.M(), fs.inodestart, fs.bmapstart, old(fs.logged), fs.logged)
  {
    hide Ok, Filed, Truncated, Covered, Packable, IBlock;
    ghost var m, start, b := fs.M(), fs.start, IBlock(fs.inodestart, i);
    FiledBound(m, start, fs.bmapstart, fs.inodestart, i);
    FreeAll(fs, i);
    ghost var m1 := fs.M();
    TruncatedFacts(m, m1, start, i);
    FiledOpen(m, m1, start, fs.bmapstart, fs.inodestart, old(fs.logged), fs.logged, i);
    CoveredSize(m, m1, m1, fs.inodestart, start, fs.bmapstart, old(fs.logged), fs.logged);
    PackableInode(m1, start, i);
    ghost var logged := fs.logged;
    fs.Iupdate(i);
    FiledPut(m1, fs.M(), start, fs.bmapstart, fs.inodestart, i);
    OwnedAbove(m, start);
    OwnedAbove(m1, start);
    TruncatedBelow(m, m1, fs.M(), start, i, b, fs.disk[b]);
    CoveredWrite(m, m1, fs.M(), fs.inodestart, fs.bmapstart, old(fs.logged), logged, b);
  }

  lemma TruncatedFacts(m: Img, m': Img, start: nat, i: nat)
    requires Truncated(m, m', start, i)
    ensures i in m'.inodes && m'.inodes[i].size == 0 && OthersKept(m, m', i)
  {
  }

  lemma FiledOpen(m: Img, m': Img, start: nat, bmapstart: nat, inodestart: nat, before: set<nat>, logged: set<nat>, i: nat)
    requires Filed(m, start, bmapstart, inodestart, {i}) && Covered(m, m', start, bmapstart, before, logged) && OthersKept(m, m', i) && i in m.inodes
    ensures Filed(m', start, bmapstart, inodestart, {i}) && inodestart <= IBlock(inodestart, i) < bmapstart <= start <= |m'.disk|
  {
    hide GetInode, Ref;
  }

  lemma UsedSame(m: Img, m': Img, start: nat)
    requires m'.used == m.used && m'.owner == m.owner
    requires forall c: nat {:trigger UsedOk(m, start, c)} :: c < |m.used| ==> UsedOk(m, start, c)
    ensures forall c: nat {:trigger UsedOk(m', start, c)} :: c < |m'.used| ==> UsedOk(m', start, c)
  {
    forall c: nat | c < |m'.used| ensures UsedOk(m', start, c) {
      assert UsedOk(m, start, c);
    }
  }

  /** So a sound image stays sound, the other files read as before, and the emptied one reads as nothing. */
  lemma TruncatedSound(m: Img, m': Img, start: nat, i: nat)
    requires Ok(m, start) && NoHoles(m) && Truncated(m, m', start, i)
    ensures NoHoles(m') && Content(m', i) == []
    ensures forall j :: j in m.inodes && j != i ==> Content(m', j) == Content(m, j)
  {
    forall j | j in m.inodes && j != i ensures Content(m', j) == Content(m, j) && Prefix(m', j, Blocks(m'.inodes[j].size)) {
      OthersRead(m, m', start, i, j);
      OtherPrefix(m, m', i, j);
    }
  }
}
