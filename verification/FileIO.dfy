/**
 readi and writei of fs/sfs/fs.c, and the chunks of filewrite in fs/sfs/file.c.

 The contents of a file are a sequence of bytes; a write splices bytes into it. `logged` collects the
 numbers of the blocks given to log_write, so that what an operation logs can be counted: data blocks,
 bitmap blocks, the indirect block and the inode block.
 */
module FileIO {
  import opened Common
  import opened FsImage
  import opened Dinodes
  import opened FileSystem
  import opened FileSpec

  /** How many blocks the bytes [off, off+n) touch. */
  function Span(off: nat, n: nat): nat { if n == 0 then 0 else (off + n - 1) / BSIZE - off / BSIZE + 1 }

  /** How many data blocks a file of `size` bytes gains when it is written up to `end`. */
  function Grows(size: nat, end: nat): nat { Max(Blocks(size), Blocks(end)) - Blocks(size) }

  /** Whether the indirect block is new. */
  function NewPointer(m0: Img, m: Img, i: nat): nat { if PointerOf(m0, i) == 0 && PointerOf(m, i) != 0 then 1 else 0 }

  lemma EmptiesCount(m0: Img, m: Img, m1: Img, i: nat, bn: nat, cnt: nat)
    requires Prefix(m, i, cnt) && BmapTo(m, m1, i, bn) && bn <= cnt && bn < MAXFILE
    requires PointerOf(m0, i) != 0 ==> PointerOf(m, i) != 0
    ensures Empties(m, i, bn) + NewPointer(m0, m, i) <= Max(cnt, bn + 1) - cnt + NewPointer(m0, m1, i)
    ensures Pointers(m, i) <= Pointers(m1, i)
  {
    assert Ref(m, FileSlot(i, bn)) != 0 <==> bn < cnt;
    assert Ref(m, Pointer(i)) == PointerOf(m, i) && Ref(m1, Pointer(i)) == PointerOf(m1, i);
  }

  lemma StepCounts(off: nat, tot: nat, k: nat, n: nat, cnt0: nat)
    requires tot < n && k == Min(n - tot, BSIZE - (off + tot) % BSIZE)
    requires tot == 0 || (off + tot) % BSIZE == 0
    ensures 0 < k <= n - tot && (off + tot) % BSIZE + k <= BSIZE
    ensures Max(cnt0, Blocks(off + tot + k)) == Max(Max(cnt0, Blocks(off + tot)), (off + tot) / BSIZE + 1)
    ensures Span(off, tot + k) == Span(off, tot) + 1
    ensures tot + k < n ==> (off + tot + k) % BSIZE == 0
  {
  }

  lemma WroteFacts(m0: Img, m: Img, start: nat, i: nat, off: nat, tot: nat, src: seq<Byte>, cnt: nat)
    requires Wrote(m0, m, start, i, off, tot, src, cnt)
    ensures Ok(m, start) && Prefix(m, i, cnt) && i in m.inodes && (off + tot) / BSIZE <= cnt
    ensures i in m0.inodes && m.inodes[i].size == m0.inodes[i].size
    ensures PointerOf(m0, i) != 0 ==> PointerOf(m, i) != 0
  {
    assert Ref(m, Pointer(i)) == PointerOf(m, i) && Ref(m0, Pointer(i)) == PointerOf(m0, i);
  }

  lemma Join(c: seq<Byte>, a: nat, b: nat, d: nat)
    requires a <= b <= d <= |c|
    ensures c[a..d] == c[a..b] + c[b..d]
  {
  }

  /** readi of a file. Nothing changes: bmap finds every block it is asked for. */
  method Readi(fs: Files, i: nat, off: nat, n: nat) returns (r: int, dst: seq<Byte>)
    requires fs.Valid() && i in fs.inodes && Prefix(fs.M(), i, Blocks(fs.inodes[i].size))
    requires off < 0x1_0000_0000 && n < 0x1_0000_0000
    modifies fs
    ensures fs.M() == old(fs.M()) && fs.logged == old(fs.logged)
    ensures r == -1 <==> off > fs.inodes[i].size || off + n >= 0x1_0000_0000
    ensures r != -1 ==> r == |dst| && dst == Content(fs.M(), i)[off..Min(off + n, fs.inodes[i].size)]
  {
    hide Content, Ref, Ok, Prefix, BmapTo, Pointers, Empties, FileSlot, Blocks;
    dst := [];
    if off > fs.inodes[i].size || (off + n) % 0x1_0000_0000 < off {
      return -1, dst;
    }
    var len := if off + n > fs.inodes[i].size then fs.inodes[i].size - off else n;
    ghost var m := fs.M();
    var tot := 0;
    while tot < len
      invariant tot <= len && fs.M() == m && fs.logged == old(fs.logged)
      invariant dst == Content(m, i)[off..off + tot]
    {
      var p := off + tot;
      var k := Min(len - tot, BSIZE - p % BSIZE);
      BlockSlice(m, fs.start, i, p, k);
      var b, bm := fs.Bmap(i, p / BSIZE);
      assert b.Some?;
      dst := dst + fs.disk[b.value][p % BSIZE..p % BSIZE + k];
      Join(Content(m, i), off, p, p + k);
      tot := tot + k;
    }
    r := len;
  }

  /** Between operations: blocks owned once, no holes, and the inodes on disk are up to date. */
  ghost predicate Sound(fs: Files)
    reads fs
  {
    fs.Valid() && NoHoles(fs.M()) && Filed(fs.M(), fs.start, fs.bmapstart, fs.inodestart, {})
  }

  /** One round of writei's loop: k bytes into one block. */
  method WriteOne(fs: Files, ghost m0: Img, i: nat, p: nat, bytes: seq<Byte>, ghost off: nat, ghost tot: nat, ghost src: seq<Byte>, ghost cnt: nat)
    returns (b: Option<nat>, ghost bm: set<nat>)
    requires Wrote(m0, fs.M(), fs.start, i, off, tot, src, cnt) && p == off + tot
    requires tot + |bytes| <= |src| && bytes == src[tot..tot + |bytes|] && 0 < |bytes| && p % BSIZE + |bytes| <= BSIZE && p < MAXFILE * BSIZE
    modifies fs
    ensures b.Some? ==> Covered(old(fs.M()), fs.M(), fs.start, fs.bmapstart, old(fs.logged), fs.logged)
    ensures b.None? ==> forall c :: 0 <= c < |fs.used| ==> fs.used[c]
    ensures var e := Taken(Max(cnt, p / BSIZE + 1)) - Taken(cnt);
            if b.None? then Unused(old(fs.used)) < e else Unused(fs.used) == Unused(old(fs.used)) - e
    ensures b.Some? ==> Wrote(m0, fs.M(), fs.start, i, off, tot + |bytes|, src, Max(cnt, p / BSIZE + 1))
    ensures b.Some? ==> fs.logged <= old(fs.logged) + {b.value} + bm + Pointers(fs.M(), i)
    ensures b.Some? ==> Pointers(old(fs.M()), i) <= Pointers(fs.M(), i)
    ensures b.Some? ==> |bm| + NewPointer(m0, old(fs.M()), i) <= Max(cnt, p / BSIZE + 1) - cnt + NewPointer(m0, fs.M(), i)
  {
    hide Wrote, Ok, Patch, Max, Pointers, NewPointer, FileSlot, Ref, Covered, Taken, Unused;
    b, bm := BlockFor(fs, m0, i, p / BSIZE, off, tot, src, cnt);
    if b.None? {
      return;
    }
    ghost var m1, logged1 := fs.M(), fs.logged;
    fs.disk := fs.disk[b.value := Patch(fs.disk[b.value], p % BSIZE, bytes)];
    fs.logged := fs.logged + {b.value};
    CoveredWrite(old(fs.M()), m1, fs.M(), fs.start, fs.bmapstart, old(fs.logged), logged1, b.value);
    SamePointers(m0, m1, fs.M(), i);
    assert p / BSIZE < Max(cnt, p / BSIZE + 1) by { MaxAbove(cnt, p / BSIZE); }
    PatchStep(m0, m1, fs.M(), fs.start, i, off, tot, src, Max(cnt, p / BSIZE + 1), |bytes|);
  }

  /** bmap in writei's loop. */
  method BlockFor(fs: Files, ghost m0: Img, i: nat, bn: nat, ghost off: nat, ghost tot: nat, ghost src: seq<Byte>, ghost cnt: nat)
    returns (b: Option<nat>, ghost bm: set<nat>)
    requires Wrote(m0, fs.M(), fs.start, i, off, tot, src, cnt) && bn == (off + tot) / BSIZE < MAXFILE
    modifies fs
    ensures b.Some? ==> Covered(old(fs.M()), fs.M(), fs.start, fs.bmapstart, old(fs.logged), fs.logged)
    ensures b.None? ==> forall c :: 0 <= c < |fs.used| ==> fs.used[c]
    ensures var e := Taken(Max(cnt, bn + 1)) - Taken(cnt);
            if b.None? then Unused(old(fs.used)) < e else Unused(fs.used) == Unused(old(fs.used)) - e
    ensures b.Some? ==> Wrote(m0, fs.M(), fs.start, i, off, tot, src, Max(cnt, bn + 1))
    ensures b.Some? ==> b.value == Ref(fs.M(), FileSlot(i, bn)) && fs.start <= b.value < |fs.disk| && b.value > 0
    ensures b.Some? ==> fs.logged <= old(fs.logged) + {b.value} + bm + Pointers(fs.M(), i)
    ensures b.Some? ==> Pointers(old(fs.M()), i) <= Pointers(fs.M(), i)
    ensures b.Some? ==> |bm| + NewPointer(m0, old(fs.M()), i) <= Max(cnt, bn + 1) - cnt + NewPointer(m0, fs.M(), i)
  {
    hide Wrote, BmapTo, Ok, Prefix, Empties, Ref, Max, Pointers, NewPointer, FileSlot, Covered, Taken, WordAt, Unused;
    ghost var m := fs.M();
    WroteFacts(m0, m, fs.start, i, off, tot, src, cnt);
    EmptiesTaken(m, i, bn, cnt);
    b, bm := fs.Bmap(i, bn);
    if b.None? {
      return;
    }
    ghost var m1 := fs.M();
    DataBlock(m1, fs.start, FileSlot(i, bn));
    EmptiesCount(m0, m, m1, i, bn, cnt);
    BmapStep(m0, m, m1, fs.start, i, off, tot, src, cnt, bn);
    Mapped(m, m1, i, bn);
  }

  lemma DataBlock(m: Img, start: nat, s: Slot)
    requires Ok(m, start)
    ensures Ref(m, s) != 0 ==> start <= Ref(m, s) < |m.disk|
  {
    assert SlotOk(m, s);
    assert Ref(m, s) != 0 ==> BlockOk(m, start, Ref(m, s));
  }

  lemma CoveredWrite(m: Img, m1: Img, m2: Img, start: nat, bmapstart: nat, before: set<nat>, logged: set<nat>, b: nat)
    requires Covered(m, m1, start, bmapstart, before, logged) && start <= b < |m1.disk| == |m2.disk| && m2 == m1.(disk := m1.disk[b := m2.disk[b]])
    ensures Covered(m, m2, start, bmapstart, before, logged + {b})
  {
  }

  /** What iupdate writes does not matter to the blocks before it. */
  lemma CoveredSize(m: Img, m1: Img, m2: Img, low: nat, start: nat, bmapstart: nat, before: set<nat>, logged: set<nat>)
    requires Covered(m, m1, start, bmapstart, before, logged) && m2.disk == m1.disk && m2.used == m1.used && low <= start
    ensures Covered(m, m2, start, bmapstart, before, logged) && Covered(m, m2, low, bmapstart, before, logged)
  {
  }

  lemma PrefixOf(m: Img, i: nat)
    requires NoHoles(m) && i in m.inodes
    ensures Prefix(m, i, Blocks(m.inodes[i].size))
  {
  }

  lemma MaxAbove(a: nat, b: nat)
    ensures b < Max(a, b + 1) && a <= Max(a, b + 1)
  {
  }

  lemma SamePointers(m0: Img, m: Img, m': Img, i: nat)
    requires m'.inodes == m.inodes
    ensures Pointers(m', i) == Pointers(m, i) && NewPointer(m0, m', i) == NewPointer(m0, m, i)
  {
  }

  lemma Mapped(m: Img, m1: Img, i: nat, bn: nat)
    requires BmapTo(m, m1, i, bn)
    ensures Ref(m1, FileSlot(i, bn)) != 0
  {
  }

  /** What was logged: `data`, `bms` and the indirect block, with bounds on the first two. */
  ghost predicate Counted(before: set<nat>, logged: set<nat>, data: set<nat>, bms: set<nat>, ptrs: set<nat>, nd: int, nb: int)
  {
    logged <= before + data + bms + ptrs && |data| <= nd && |bms| <= nb
  }

  lemma CountNext(before: set<nat>, logged: set<nat>, logged': set<nat>, data: set<nat>, bms: set<nat>, ptrs: set<nat>, ptrs': set<nat>,
                  b: nat, bm: set<nat>, nd: int, nb: int, nb': int)
    requires Counted(before, logged, data, bms, ptrs, nd, nb) && ptrs <= ptrs' && nb + |bm| <= nb'
    requires logged' <= logged + {b} + bm + ptrs'
    ensures Counted(before, logged', data + {b}, bms + bm, ptrs', nd + 1, nb')
  {
  }

  /** Up to `tot` bytes are in place, and the next one is the first or starts a block. */
  ghost predicate Progress(m0: Img, m: Img, start: nat, i: nat, off: nat, tot: nat, src: seq<Byte>, cnt: nat)
  {
    && tot <= |src| && Wrote(m0, m, start, i, off, tot, src, cnt)
    && cnt == Max(Blocks(m0.inodes[i].size), Blocks(off + tot))
    && (tot < |src| ==> tot == 0 || (off + tot) % BSIZE == 0)
  }

  lemma ProgressStart(m: Img, start: nat, i: nat, off: nat, src: seq<Byte>)
    requires Ok(m, start) && i in m.inodes && Prefix(m, i, Blocks(m.inodes[i].size)) && off <= m.inodes[i].size
    ensures Progress(m, m, start, i, off, 0, src, Blocks(m.inodes[i].size))
  {
    WroteNothing(m, start, i, off, src);
    hide Wrote;
  }

  /** The bytes that go into the next block. */
  function Piece(off: nat, tot: nat, n: nat): nat
    requires tot <= n
  {
    Min(n - tot, BSIZE - (off + tot) % BSIZE)
  }

  lemma ProgressReady(m0: Img, m: Img, start: nat, i: nat, off: nat, tot: nat, src: seq<Byte>, cnt: nat)
    requires Progress(m0, m, start, i, off, tot, src, cnt) && tot < |src|
    ensures Wrote(m0, m, start, i, off, tot, src, cnt)
    ensures var k := Piece(off, tot, |src|); 0 < k && tot + k <= |src| && (off + tot) % BSIZE + k <= BSIZE
  {
    hide Wrote;
  }

  lemma ProgressNext(m0: Img, m: Img, m': Img, start: nat, i: nat, off: nat, tot: nat, src: seq<Byte>, cnt: nat, k: nat)
    requires Progress(m0, m, start, i, off, tot, src, cnt) && tot < |src| && k == Piece(off, tot, |src|)
    requires Wrote(m0, m', start, i, off, tot + k, src, Max(cnt, (off + tot) / BSIZE + 1))
    ensures Progress(m0, m', start, i, off, tot + k, src, Max(cnt, (off + tot) / BSIZE + 1))
    ensures Span(off, tot + k) == Span(off, tot) + 1
  {
    StepCounts(off, tot, k, |src|, Blocks(m0.inodes[i].size));
    hide Wrote;
  }

  lemma ProgressEnd(m0: Img, m: Img, start: nat, i: nat, off: nat, src: seq<Byte>, cnt: nat)
    requires Progress(m0, m, start, i, off, |src|, src, cnt)
    ensures Wrote(m0, m, start, i, off, |src|, src, cnt)
    ensures i in m0.inodes && cnt == Max(Blocks(m0.inodes[i].size), Blocks(off + |src|))
  {
    hide BytesWritten, Ok, Prefix;
  }

  /** The loop of writei after `tot` bytes. */
  ghost predicate Looping(m0: Img, m: Img, start: nat, i: nat, off: nat, tot: nat, src: seq<Byte>, cnt: nat,
                          before: set<nat>, logged: set<nat>, data: set<nat>, bms: set<nat>)
  {
    && off + |src| <= MAXFILE * BSIZE && i in m0.inodes && Progress(m0, m, start, i, off, tot, src, cnt)
    && Counted(before, logged, data, bms, Pointers(m, i), Span(off, tot), cnt - Blocks(m0.inodes[i].size) + NewPointer(m0, m, i))
  }

  lemma LoopStart(m: Img, start: nat, i: nat, off: nat, src: seq<Byte>, logged: set<nat>)
    requires Ok(m, start) && i in m.inodes && Prefix(m, i, Blocks(m.inodes[i].size))
    requires off <= m.inodes[i].size && off + |src| <= MAXFILE * BSIZE
    ensures Looping(m, m, start, i, off, 0, src, Blocks(m.inodes[i].size), logged, logged, {}, {})
  {
    ProgressStart(m, start, i, off, src);
  }

  lemma LoopReady(m0: Img, m: Img, start: nat, i: nat, off: nat, tot: nat, src: seq<Byte>, cnt: nat,
                  before: set<nat>, logged: set<nat>, data: set<nat>, bms: set<nat>)
    requires Looping(m0, m, start, i, off, tot, src, cnt, before, logged, data, bms) && tot < |src|
    ensures Progress(m0, m, start, i, off, tot, src, cnt) && off + tot < MAXFILE * BSIZE
  {
  }

  lemma LoopNext(m0: Img, m: Img, m': Img, start: nat, i: nat, off: nat, tot: nat, src: seq<Byte>, cnt: nat,
                 before: set<nat>, logged: set<nat>, logged': set<nat>, data: set<nat>, bms: set<nat>, b: nat, bm: set<nat>, k: nat)
    requires Looping(m0, m, start, i, off, tot, src, cnt, before, logged, data, bms) && tot < |src| && k == Piece(off, tot, |src|)
    requires Wrote(m0, m', start, i, off, tot + k, src, Max(cnt, (off + tot) / BSIZE + 1))
    requires logged' <= logged + {b} + bm + Pointers(m', i) && Pointers(m, i) <= Pointers(m', i)
    requires |bm| + NewPointer(m0, m, i) <= Max(cnt, (off + tot) / BSIZE + 1) - cnt + NewPointer(m0, m', i)
    ensures Looping(m0, m', start, i, off, tot + k, src, Max(cnt, (off + tot) / BSIZE + 1), before, logged', data + {b}, bms + bm)
  {
    var cnt0 := Blocks(m0.inodes[i].size);
    hide Progress, Wrote, Counted, Pointers, NewPointer, Span;
    ProgressNext(m0, m, m', start, i, off, tot, src, cnt, k);
    CountNext(before, logged, logged', data, bms, Pointers(m, i), Pointers(m', i), b, bm, Span(off, tot),
              cnt - cnt0 + NewPointer(m0, m, i), Max(cnt, (off + tot) / BSIZE + 1) - cnt0 + NewPointer(m0, m', i));
  }

  lemma LoopEnd(m0: Img, m: Img, start: nat, i: nat, off: nat, src: seq<Byte>, cnt: nat,
                before: set<nat>, logged: set<nat>, data: set<nat>, bms: set<nat>)
    requires Looping(m0, m, start, i, off, |src|, src, cnt, before, logged, data, bms)
    ensures cnt == Max(Blocks(m0.inodes[i].size), Blocks(off + |src|)) && Wrote(m0, m, start, i, off, |src|, src, cnt)
    ensures Counted(before, logged, data, bms, Pointers(m, i), Span(off, |src|), cnt - Blocks(m0.inodes[i].size) + 1)
  {
  }

  /** The next block of a write is one that the whole write needs. */
  lemma NextTaken(m0: Img, m: Img, start: nat, i: nat, off: nat, tot: nat, src: seq<Byte>, cnt: nat)
    requires Progress(m0, m, start, i, off, tot, src, cnt) && i in m0.inodes && tot < |src|
    ensures Taken(Max(cnt, (off + tot) / BSIZE + 1)) <= Taken(Max(Blocks(m0.inodes[i].size), Blocks(off + |src|)))
  {
    hide Wrote;
    TakenGrows(Max(cnt, (off + tot) / BSIZE + 1), Max(Blocks(m0.inodes[i].size), Blocks(off + |src|)));
  }

  lemma CostMax(size: nat, end: nat)
    ensures Cost(Max(size, end)) == Taken(Max(Blocks(size), Blocks(end)))
  {
  }

  /** writei's loop over the blocks. `data` and `bms` collect the data and bitmap blocks it logged. */
  method WriteBlocks(fs: Files, i: nat, off: nat, src: seq<Byte>) returns (ok: bool, ghost data: set<nat>, ghost bms: set<nat>)
    requires fs.Valid() && i in fs.inodes && Prefix(fs.M(), i, Blocks(fs.inodes[i].size))
    requires off <= fs.inodes[i].size && off + |src| <= MAXFILE * BSIZE
    modifies fs
    ensures ok ==> Covered(old(fs.M()), fs.M(), fs.start, fs.bmapstart, old(fs.logged), fs.logged)
    ensures ok ==> Wrote(old(fs.M()), fs.M(), fs.start, i, off, |src|, src, Max(Blocks(old(fs.inodes[i].size)), Blocks(off + |src|)))
    ensures ok ==> Counted(old(fs.logged), fs.logged, data, bms, Pointers(fs.M(), i), Span(off, |src|),
                           Max(Blocks(old(fs.inodes[i].size)), Blocks(off + |src|)) - Blocks(old(fs.inodes[i].size)) + 1)
    ensures !ok ==> forall c :: 0 <= c < |fs.used| ==> fs.used[c]
    ensures var e := Cost(Max(old(fs.inodes[i].size), off + |src|)) - Cost(old(fs.inodes[i].size));
            if ok then Unused(fs.used) == Unused(old(fs.used)) - e else Unused(old(fs.used)) < e
  {
    hide Looping, Progress, Piece, Wrote, Counted, Covered, Ok, Prefix, Pointers, Span, Blocks, Max, Min, NewPointer, Taken;
    ghost var m0, cnt, size := fs.M(), Blocks(fs.inodes[i].size), fs.inodes[i].size;
    CostMax(size, off + |src|);
    NoChange(m0, fs.start, fs.bmapstart, fs.logged);
    LoopStart(m0, fs.start, i, off, src, fs.logged);
    data, bms := {}, {};
    var tot, n := 0, |src|;
    while tot < n
      invariant tot <= n && Covered(m0, fs.M(), fs.start, fs.bmapstart, old(fs.logged), fs.logged)
      invariant Looping(m0, fs.M(), fs.start, i, off, tot, src, cnt, old(fs.logged), fs.logged, data, bms)
      invariant Unused(fs.used) == Unused(old(fs.used)) - (Taken(cnt) - Taken(Blocks(size)))
    {
      var p := off + tot;
      var k := Piece(off, tot, n);
      ghost var m, logged := fs.M(), fs.logged;
      LoopReady(m0, m, fs.start, i, off, tot, src, cnt, old(fs.logged), logged, data, bms);
      ProgressReady(m0, m, fs.start, i, off, tot, src, cnt);
      NextTaken(m0, m, fs.start, i, off, tot, src, cnt);
      var b, bm := WriteOne(fs, m0, i, p, src[tot..tot + k], off, tot, src, cnt);
      if b.None? {
        return false, data, bms;
      }
      CoveredTwice(m0, m, fs.M(), fs.start, fs.bmapstart, old(fs.logged), logged, fs.logged);
      LoopNext(m0, m, fs.M(), fs.start, i, off, tot, src, cnt, old(fs.logged), logged, fs.logged, data, bms, b.value, bm, k);
      cnt, data, bms := Max(cnt, p / BSIZE + 1), data + {b.value}, bms + bm;
      tot := tot + k;
    }
    LoopEnd(m0, fs.M(), fs.start, i, off, src, cnt, old(fs.logged), fs.logged, data, bms);
    ok := true;
  }

  /** After the loop and the new size. */
  lemma Written(m0: Img, m: Img, m': Img, start: nat, i: nat, off: nat, src: seq<Byte>, cnt: nat)
    requires Ok(m0, start) && NoHoles(m0) && Wrote(m0, m, start, i, off, |src|, src, cnt) && off <= m0.inodes[i].size
    requires cnt == Max(Blocks(m0.inodes[i].size), Blocks(off + |src|)) && m' == SetSize(m, i, Max(m0.inodes[i].size, off + |src|))
    ensures Ok(m', start) && Content(m', i) == Splice(Content(m0, i), off, src) && OthersKept(m0, m', i)
    ensures NoHoles(m')
    ensures forall j :: j in m0.inodes && j != i ==> Content(m', j) == Content(m0, j)
    ensures off + |src| <= m0.inodes[i].size ==> m.inodes == m0.inodes && m' == m
  {
    WroteContent(m0, m, m', start, i, off, src, cnt);
    NotGrown(m0, m, m', start, i, off, src, cnt);
    OthersWhole(m0, m', start, i);
    hide Wrote, Ok, Content, OthersKept, Prefix;
  }

  lemma KeysKept(m: Img, m': Img, i: nat)
    requires OthersKept(m, m', i)
    ensures m'.inodes.Keys == m.inodes.Keys
  {
  }

  /** The other files read as before, and have no holes either. */
  lemma OthersWhole(m0: Img, m': Img, start: nat, i: nat)
    requires Ok(m0, start) && NoHoles(m0) && OthersKept(m0, m', i)
    ensures m'.inodes.Keys == m0.inodes.Keys
    ensures forall j :: j in m0.inodes && j != i ==> Content(m', j) == Content(m0, j) && Prefix(m', j, Blocks(m'.inodes[j].size))
  {
    hide Ok, Content, Prefix, Ref;
    forall j | j in m0.inodes && j != i ensures Content(m', j) == Content(m0, j) && Prefix(m', j, Blocks(m'.inodes[j].size)) {
      OthersRead(m0, m', start, i, j);
      OtherPrefix(m0, m', i, j);
    }
  }

  lemma NotGrown(m0: Img, m: Img, m': Img, start: nat, i: nat, off: nat, src: seq<Byte>, cnt: nat)
    requires Ok(m0, start) && NoHoles(m0) && Wrote(m0, m, start, i, off, |src|, src, cnt) && off <= m0.inodes[i].size
    requires cnt == Max(Blocks(m0.inodes[i].size), Blocks(off + |src|)) && m' == SetSize(m, i, Max(m0.inodes[i].size, off + |src|))
    ensures off + |src| <= m0.inodes[i].size ==> m.inodes == m0.inodes && m' == m
  {
    if off + |src| <= m0.inodes[i].size {
      assert Prefix(m0, i, Blocks(m0.inodes[i].size));
      hide BytesWritten, Ref, Prefix;
      AddrsSame(m0, m, i, cnt);
      assert m.inodes == m0.inodes;
      assert m'.inodes == m.inodes;
    }
  }

  lemma OnePointer(m: Img, i: nat)
    ensures |Pointers(m, i)| <= 1
  {
  }

  lemma OtherPrefix(m: Img, m': Img, i: nat, j: nat)
    requires OthersKept(m, m', i) && j in m.inodes && j != i && NoHoles(m)
    ensures Prefix(m', j, Blocks(m'.inodes[j].size))
  {
    assert Prefix(m, j, Blocks(m.inodes[j].size));
    hide Ref;
  }

  /** The end of writei: the new size, and iupdate. */
  method Resize(fs: Files, i: nat, size: nat, ghost m0: Img, ghost before: set<nat>)
    requires i in fs.inodes && size <= MAXFILE * BSIZE && Covered(m0, fs.M(), fs.inodestart, fs.bmapstart, before, fs.logged)
    requires var m := SetSize(fs.M(), i, size);
             Ok(m, fs.start) && NoHoles(m) && Filed(m, fs.start, fs.bmapstart, fs.inodestart, {i})
    modifies fs
    ensures Sound(fs) && fs.inodes == SetSize(old(fs.M()), i, size).inodes
    ensures forall j :: j in fs.inodes ==> Content(fs.M(), j) == Content(SetSize(old(fs.M()), i, size), j)
    ensures fs.logged == old(fs.logged) + {IBlock(fs.inodestart, i)} && fs.used == old(fs.used)
    ensures Covered(m0, fs.M(), fs.inodestart, fs.bmapstart, before, fs.logged)
  {
    hide Ok, Content, NoHoles, Covered, Packable;
    ghost var m, b := SetSize(fs.M(), i, size), IBlock(fs.inodestart, i);
    CoveredSize(m0, fs.M(), m, fs.inodestart, fs.inodestart, fs.bmapstart, before, fs.logged);
    fs.inodes := fs.inodes[i := fs.inodes[i].(size := size)];
    assert fs.M() == m;
    PackableInode(m, fs.start, i);
    fs.Iupdate(i);
    FiledPut(m, fs.M(), fs.start, fs.bmapstart, fs.inodestart, i);
    WriteBelow(m, fs.M(), fs.start, b, fs.disk[b]);
    CoveredWrite(m0, m, fs.M(), fs.inodestart, fs.bmapstart, before, old(fs.logged), b);
  }

  /**
   writei of a file. None stands for the panic of balloc. On success the contents are spliced, every
   other file is as before and the image is sound again. `w` collects what it logged.
   */
  method Writei(fs: Files, i: nat, off: nat, src: seq<Byte>) returns (r: Option<int>, ghost w: set<nat>)
    requires Sound(fs) && i in fs.inodes && off < 0x1_0000_0000 && |src| < 0x1_0000_0000
    modifies fs
    ensures r.None? ==> forall c :: 0 <= c < |fs.used| ==> fs.used[c]
    ensures var size := old(fs.inodes[i].size);
            var e := Cost(Max(size, off + |src|)) - Cost(size);
            && (r.None? <==> off <= size && off + |src| <= MAXFILE * BSIZE && Unused(old(fs.used)) < e)
            && (r.Some? ==> Unused(fs.used) == Unused(old(fs.used)) - if r.value == -1 then 0 else e)
    ensures r.Some? ==> Sound(fs) && fs.inodes.Keys == old(fs.inodes.Keys)
    ensures r.Some? ==> (r.value == -1 <==> off > old(fs.inodes[i].size) || off + |src| > MAXFILE * BSIZE)
    ensures r == Some(-1) ==> fs.M() == old(fs.M()) && fs.logged == old(fs.logged)
    ensures r.Some? && r.value != -1 ==> r.value == |src| && Content(fs.M(), i) == Splice(old(Content(fs.M(), i)), off, src)
    ensures r.Some? ==> forall j :: j in fs.inodes && j != i ==> Content(fs.M(), j) == old(Content(fs.M(), j))
    ensures r.Some? ==> Covered(old(fs.M()), fs.M(), fs.inodestart, fs.bmapstart, old(fs.logged), fs.logged)
    ensures r.Some? && r.value != -1 ==> fs.logged <= old(fs.logged) + w
    ensures r.Some? && r.value != -1 ==> |w| <= Span(off, |src|) + Grows(old(fs.inodes[i].size), off + |src|) + 3
  {
    hide Ok, Wrote, Content, Prefix, Pointers, Span, Covered, NoHoles, OthersKept, Filed, Cost, Unused;
    w := {};
    NoChange(fs.M(), fs.inodestart, fs.bmapstart, fs.logged);
    FiledBound(fs.M(), fs.start, fs.bmapstart, fs.inodestart, i);
    if off > fs.inodes[i].size || (off + |src|) % 0x1_0000_0000 < off {
      return Some(-1), w;
    }
    if off + |src| > MAXFILE * BSIZE {
      return Some(-1), w;
    }
    ghost var m0, size := fs.M(), fs.inodes[i].size;
    PrefixOf(m0, i);
    var ok, data, bms := WriteBlocks(fs, i, off, src);
    if !ok {
      return None, w;
    }
    ghost var m := fs.M();
    w := data + bms + Pointers(m, i);
    WroteFacts(m0, m, fs.start, i, off, |src|, src, Max(Blocks(size), Blocks(off + |src|)));
    Written(m0, m, SetSize(m, i, Max(size, off + |src|)), fs.start, i, off, src, Max(Blocks(size), Blocks(off + |src|)));
    assert |Pointers(m, i)| <= 1 by { OnePointer(m, i); }
    ghost var m' := SetSize(m, i, Max(size, off + |src|));
    KeysKept(m0, m', i);
    CoveredSize(m0, m, m, fs.inodestart, fs.start, fs.bmapstart, old(fs.logged), fs.logged);
    CoveredSize(m0, m, m', fs.inodestart, fs.start, fs.bmapstart, old(fs.logged), fs.logged);
    FiledBeside(m0, m', fs.start, fs.bmapstart, fs.inodestart, old(fs.logged), fs.logged, i);
    if |src| > 0 && off + |src| > fs.inodes[i].size {
      Resize(fs, i, off + |src|, m0, old(fs.logged));
      w := w + {IBlock(fs.inodestart, i)};
    } else {
      assert fs.M() == m';
    }
    r := Some(|src|);
  }

  const CHUNK: nat := 1536

  /**
   A chunk of filewrite stays within the log reservation of one operation. It may touch four data
   blocks only if it starts inside a block, and that block is then already there.
   */
  lemma ChunkFits(size: nat, off: nat, n: nat)
    requires off <= size && n <= CHUNK
    ensures Span(off, n) + Grows(size, off + n) + 3 <= MAXOPBLOCKS
  {
  }

  /** Writing one piece after another is writing both. */
  lemma SpliceTwice(c: seq<Byte>, off: nat, a: seq<Byte>, b: seq<Byte>)
    requires off <= |c|
    ensures off + |a| <= |Splice(c, off, a)|
    ensures Splice(Splice(c, off, a), off + |a|, b) == Splice(c, off, a + b)
  {
  }

  lemma NextPiece(c: seq<Byte>, off: nat, src: seq<Byte>, n: nat, k: nat)
    requires off <= |c| && n + k <= |src|
    ensures off + n <= |Splice(c, off, src[..n])| && off + n + k <= |Splice(c, off, src[..n + k])|
    ensures Splice(Splice(c, off, src[..n]), off + n, src[n..n + k]) == Splice(c, off, src[..n + k])
  {
    SpliceTwice(c, off, src[..n], src[n..n + k]);
    assert src[..n] + src[n..n + k] == src[..n + k];
  }

  lemma SizeBound(m: Img, i: nat)
    requires NoHoles(m) && i in m.inodes
    ensures m.inodes[i].size <= MAXFILE * BSIZE && |Content(m, i)| == m.inodes[i].size
  {
    assert Prefix(m, i, Blocks(m.inodes[i].size));
  }

  lemma Start(c: seq<Byte>, off: nat, src: seq<Byte>)
    ensures off <= |c| ==> Splice(c, off, src[..0]) == c
  {
  }

  /** An open file: its inode and its offset. */
  class OpenFile {
    const inum: nat
    var off: nat

    constructor (i: nat)
      ensures inum == i && off == 0
    {
      inum, off := i, 0;
    }
  }

  /** A sound image in which file i holds the first n bytes of `src` from `off` on, the rest as in m0. */
  ghost predicate Holding(m0: Img, m: Img, start: nat, bmapstart: nat, inodestart: nat, i: nat, off: nat, src: seq<Byte>, n: nat)
  {
    && Ok(m, start) && NoHoles(m) && Filed(m, start, bmapstart, inodestart, {})
    && m.inodes.Keys == m0.inodes.Keys && i in m0.inodes && n <= |src|
    && (forall j :: j in m0.inodes && j != i ==> Content(m, j) == Content(m0, j))
    && (if off <= m0.inodes[i].size then Content(m, i) == Splice(Content(m0, i), off, src[..n]) else n == 0 && m == m0)
  }

  lemma HoldingStart(m: Img, start: nat, bmapstart: nat, inodestart: nat, i: nat, off: nat, src: seq<Byte>)
    requires Ok(m, start) && NoHoles(m) && Filed(m, start, bmapstart, inodestart, {}) && i in m.inodes
    ensures Holding(m, m, start, bmapstart, inodestart, i, off, src, 0)
  {
    hide Ok, Content, NoHoles, Filed, Splice;
    Start(Content(m, i), off, src);
  }

  lemma HoldingNext(m0: Img, m: Img, m': Img, start: nat, bmapstart: nat, inodestart: nat, i: nat, off: nat, src: seq<Byte>, n: nat, k: nat)
    requires Holding(m0, m, start, bmapstart, inodestart, i, off, src, n) && n + k <= |src| && off <= m0.inodes[i].size
    requires Ok(m', start) && NoHoles(m') && Filed(m', start, bmapstart, inodestart, {}) && m'.inodes.Keys == m.inodes.Keys
    requires forall j :: j in m.inodes && j != i ==> Content(m', j) == Content(m, j)
    requires off + n <= m.inodes[i].size && Content(m', i) == Splice(Content(m, i), off + n, src[n..n + k])
    ensures Holding(m0, m', start, bmapstart, inodestart, i, off, src, n + k)
  {
    hide Ok, Content, NoHoles, Filed, Splice;
    NextPiece(Content(m0, i), off, src, n, k);
  }

  /** The file is long enough for the next chunk. */
  lemma HoldingSize(m0: Img, m: Img, start: nat, bmapstart: nat, inodestart: nat, i: nat, off: nat, src: seq<Byte>, n: nat)
    requires Holding(m0, m, start, bmapstart, inodestart, i, off, src, n)
    ensures i in m.inodes && m.inodes[i].size <= MAXFILE * BSIZE
    ensures m.inodes[i].size == if off <= m0.inodes[i].size then Max(m0.inodes[i].size, off + n) else m0.inodes[i].size
  {
    hide Ok, NoHoles, Filed;
    SizeBound(m, i);
  }

  /**
   One round of filewrite's loop, an operation of its own: begin_op empties `logged`. What was logged
   covers what changed and fits the log reservation of one operation. None stands for the panic of balloc.
   */
  method WriteChunk(fs: Files, f: OpenFile, src: seq<Byte>, n: nat, ghost m0: Img, ghost off: nat) returns (r: Option<int>)
    requires n < |src| < 0x8000_0000 && f.off == off + n && off < 0x1_0000_0000
    requires Holding(m0, fs.M(), fs.start, fs.bmapstart, fs.inodestart, f.inum, off, src, n)
    modifies fs, f
    ensures r.Some? ==> Covered(old(fs.M()), fs.M(), fs.inodestart, fs.bmapstart, {}, fs.logged) && |fs.logged| <= MAXOPBLOCKS
    ensures r.None? ==> f.off == old(f.off)
    ensures r.Some? && r.value != -1 ==> r.value == Min(|src| - n, CHUNK)
    ensures r.Some? ==> var k := if r.value == -1 then 0 else r.value;
                        f.off == off + n + k && Holding(m0, fs.M(), fs.start, fs.bmapstart, fs.inodestart, f.inum, off, src, n + k)
    ensures r == Some(-1) ==> fs.M() == old(fs.M()) && (off > m0.inodes[f.inum].size || off + n + Min(|src| - n, CHUNK) > MAXFILE * BSIZE)
    ensures r.Some? && r.value != -1 ==> off <= m0.inodes[f.inum].size && f.off <= MAXFILE * BSIZE
    ensures Spends(m0.inodes[f.inum].size, off, n, n + Min(|src| - n, CHUNK), Unused(old(fs.used)), Unused(fs.used), r)
  {
    hide Ok, Content, NoHoles, Filed, Splice, Span, Grows, Covered, Cost, Unused;
    var n1 := Min(|src| - n, CHUNK);
    fs.logged := {};
    ghost var m, i := fs.M(), f.inum;
    HoldingSize(m0, m, fs.start, fs.bmapstart, fs.inodestart, i, off, src, n);
    ghost var w;
    r, w := Writei(fs, f.inum, f.off, src[n..n + n1]);
    if r.Some? && r.value != -1 {
      ChunkFits(m.inodes[i].size, f.off, n1);
      SubsetSize(fs.logged, w);
      HoldingNext(m0, m, fs.M(), fs.start, fs.bmapstart, fs.inodestart, i, off, src, n, n1);
      f.off := f.off + r.value;
    }
  }

  /** A chunk that fits takes the blocks it needs, or there are too few of them. */
  ghost predicate Spends(size: nat, off: nat, n: nat, n': nat, unused: nat, unused': nat, r: Option<int>)
  {
    var e := Cost(Max(size, off + n')) - Cost(Max(size, off + n));
    && (r.None? <==> off <= size && off + n' <= MAXFILE * BSIZE && unused < e)
    && (r.Some? && r.value == -1 ==> unused' == unused)
    && (r.Some? && r.value != -1 ==> unused' == unused - e)
  }

  /** The bytes in the chunks before the one that would pass the largest file. */
  function Fitting(off: nat, n: nat): nat
  {
    if off + n <= MAXFILE * BSIZE then n else if off > MAXFILE * BSIZE then 0 else (MAXFILE * BSIZE - off) / CHUNK * CHUNK
  }

  lemma FittingNext(off: nat, total: nat, k: nat)
    requires k * CHUNK < total
    ensures var n, n1 := k * CHUNK, Min(total - k * CHUNK, CHUNK);
            && (off + n + n1 <= MAXFILE * BSIZE ==> n + n1 <= Fitting(off, total))
            && (off + n <= MAXFILE * BSIZE < off + n + n1 ==> Fitting(off, total) == n)
  {
  }

  /** After `n` bytes, so many blocks are left of `before`. */
  ghost predicate Spent(size: nat, off: nat, n: nat, before: nat, now: nat)
  {
    off <= size ==> now == before - (Cost(Max(size, off + n)) - Cost(size))
  }

  lemma SpentNothing(size: nat, off: nat, before: nat)
    ensures Spent(size, off, 0, before, before)
  {
  }

  /** What the chunks up to one of them need is no more than what all of them need. */
  lemma SpendsNext(size: nat, off: nat, n: nat, n': nat, total: nat, before: nat, now: nat, after: nat, r: Option<int>)
    requires n <= n' && Spends(size, off, n, n', now, after, r) && Spent(size, off, n, before, now)
    requires off + n' <= MAXFILE * BSIZE ==> n' <= total
    ensures r.None? ==> off <= size && before < Cost(Max(size, off + total)) - Cost(size)
    ensures r.Some? ==> Spent(size, off, if r.value == -1 then n else n', before, after)
  {
    hide Cost;
    if off <= size && off + n' <= MAXFILE * BSIZE {
      CostGrows(Max(size, off + n'), Max(size, off + total));
    }
  }

  lemma FittingAll(off: nat, total: nat)
    ensures off + total <= MAXFILE * BSIZE ==> Fitting(off, total) == total
  {
  }

  /** The images between operations, and what each operation logged: what it changed, and no more than the log allows. */
  ghost predicate Chunked(m0: Img, bmapstart: nat, inodestart: nat, snaps: seq<Img>, ops: seq<set<nat>>)
  {
    && |snaps| == |ops| + 1 && snaps[0] == m0
    && forall k :: 0 <= k < |ops| ==> |ops[k]| <= MAXOPBLOCKS && Covered(snaps[k], snaps[k + 1], inodestart, bmapstart, {}, ops[k])
  }

  /** After k operations the first k chunks are in place, of the `total` bytes written. */
  ghost predicate Reported(m0: Img, start: nat, bmapstart: nat, inodestart: nat, i: nat, off: nat, src: seq<Byte>, total: nat,
                           snaps: seq<Img>, ops: seq<set<nat>>)
  {
    && Chunked(m0, bmapstart, inodestart, snaps, ops) && total <= |src|
    && forall k :: 0 <= k < |snaps| ==> Holding(m0, snaps[k], start, bmapstart, inodestart, i, off, src, Min(k * CHUNK, total))
  }

  lemma ReportedStart(m0: Img, start: nat, bmapstart: nat, inodestart: nat, i: nat, off: nat, src: seq<Byte>)
    requires Holding(m0, m0, start, bmapstart, inodestart, i, off, src, 0)
    ensures Reported(m0, start, bmapstart, inodestart, i, off, src, 0, [m0], [])
  {
    hide Holding;
  }

  lemma ReportedLast(m0: Img, start: nat, bmapstart: nat, inodestart: nat, i: nat, off: nat, src: seq<Byte>, n: nat,
                     snaps: seq<Img>, ops: seq<set<nat>>)
    requires Reported(m0, start, bmapstart, inodestart, i, off, src, n, snaps, ops) && n == |ops| * CHUNK
    ensures Holding(m0, snaps[|ops|], start, bmapstart, inodestart, i, off, src, n)
  {
    hide Holding, Covered;
    assert Holding(m0, snaps[|ops|], start, bmapstart, inodestart, i, off, src, Min(|ops| * CHUNK, n));
  }

  lemma ReportedNext(m0: Img, start: nat, bmapstart: nat, inodestart: nat, i: nat, off: nat, src: seq<Byte>, n: nat, k: nat,
                     snaps: seq<Img>, ops: seq<set<nat>>, m: Img, logged: set<nat>)
    requires Reported(m0, start, bmapstart, inodestart, i, off, src, n, snaps, ops) && n == |ops| * CHUNK && k <= CHUNK && n + k <= |src|
    requires Covered(snaps[|ops|], m, inodestart, bmapstart, {}, logged) && |logged| <= MAXOPBLOCKS
    requires Holding(m0, m, start, bmapstart, inodestart, i, off, src, n + k)
    ensures Reported(m0, start, bmapstart, inodestart, i, off, src, n + k, snaps + [m], ops + [logged])
  {
    hide Holding, Covered;
    var snaps', ops' := snaps + [m], ops + [logged];
    forall j | 0 <= j < |snaps'| ensures Holding(m0, snaps'[j], start, bmapstart, inodestart, i, off, src, Min(j * CHUNK, n + k)) {
      if j < |snaps| {
        assert Holding(m0, snaps[j], start, bmapstart, inodestart, i, off, src, Min(j * CHUNK, n));
      }
    }
  }

  /**
   filewrite on an inode. `ops` lists what each operation logged, `snaps` the images between them.
   None stands for the panic of balloc; on -1 the file holds the chunks before the one that did not fit.
   */
  method Filewrite(fs: Files, f: OpenFile, src: seq<Byte>) returns (r: Option<int>, ghost ops: seq<set<nat>>, ghost snaps: seq<Img>)
    requires Sound(fs) && f.inum in fs.inodes && f.off < 0x1_0000_0000 && |src| < 0x8000_0000
    modifies fs, f
    ensures old(f.off) <= f.off <= old(f.off) + |src|
    ensures Reported(old(fs.M()), fs.start, fs.bmapstart, fs.inodestart, f.inum, old(f.off), src, f.off - old(f.off), snaps, ops)
    ensures r.Some? ==> fs.M() == snaps[|ops|]
    ensures r == Some(|src|) ==> f.off == old(f.off) + |src|
    ensures r.Some? ==> r == Some(|src|) || r == Some(-1)
    ensures r.Some? ==> (r == Some(-1) <==>
              src != [] && (old(f.off) > old(fs.inodes[f.inum].size) || old(f.off) + |src| > MAXFILE * BSIZE))
    ensures var size, end := old(fs.inodes[f.inum].size), old(f.off) + Fitting(old(f.off), |src|);
            && (r.None? <==> old(f.off) <= size && Unused(old(fs.used)) < Cost(Max(size, end)) - Cost(size))
            && (r.Some? ==> f.off == if old(f.off) <= size then end else old(f.off))
  {
    hide Ok, Content, NoHoles, Splice, Holding, Covered, Cost, Fitting, Spends, Reported, Filed, Unused;
    ghost var m0, off, i, size := fs.M(), f.off, f.inum, fs.inodes[f.inum].size;
    ghost var total := Fitting(off, |src|);
    FittingAll(off, |src|);
    SizeBound(m0, i);
    SpentNothing(size, off, Unused(fs.used));
    ops, snaps := [], [m0];
    HoldingStart(m0, fs.start, fs.bmapstart, fs.inodestart, i, off, src);
    ReportedStart(m0, fs.start, fs.bmapstart, fs.inodestart, i, off, src);
    var n := 0;
    while n < |src|
      invariant n <= |src| && f.off == off + n && n <= |ops| * CHUNK && (n < |src| ==> n == |ops| * CHUNK)
      invariant n > 0 ==> off <= m0.inodes[i].size && f.off <= MAXFILE * BSIZE && n <= total
      invariant Spent(size, off, n, Unused(old(fs.used)), Unused(fs.used))
      invariant Reported(m0, fs.start, fs.bmapstart, fs.inodestart, i, off, src, n, snaps, ops)
      invariant |snaps| == |ops| + 1 && fs.M() == snaps[|ops|]
    {
      FittingNext(off, |src|, |ops|);
      ReportedLast(m0, fs.start, fs.bmapstart, fs.inodestart, i, off, src, n, snaps, ops);
      ghost var now := Unused(fs.used);
      r := WriteChunk(fs, f, src, n, m0, off);
      SpendsNext(size, off, n, n + Min(|src| - n, CHUNK), total, Unused(old(fs.used)), now, Unused(fs.used), r);
      if r.None? {
        return;
      }
      ReportedNext(m0, fs.start, fs.bmapstart, fs.inodestart, i, off, src, n, if r.value < 0 then 0 else r.value, snaps, ops, fs.M(), fs.logged);
      ops, snaps := ops + [fs.logged], snaps + [fs.M()];
      if r.value < 0 {
        return;
      }
      n := n + r.value;
    }
    r := Some(|src|);
  }
}
