/** The byte-level meaning of readi and writei (fs/sfs/fs.c:465-527), step by step. */
module FileSpec {
  import opened Common
  import opened FsImage
  import opened FileSystem

  /** `src` over the bytes from `off` on: replaced within the file, appended beyond it. */
  function Splice(c: seq<Byte>, off: nat, src: seq<Byte>): seq<Byte>
    requires off <= |c|
  {
    c[..off] + src + (if off + |src| < |c| then c[off + |src|..] else [])
  }

  /** Byte by byte: the new bytes where they go, the old ones elsewhere, and nothing beyond the longer end. */
  lemma SpliceReads(c: seq<Byte>, off: nat, src: seq<Byte>)
    requires off <= |c|
    ensures |Splice(c, off, src)| == if off + |src| < |c| then |c| else off + |src|
    ensures forall p :: 0 <= p < |src| ==> Splice(c, off, src)[off + p] == src[p]
    ensures forall p :: 0 <= p < |c| && !(off <= p < off + |src|) ==> Splice(c, off, src)[p] == c[p]
  {
  }

  /** The part of one block that file bytes [p, p+k) are in. */
  lemma BlockSlice(m: Img, start: nat, i: nat, p: nat, k: nat)
    requires Ok(m, start) && i in m.inodes && Prefix(m, i, Blocks(m.inodes[i].size))
    requires p % BSIZE + k <= BSIZE && p + k <= m.inodes[i].size && 0 < k
    ensures p / BSIZE < MAXFILE && 0 < Ref(m, FileSlot(i, p / BSIZE)) < |m.disk|
    ensures Content(m, i)[p..p + k] == m.disk[Ref(m, FileSlot(i, p / BSIZE))][p % BSIZE..p % BSIZE + k]
  {
    var s := FileSlot(i, p / BSIZE);
    assert p / BSIZE < Blocks(m.inodes[i].size);
    assert SlotOk(m, s) && BlockOk(m, start, Ref(m, s));
    var a, b := Content(m, i)[p..p + k], m.disk[Ref(m, s)][p % BSIZE..p % BSIZE + k];
    forall j | 0 <= j < k ensures a[j] == b[j] {
      assert (p + j) / BSIZE == p / BSIZE && (p + j) % BSIZE == p % BSIZE + j;
    }
  }

  /** Bytes [off, off+tot) of file i are those of `src`, the others of its old bytes are as before. */
  ghost predicate BytesWritten(m0: Img, m: Img, i: nat, off: nat, tot: nat, src: seq<Byte>)
    requires i in m0.inodes && tot <= |src|
  {
    && (forall p: nat {:trigger ByteAt(m, i, p)} :: off <= p < off + tot ==> ByteAt(m, i, p) == src[p - off])
    && (forall p: nat {:trigger ByteAt(m, i, p)} :: p < m0.inodes[i].size && !(off <= p < off + tot) ==> ByteAt(m, i, p) == ByteAt(m0, i, p))
  }

  /** Bytes beyond the end, within the mapped blocks: as before, and zero in new blocks. */
  ghost predicate Padded(m0: Img, m: Img, i: nat, end: nat, cnt: nat)
    requires i in m0.inodes
  {
    forall p: nat {:trigger ByteAt(m, i, p)} :: m0.inodes[i].size <= p && end <= p < cnt * BSIZE ==>
      ByteAt(m, i, p) == if p < Blocks(m0.inodes[i].size) * BSIZE then ByteAt(m0, i, p) else 0
  }

  /** The rest of the image while file i is written. */
  ghost predicate Beside(m0: Img, m: Img, i: nat)
  {
    && OthersKept(m0, m, i) && i in m0.inodes && m.inodes[i].size == m0.inodes[i].size
    && (forall b :: b in m0.owner ==> b in m.owner && m.owner[b] == m0.owner[b])
    && (forall t :: Ref(m0, t) != 0 ==> Ref(m, t) == Ref(m0, t))
  }

  /** writei after `tot` bytes, with `cnt` blocks mapped. */
  ghost predicate Wrote(m0: Img, m: Img, start: nat, i: nat, off: nat, tot: nat, src: seq<Byte>, cnt: nat)
  {
    && Ok(m, start) && Beside(m0, m, i) && Prefix(m, i, cnt)
    && tot <= |src| && BytesWritten(m0, m, i, off, tot, src)
    && m0.inodes[i].size <= cnt * BSIZE && off + tot <= cnt * BSIZE && Padded(m0, m, i, off + tot, cnt)
  }

  lemma WroteNothing(m: Img, start: nat, i: nat, off: nat, src: seq<Byte>)
    requires Ok(m, start) && i in m.inodes && Prefix(m, i, Blocks(m.inodes[i].size)) && off <= m.inodes[i].size
    ensures Wrote(m, m, start, i, off, 0, src, Blocks(m.inodes[i].size))
  {
  }

  lemma BmapBytes(m: Img, m1: Img, start: nat, i: nat, bn: nat, cnt: nat, p: nat)
    requires Ok(m, start) && Prefix(m, i, cnt) && BmapTo(m, m1, i, bn) && p < cnt * BSIZE
    ensures ByteAt(m1, i, p) == ByteAt(m, i, p)
  {
    var s := FileSlot(i, p / BSIZE);
    assert p / BSIZE < cnt;
    assert SlotOk(m, s) && BlockOk(m, start, Ref(m, s));
  }

  lemma BmapZeroes(m: Img, m1: Img, i: nat, bn: nat, cnt: nat, p: nat)
    requires Prefix(m, i, cnt) && BmapTo(m, m1, i, bn) && cnt <= p / BSIZE == bn < MAXFILE
    ensures ByteAt(m1, i, p) == 0
  {
    assert Ref(m, FileSlot(i, bn)) == 0;
  }

  lemma BmapPrefix(m: Img, m1: Img, i: nat, bn: nat, cnt: nat)
    requires Prefix(m, i, cnt) && BmapTo(m, m1, i, bn) && bn <= cnt && bn < MAXFILE
    ensures Prefix(m1, i, Max(cnt, bn + 1))
  {
    hide Ref;
    forall k: nat | k < MAXFILE ensures Ref(m1, FileSlot(i, k)) != 0 <==> k < Max(cnt, bn + 1) {
      assert Ref(m, FileSlot(i, k)) != 0 <==> k < cnt;
    }
  }

  lemma BmapStep(m0: Img, m: Img, m1: Img, start: nat, i: nat, off: nat, tot: nat, src: seq<Byte>, cnt: nat, bn: nat)
    requires Wrote(m0, m, start, i, off, tot, src, cnt) && Ok(m1, start) && BmapTo(m, m1, i, bn) && bn <= cnt && bn < MAXFILE
    ensures Wrote(m0, m1, start, i, off, tot, src, Max(cnt, bn + 1))
  {
    BmapPrefix(m, m1, i, bn, cnt);
    BmapBeside(m0, m, m1, i, bn);
    forall p: nat | p < cnt * BSIZE ensures ByteAt(m1, i, p) == ByteAt(m, i, p) {
      BmapBytes(m, m1, start, i, bn, cnt, p);
    }
    forall p: nat | cnt * BSIZE <= p < Max(cnt, bn + 1) * BSIZE ensures ByteAt(m1, i, p) == 0 {
      BmapZeroes(m, m1, i, bn, cnt, p);
    }
    hide Ref, ByteAt, Prefix, Ok, BmapTo, Beside, BytesWritten, Padded;
    BmapWritten(m0, m, m1, i, off, tot, src, cnt, Max(cnt, bn + 1));
  }

  lemma BmapBeside(m0: Img, m: Img, m1: Img, i: nat, bn: nat)
    requires Beside(m0, m, i) && BmapTo(m, m1, i, bn)
    ensures Beside(m0, m1, i)
  {
    hide Ref;
  }

  lemma BmapWritten(m0: Img, m: Img, m1: Img, i: nat, off: nat, tot: nat, src: seq<Byte>, cnt: nat, cnt': nat)
    requires i in m0.inodes && tot <= |src| && m0.inodes[i].size <= cnt * BSIZE && off + tot <= cnt * BSIZE && cnt <= cnt'
    requires BytesWritten(m0, m, i, off, tot, src) && Padded(m0, m, i, off + tot, cnt)
    requires forall p: nat :: p < cnt * BSIZE ==> ByteAt(m1, i, p) == ByteAt(m, i, p)
    requires forall p: nat :: cnt * BSIZE <= p < cnt' * BSIZE ==> ByteAt(m1, i, p) == 0
    ensures BytesWritten(m0, m1, i, off, tot, src) && Padded(m0, m1, i, off + tot, cnt')
  {
    hide Ref, ByteAt;
  }

  /** memmove into a block. */
  function Patch(blk: Block, o: nat, s: seq<Byte>): Block
    requires o + |s| <= 512
  {
    blk[..o] + s + blk[o + |s|..]
  }

  lemma PatchBytes(m: Img, m': Img, start: nat, i: nat, off: nat, s: seq<Byte>, p: nat, cnt: nat)
    requires Ok(m, start) && Prefix(m, i, cnt) && off / BSIZE < cnt && p < cnt * BSIZE && off % BSIZE + |s| <= BSIZE
    requires 0 < Ref(m, FileSlot(i, off / BSIZE)) < |m.disk|
    requires m' == m.(disk := m.disk[Ref(m, FileSlot(i, off / BSIZE)) := Patch(m.disk[Ref(m, FileSlot(i, off / BSIZE))], off % BSIZE, s)])
    requires forall t :: Ref(m', t) == Ref(m, t)
    ensures ByteAt(m', i, p) == if off <= p < off + |s| then s[p - off] else ByteAt(m, i, p)
  {
    hide Ref;
    var t := FileSlot(i, p / BSIZE);
    assert p / BSIZE < cnt;
    assert SlotOk(m, t) && SlotOk(m, FileSlot(i, off / BSIZE));
    assert Ref(m, t) != 0;
    if Ref(m, t) == Ref(m, FileSlot(i, off / BSIZE)) {
      assert t == FileSlot(i, off / BSIZE);
      assert p / BSIZE == off / BSIZE;
    }
  }

  lemma PatchStep(m0: Img, m: Img, m': Img, start: nat, i: nat, off: nat, tot: nat, src: seq<Byte>, cnt: nat, k: nat)
    requires Wrote(m0, m, start, i, off, tot, src, cnt) && tot + k <= |src| && (off + tot) % BSIZE + k <= BSIZE && 0 < k
    requires (off + tot) / BSIZE < cnt && 0 < Ref(m, FileSlot(i, (off + tot) / BSIZE)) < |m.disk|
    requires var b := Ref(m, FileSlot(i, (off + tot) / BSIZE));
             m' == m.(disk := m.disk[b := Patch(m.disk[b], (off + tot) % BSIZE, src[tot..tot + k])])
    ensures Wrote(m0, m', start, i, off, tot + k, src, cnt)
  {
    var s := FileSlot(i, (off + tot) / BSIZE);
    var b := Ref(m, s);
    assert SlotOk(m, s);
    WriteOk(m, m', start, b, m'.disk[b]);
    forall p: nat | p < cnt * BSIZE
      ensures ByteAt(m', i, p) == if off + tot <= p < off + tot + k then src[p - off] else ByteAt(m, i, p)
    {
      PatchBytes(m, m', start, i, off + tot, src[tot..tot + k], p, cnt);
    }
    PatchBeside(m0, m, m', i, cnt);
    hide Ref, ByteAt, Ok, Prefix, Beside, BytesWritten, Padded;
    PatchWritten(m0, m, m', i, off, tot, src, cnt, k);
  }

  lemma PatchBeside(m0: Img, m: Img, m': Img, i: nat, cnt: nat)
    requires Beside(m0, m, i) && Prefix(m, i, cnt) && m' == m.(disk := m'.disk) && forall t :: Ref(m', t) == Ref(m, t)
    requires OthersKept(m, m', i)
    ensures Beside(m0, m', i) && Prefix(m', i, cnt)
  {
    hide Ref;
  }

  lemma PatchWritten(m0: Img, m: Img, m': Img, i: nat, off: nat, tot: nat, src: seq<Byte>, cnt: nat, k: nat)
    requires i in m0.inodes && tot + k <= |src| && m0.inodes[i].size <= cnt * BSIZE && off + tot <= cnt * BSIZE
    requires BytesWritten(m0, m, i, off, tot, src) && Padded(m0, m, i, off + tot, cnt)
    requires forall p: nat :: p < cnt * BSIZE ==>
               ByteAt(m', i, p) == if off + tot <= p < off + tot + k then src[p - off] else ByteAt(m, i, p)
    requires off + tot + k <= cnt * BSIZE
    ensures BytesWritten(m0, m', i, off, tot + k, src) && Padded(m0, m', i, off + tot + k, cnt)
  {
    hide Ref, ByteAt;
  }

  /** At the end, the contents are the splice. */
  lemma WroteContent(m0: Img, m: Img, m': Img, start: nat, i: nat, off: nat, src: seq<Byte>, cnt: nat)
    requires Wrote(m0, m, start, i, off, |src|, src, cnt) && off <= m0.inodes[i].size
    requires m' == SetSize(m, i, Max(m0.inodes[i].size, off + |src|))
    ensures Ok(m', start) && Content(m', i) == Splice(Content(m0, i), off, src) && Beside(m0, m, i)
    ensures OthersKept(m0, m', i) && Prefix(m', i, cnt)
  {
    SetSizeOk(m, start, i, Max(m0.inodes[i].size, off + |src|));
    hide Ref, Ok, Prefix;
    var c, d := Content(m', i), Splice(Content(m0, i), off, src);
    assert |c| == |d|;
    forall p: nat | p < |c| ensures c[p] == d[p] {
      assert ByteAt(m', i, p) == ByteAt(m, i, p);
    }
  }

  /** Without new blocks the inode's addresses are as before. */
  lemma AddrsSame(m0: Img, m: Img, i: nat, cnt: nat)
    requires Beside(m0, m, i) && Prefix(m0, i, cnt) && Prefix(m, i, cnt) && HasInode(m0, i) && HasInode(m, i)
    ensures m.inodes[i] == m0.inodes[i]
  {
    forall a | 0 <= a < 13 ensures m.inodes[i].addrs[a] == m0.inodes[i].addrs[a] {
      if a < 12 {
        assert Ref(m, FileSlot(i, a)) == m.inodes[i].addrs[a] && Ref(m0, FileSlot(i, a)) == m0.inodes[i].addrs[a];
      } else {
        assert Ref(m, Pointer(i)) == m.inodes[i].addrs[12] && Ref(m0, Pointer(i)) == m0.inodes[i].addrs[12];
      }
    }
  }
}
