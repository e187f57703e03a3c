/**
 The image builder of tools/mkfs/mkfs.cc, and what the kernel reads from its images.

 The builder hands out blocks in order and writes the bitmap at the end, so at every moment the image is
 one in which exactly the first `freeblock` blocks are in use. Inodes are bytes of the inode blocks; `din`
 says what they hold. A false result stands for a stop of the builder: an assertion, or reading past the
 end of the image.
 */
module Mkfs {
  import opened Common
  import opened FsImage
  import opened Dinodes
  import opened FileSystem
  import opened FileSpec
  import opened FileIO

  // ---------- the layout ----------

  const FSSIZE: nat := 1000
  const NINODES: nat := 200
  const NLOG: nat := 30
  const INODESTART: nat := 2 + NLOG
  const BMAPSTART: nat := INODESTART + NINODES / IPB + 1
  const NMETA: nat := BMAPSTART + FSSIZE / BPB + 1
  /** How many inodes the inode blocks hold: inode HELD would be in the bitmap block. */
  const HELD: nat := IPB * (BMAPSTART - INODESTART)

  lemma HeldIs()
    ensures HELD == 208 && BMAPSTART == 58 && NMETA == 59 && INODESTART == 32
    ensures forall i: nat :: IBlock(INODESTART, i) < BMAPSTART <==> i < HELD
  {
  }

  /** The bitmap that balloc writes at the end: the first `n` blocks are in use. */
  function Bits(size: nat, n: nat): (u: seq<bool>)
    ensures |u| == size && forall b :: 0 <= b < size ==> (u[b] <==> b < n)
  {
    seq(size, b => b < n)
  }

  lemma BitsNext(size: nat, n: nat)
    requires n < size
    ensures Bits(size, n)[n := true] == Bits(size, n + 1)
  {
  }

  lemma NewInode(m: Img, m': Img, start: nat, i: nat)
    requires Ok(m, start) && NoHoles(m) && i !in m.inodes && m' == m.(inodes := m.inodes[i := Inode(Zeros(), 0)])
    ensures Ok(m', start) && NoHoles(m') && Content(m', i) == []
    ensures forall j :: j in m.inodes ==> Content(m', j) == Content(m, j)
  {
    forall t ensures Ref(m', t) == Ref(m, t) {
    }
    SameRefsOk(m, m', start);
    hide Ref;
    forall j | j in m.inodes ensures Content(m', j) == Content(m, j) && Prefix(m', j, Blocks(m'.inodes[j].size)) {
      assert Prefix(m, j, Blocks(m.inodes[j].size));
      assert |Content(m', j)| == |Content(m, j)|;
    }
    forall k: nat ensures Ref(m', FileSlot(i, k)) == 0 && Ref(m', Pointer(i)) == 0 {
      NoRef(m', i, k);
    }
  }

  lemma NoRef(m: Img, i: nat, k: nat)
    requires i in m.inodes && m.inodes[i].addrs == Zeros()
    ensures Ref(m, FileSlot(i, k)) == 0 && Ref(m, Pointer(i)) == 0
  {
  }

  /** The bytes of the last block beyond the end of a file are zero. */
  ghost predicate Trailing(m: Img)
  {
    forall i, p: nat {:trigger ByteAt(m, i, p)} :: i in m.inodes && m.inodes[i].size <= p < Blocks(m.inodes[i].size) * BSIZE ==> ByteAt(m, i, p) == 0
  }

  lemma TrailingNew(m: Img, m': Img, start: nat, i: nat)
    requires Ok(m, start) && NoHoles(m) && Trailing(m) && i !in m.inodes && m' == m.(inodes := m.inodes[i := Inode(Zeros(), 0)])
    ensures Trailing(m')
  {
    forall j, p: nat | j in m'.inodes && m'.inodes[j].size <= p < Blocks(m'.inodes[j].size) * BSIZE ensures ByteAt(m', j, p) == 0 {
      assert ByteAt(m', j, p) == ByteAt(m, j, p);
    }
  }

  lemma TrailingOther(m: Img, m': Img, start: nat, i: nat, j: nat, p: nat)
    requires Ok(m, start) && NoHoles(m) && OthersKept(m, m', i) && j in m.inodes && j != i && p < Blocks(m.inodes[j].size) * BSIZE
    ensures ByteAt(m', j, p) == ByteAt(m, j, p)
  {
    var s := FileSlot(j, p / BSIZE);
    assert Prefix(m, j, Blocks(m.inodes[j].size));
    assert p / BSIZE < Blocks(m.inodes[j].size);
    assert SlotOk(m, s) && BlockOk(m, start, Ref(m, s));
  }

  lemma TrailingNext(m0: Img, m: Img, m': Img, start: nat, i: nat, src: seq<Byte>, cnt: nat)
    requires Ok(m0, start) && NoHoles(m0) && Trailing(m0) && i in m0.inodes
    requires Wrote(m0, m, start, i, m0.inodes[i].size, |src|, src, cnt) && cnt == Blocks(m0.inodes[i].size + |src|)
    requires m' == SetSize(m, i, m0.inodes[i].size + |src|) && OthersKept(m0, m', i)
    ensures Trailing(m')
  {
    hide Ok, Prefix, Ref, OthersKept, Beside;
    assert m'.inodes.Keys == m0.inodes.Keys by { KeysKept(m0, m', i); }
    WroteFacts(m0, m, start, i, m0.inodes[i].size, |src|, src, cnt);
    forall j, p: nat | j in m'.inodes && m'.inodes[j].size <= p < Blocks(m'.inodes[j].size) * BSIZE ensures ByteAt(m', j, p) == 0 {
      if j == i {
        SizeBytes(m, i, m'.inodes[i].size, p);
      } else {
        SameInode(m0, m', i, j);
        TrailingOther(m0, m', start, i, j, p);
      }
    }
  }

  lemma SizeBytes(m: Img, i: nat, size: nat, p: nat)
    requires i in m.inodes
    ensures ByteAt(SetSize(m, i, size), i, p) == ByteAt(m, i, p)
  {
  }

  lemma SameInode(m: Img, m': Img, i: nat, j: nat)
    requires OthersKept(m, m', i) && j in m.inodes && j != i
    ensures j in m'.inodes && m'.inodes[j] == m.inodes[j]
  {
  }

  lemma TrailingBelow(m: Img, m': Img, start: nat, b: nat)
    requires Ok(m, start) && NoHoles(m) && Trailing(m) && b < start && |m'.disk| == |m.disk| && m' == m.(disk := m.disk[b := m'.disk[b]])
    ensures Trailing(m')
  {
    forall j, p: nat | j in m'.inodes && m'.inodes[j].size <= p < Blocks(m'.inodes[j].size) * BSIZE ensures ByteAt(m', j, p) == 0 {
      var s := FileSlot(j, p / BSIZE);
      assert Prefix(m, j, Blocks(m.inodes[j].size));
      assert p / BSIZE < Blocks(m.inodes[j].size);
      assert SlotOk(m, s) && BlockOk(m, start, Ref(m, s));
      assert SlotOk(m, Pointer(j)) && (PointerOf(m, j) != 0 ==> BlockOk(m, start, PointerOf(m, j)));
      assert ByteAt(m, j, p) == 0;
    }
  }

  lemma AlreadyZero(disk: seq<Block>, b: nat)
    requires b < |disk| && disk[b] == Zero()
    ensures disk[b := Zero()] == disk
  {
  }

  lemma PointerBelow(m: Img, start: nat, i: nat, n: nat)
    requires Ok(m, start) && PointerOf(m, i) != 0 && start <= n <= |m.used| && m.used == Bits(|m.used|, n)
    ensures start <= PointerOf(m, i) < n
  {
    var p := PointerOf(m, i);
    assert Ref(m, Pointer(i)) == p;
    assert SlotOk(m, Pointer(i)) && BlockOk(m, start, p) && UsedOk(m, start, p);
  }

  lemma AtEnd(off: nat, n: nat)
    ensures Max(off, off + n) == off + n
  {
  }

  /** iappend's way to say how many bytes go into the next block. */
  lemma SamePiece(off: nat, tot: nat, n: nat)
    requires tot < n
    ensures Min(n - tot, ((off + tot) / BSIZE + 1) * BSIZE - (off + tot)) == Piece(off, tot, n)
  {
  }

  /** The blocks before the data area. */
  function MetaOf(disk: seq<Block>): seq<Block> { if |disk| < NMETA then [] else disk[..NMETA] }

  // ---------- the inode blocks ----------

  const T_DIR: nat := 1
  const T_FILE: nat := 2

  /** ialloc's dinode: the type, one link, no size and no blocks. */
  function PutNew(b: Block, k: nat, kind: nat): Block
    requires k < IPB && kind < 0x10000
  {
    PutWords(b, 16 * k, [kind, 0x10000, 0] + Zeros())
  }

  lemma NewPut(b: Block, k: nat, kind: nat, j: nat)
    requires k < IPB && j < IPB && kind < 0x10000
    ensures GetInode(PutNew(b, k, kind), j) == if j == k then Inode(Zeros(), 0) else GetInode(b, j)
    ensures TypeOf(PutNew(b, k, kind), j) == if j == k then kind else TypeOf(b, j)
  {
    hide Word, PutWords;
    var ws := [kind, 0x10000, 0] + Zeros();
    var r := PutWords(b, 16 * k, ws);
    forall i: nat | i < NINDIRECT ensures Word(r, i) == if 16 * k <= i < 16 * k + 16 then ws[i - 16 * k] else Word(b, i) {
      WordsPut(b, 16 * k, ws, i);
    }
    var x, y := GetInode(r, j), if j == k then Inode(Zeros(), 0) else GetInode(b, j);
    forall a | 0 <= a < 13 ensures x.addrs[a] == y.addrs[a] {
      assert 16 * j + 3 + a < NINDIRECT;
    }
    assert Word(r, 16 * j + 2) == y.size && Word(r, 16 * j) == if j == k then kind else Word(b, 16 * j);
    assert x.addrs == y.addrs;
  }

  /** The inode blocks hold the inodes of `din`, and nothing else; those in `open` are being changed. */
  ghost predicate Table(disk: seq<Block>, din: map<nat, Inode>, open: set<nat>)
  {
    && |disk| == FSSIZE && (forall i :: i in din ==> i < HELD)
    && (forall i: nat {:trigger IBlock(INODESTART, i)} :: i < HELD ==>
          (TypeOf(disk[IBlock(INODESTART, i)], i % IPB) != 0 <==> i in din))
    && (forall i: nat {:trigger IBlock(INODESTART, i)} :: i in din && i !in open ==> GetInode(disk[IBlock(INODESTART, i)], i % IPB) == din[i])
  }

  lemma TableSame(disk: seq<Block>, disk': seq<Block>, din: map<nat, Inode>, din': map<nat, Inode>, i: nat)
    requires Table(disk, din, {}) && |disk'| == |disk| && MetaOf(disk') == MetaOf(disk) && din'.Keys == din.Keys
    requires forall j :: j in din && j != i ==> din'[j] == din[j]
    ensures Table(disk', din', {i})
  {
    hide TypeOf, GetInode;
    forall j: nat | j < HELD ensures disk'[IBlock(INODESTART, j)] == disk[IBlock(INODESTART, j)] {
      assert MetaOf(disk')[IBlock(INODESTART, j)] == MetaOf(disk)[IBlock(INODESTART, j)];
    }
  }

  lemma TablePut(disk: seq<Block>, din: map<nat, Inode>, i: nat)
    requires Table(disk, din, {i}) && i in din && Packable(din[i])
    ensures var b := IBlock(INODESTART, i); b < BMAPSTART && Table(disk[b := PutInode(disk[b], i % IPB, din[i])], din, {})
  {
    HeldIs();
    hide TypeOf, GetInode, PutInode, Packable;
    var b := IBlock(INODESTART, i);
    var disk' := disk[b := PutInode(disk[b], i % IPB, din[i])];
    forall j: nat | j < HELD
      ensures TypeOf(disk'[IBlock(INODESTART, j)], j % IPB) == TypeOf(disk[IBlock(INODESTART, j)], j % IPB)
      ensures GetInode(disk'[IBlock(INODESTART, j)], j % IPB) == if j == i then din[i] else GetInode(disk[IBlock(INODESTART, j)], j % IPB)
    {
      InodePut(disk[b], i % IPB, din[i], j % IPB);
    }
  }

  lemma TableNew(disk: seq<Block>, din: map<nat, Inode>, i: nat, kind: nat)
    requires Table(disk, din, {}) && i !in din && i < HELD && 0 < kind < 0x10000
    ensures var b := IBlock(INODESTART, i);
            b < BMAPSTART && Table(disk[b := PutNew(disk[b], i % IPB, kind)], din[i := Inode(Zeros(), 0)], {})
  {
    HeldIs();
    hide TypeOf, GetInode, PutNew;
    var b := IBlock(INODESTART, i);
    var disk' := disk[b := PutNew(disk[b], i % IPB, kind)];
    forall j: nat | j < HELD
      ensures TypeOf(disk'[IBlock(INODESTART, j)], j % IPB) == if j == i then kind else TypeOf(disk[IBlock(INODESTART, j)], j % IPB)
      ensures GetInode(disk'[IBlock(INODESTART, j)], j % IPB) == if j == i then Inode(Zeros(), 0) else GetInode(disk[IBlock(INODESTART, j)], j % IPB)
    {
      NewPut(disk[b], i % IPB, kind, j % IPB);
    }
  }

  /** A file got blocks until `cnt'` of its blocks are mapped, or the image has too few left for that. */
  predicate Advances(ok: bool, free: nat, free': nat, cnt: nat, cnt': nat)
  {
    if ok then free' == free + Taken(cnt') - Taken(cnt) else free + Taken(cnt') - Taken(cnt) > FSSIZE
  }

  class Builder {
    var disk: seq<Block>
    var freeinode: nat
    var freeblock: nat
    ghost var din: map<nat, Inode>
    ghost var owner: map<nat, Slot>

    /** The image as it would be if the bitmap were written now. */
    ghost function M(): Img
      reads this
    {
      Img(Bits(|disk|, freeblock), disk, din, owner)
    }

    ghost predicate Built()
      reads this
    {
      && Ok(M(), NMETA) && NMETA <= freeblock <= |disk| == FSSIZE
      && (forall b :: freeblock <= b < |disk| ==> disk[b] == Zero())
      && freeinode >= 1 && (forall i :: i in din <==> 1 <= i < freeinode)
    }

    /** Between calls: what the inode blocks say is what the image holds. */
    ghost predicate Ready()
      reads this
    {
      Built() && NoHoles(M()) && Trailing(M()) && Table(disk, din, {})
    }

    /** initialize_superblock, but for the superblock itself: an image of zeros. */
    constructor ()
      ensures Ready() && din == map[] && freeinode == 1 && freeblock == NMETA
    {
      HeldIs();
      disk := seq(FSSIZE, _ => Zero());
      freeblock := NMETA;
      din, freeinode, owner := map[], 1, map[];
      new;
      NoTypes(disk);
    }

    /**
     ialloc. The inode blocks hold HELD inodes; the next one is put into the bitmap block, and those
     after that into data blocks.
     */
    method Ialloc(kind: nat) returns (inum: nat)
      requires Ready() && 0 < kind < 0x10000
      modifies `disk, `din, `freeinode
      ensures inum == old(freeinode) && freeinode == inum + 1 && inum <= HELD
      ensures inum < HELD ==> Ready() && inum !in old(din) && din == old(din)[inum := Inode(Zeros(), 0)] && freeblock == old(freeblock)
      ensures inum < HELD ==> Content(M(), inum) == [] && forall i :: i in old(din) ==> Content(M(), i) == old(Content(M(), i))
      ensures inum == HELD ==> disk == old(disk)[BMAPSTART := PutNew(old(disk)[BMAPSTART], 0, kind)]
    {
      hide Ok, Content, NoHoles, Trailing, PutNew, Table;
      HeldIs();
      TableBound(disk, din, freeinode);
      ghost var m := M();
      inum := freeinode;
      freeinode := freeinode + 1;
      var b := IBlock(INODESTART, inum);
      if inum < HELD {
        TableNew(disk, din, inum, kind);
        ghost var m1 := m.(inodes := din[inum := Inode(Zeros(), 0)]);
        NewInode(m, m1, NMETA, inum);
        TrailingNew(m, m1, NMETA, inum);
        din := din[inum := Inode(Zeros(), 0)];
        WriteBelow(m1, m1.(disk := disk[b := PutNew(disk[b], inum % IPB, kind)]), NMETA, b, PutNew(disk[b], inum % IPB, kind));
        TrailingBelow(m1, m1.(disk := disk[b := PutNew(disk[b], inum % IPB, kind)]), NMETA, b);
      }
      disk := disk[b := PutNew(disk[b], inum % IPB, kind)];
      assert inum < HELD ==> M() == m.(inodes := din, disk := disk);
    }

    /** The next block of the image for slot `s` of an inode or of its indirect block. */
    ghost predicate Given(m: Img, s: Slot)
      reads this
    {
      Built() && Extends(m, M(), s.inum) && forall t :: Ref(M(), t) == if t == s then freeblock - 1 else Ref(m, t)
    }

    /** iappend's step for an empty slot of the inode. */
    method Give(i: nat, a: nat, dip: Inode, ghost s: Slot) returns (dip': Inode)
      requires Built() && HasInode(M(), i) && dip == din[i] && Open(M(), s) && s == (if a < NDIRECT then Direct(i, a) else Pointer(i)) && a < 13
      requires freeblock < |disk|
      modifies `din, `freeblock, `owner
      ensures Given(old(M()), s) && freeblock == old(freeblock) + 1 && din == old(din)[i := dip']
    {
      ghost var m := M();
      AssignExtends(m, NMETA, s, freeblock);
      BitsNext(|disk|, freeblock);
      AlreadyZero(disk, freeblock);
      dip' := dip.(addrs := dip.addrs[a := freeblock]);
      din := din[i := dip'];
      owner := owner[freeblock := s];
      freeblock := freeblock + 1;
      assert M() == Assign(m, s, freeblock - 1);
    }

    /** iappend's step for an empty slot of the indirect block. */
    method GiveIndirect(i: nat, k: nat, dip: Inode)
      requires Built() && HasInode(M(), i) && dip == din[i] && k < NINDIRECT && Open(M(), Indirect(i, k)) && freeblock < |disk|
      modifies `disk, `freeblock, `owner
      ensures Given(old(M()), Indirect(i, k)) && freeblock == old(freeblock) + 1 && MetaOf(disk) == MetaOf(old(disk))
    {
      ghost var m := M();
      AssignExtends(m, NMETA, Indirect(i, k), freeblock);
      BitsNext(|disk|, freeblock);
      AlreadyZero(disk, freeblock);
      var p := dip.addrs[12];
      PointerBelow(m, NMETA, i, freeblock);
      disk := disk[p := PutWord(disk[p], k, freeblock)];
      owner := owner[freeblock := Indirect(i, k)];
      freeblock := freeblock + 1;
      assert M() == Assign(m, Indirect(i, k), freeblock - 1);
    }

    lemma InUse(i: nat, fbn: nat)
      requires Built() && Ref(M(), FileSlot(i, fbn)) != 0
      ensures Ref(M(), FileSlot(i, fbn)) < freeblock
    {
      var b := Ref(M(), FileSlot(i, fbn));
      assert SlotOk(M(), FileSlot(i, fbn)) && BlockOk(M(), NMETA, b) && UsedOk(M(), NMETA, b);
    }

    /** The indirect block of a file, new if need be. */
    method PointerFor(i: nat, dip: Inode) returns (r: Option<nat>, dip': Inode)
      requires Built() && i in din && dip == din[i]
      modifies `din, `freeblock, `owner
      ensures r.Some? ==> Built() && Extends(old(M()), M(), i) && i in din && dip' == din[i]
      ensures r.Some? ==> r.value == PointerOf(M(), i) == dip'.addrs[12] && 0 < r.value < |disk|
      ensures r.Some? ==> forall t :: t != Pointer(i) ==> Ref(M(), t) == Ref(old(M()), t)
      ensures r.Some? ==> freeblock == old(freeblock) + if PointerOf(old(M()), i) == 0 then 1 else 0
      ensures r.None? ==> old(freeblock) == |disk| && PointerOf(old(M()), i) == 0
    {
      hide Extends;
      ExtendsSelf(M(), i);
      dip' := dip;
      if dip.addrs[12] == 0 {
        if freeblock == |disk| {
          return None, dip;
        }
        dip' := Give(i, 12, dip, Pointer(i));
      }
      assert Ref(M(), Pointer(i)) == dip'.addrs[12];
      assert SlotOk(M(), Pointer(i)) && BlockOk(M(), NMETA, dip'.addrs[12]);
      r := Some(dip'.addrs[12]);
    }

    /** The block in slot k of the indirect block, new if need be. */
    method SlotFor(i: nat, k: nat, dip: Inode) returns (r: Option<nat>)
      requires Built() && i in din && dip == din[i] && k < NINDIRECT && 0 < PointerOf(M(), i) < |disk|
      modifies `disk, `freeblock, `owner
      ensures r.Some? ==> Built() && Extends(old(M()), M(), i) && r.value == Ref(M(), Indirect(i, k)) != 0
      ensures r.Some? ==> forall t :: t != Indirect(i, k) ==> Ref(M(), t) == Ref(old(M()), t)
      ensures r.Some? ==> MetaOf(disk) == MetaOf(old(disk))
      ensures r.Some? ==> freeblock == old(freeblock) + if Ref(old(M()), Indirect(i, k)) == 0 then 1 else 0
      ensures r.None? ==> old(freeblock) == |disk| && Ref(old(M()), Indirect(i, k)) == 0
      ensures |disk| == |old(disk)|
    {
      hide Extends;
      ExtendsSelf(M(), i);
      if Word(disk[dip.addrs[12]], k) == 0 {
        if freeblock == |disk| {
          return None;
        }
        GiveIndirect(i, k, dip);
      }
      r := Some(Word(disk[dip.addrs[12]], k));
    }

    /** The block for an index in the indirect range. */
    method IndirectFor(i: nat, fbn: nat, dip: Inode) returns (r: Option<nat>, dip': Inode)
      requires Built() && i in din && NDIRECT <= fbn < MAXFILE && dip == din[i]
      modifies this
      ensures r.Some? ==> Built() && BmapTo(old(M()), M(), i, fbn) && r.value == Ref(M(), FileSlot(i, fbn)) && r.value < freeblock
      ensures r.Some? ==> i in din && dip' == din[i] && MetaOf(disk) == MetaOf(old(disk))
      ensures r.Some? ==> freeblock == old(freeblock) + Empties(old(M()), i, fbn)
      ensures r.None? ==> old(freeblock) + Empties(old(M()), i, fbn) > FSSIZE
      ensures |disk| == |old(disk)| == FSSIZE && freeinode == old(freeinode)
    {
      hide Extends, Ok, WordAt;
      ghost var m := M();
      NoPointer(m, i, fbn - NDIRECT);
      var p;
      p, dip' := PointerFor(i, dip);
      if p.None? {
        return None, dip';
      }
      ghost var m1 := M();
      r := SlotFor(i, fbn - NDIRECT, dip');
      if r.Some? {
        ExtendsTwice(m, m1, M(), NMETA, i);
        assert Ref(M(), Pointer(i)) == p.value;
        InUse(i, fbn);
      }
    }

    /** The block for index `fbn` of a file, new if need be. None when the image is full: reading past its end stops mkfs. */
    method BlockFor(i: nat, fbn: nat, dip: Inode) returns (r: Option<nat>, dip': Inode)
      requires Built() && i in din && fbn < MAXFILE && dip == din[i]
      modifies this
      ensures r.Some? ==> Built() && BmapTo(old(M()), M(), i, fbn) && r.value == Ref(M(), FileSlot(i, fbn)) && r.value < freeblock
      ensures r.Some? ==> i in din && dip' == din[i] && MetaOf(disk) == MetaOf(old(disk))
      ensures r.Some? ==> freeblock == old(freeblock) + Empties(old(M()), i, fbn)
      ensures r.None? ==> old(freeblock) + Empties(old(M()), i, fbn) > FSSIZE
      ensures |disk| == |old(disk)| == FSSIZE && freeinode == old(freeinode)
    {
      if fbn >= NDIRECT {
        r, dip' := IndirectFor(i, fbn, dip);
        return;
      }
      hide Extends;
      ExtendsSelf(M(), i);
      dip' := dip;
      if dip.addrs[fbn] == 0 {
        if freeblock == |disk| {
          return None, dip;
        }
        dip' := Give(i, fbn, dip, Direct(i, fbn));
      }
      InUse(i, fbn);
      r := Some(dip'.addrs[fbn]);
    }

    /** One round of iappend's loop. */
    method AppendOne(i: nat, p: nat, bytes: seq<Byte>, dip: Inode, ghost m0: Img, ghost off: nat, ghost tot: nat, ghost src: seq<Byte>, ghost cnt: nat)
      returns (ok: bool, dip': Inode)
      requires Built() && Wrote(m0, M(), NMETA, i, off, tot, src, cnt) && p == off + tot < MAXFILE * BSIZE && i in din && dip == din[i]
      requires tot + |bytes| <= |src| && bytes == src[tot..tot + |bytes|] && 0 < |bytes| && p % BSIZE + |bytes| <= BSIZE
      modifies this
      ensures ok ==> Built() && Wrote(m0, M(), NMETA, i, off, tot + |bytes|, src, Max(cnt, p / BSIZE + 1))
      ensures ok ==> i in din && dip' == din[i] && MetaOf(disk) == MetaOf(old(disk))
      ensures Advances(ok, old(freeblock), freeblock, cnt, Max(cnt, p / BSIZE + 1))
      ensures freeinode == old(freeinode)
    {
      hide Wrote, BmapTo, Ok, Prefix, Ref, Empties;
      ghost var m := M();
      WroteFacts(m0, m, NMETA, i, off, tot, src, cnt);
      EmptiesTaken(m, i, p / BSIZE, cnt);
      var x;
      x, dip' := BlockFor(i, p / BSIZE, dip);
      if x.None? {
        return false, dip';
      }
      ghost var m1 := M();
      BmapStep(m0, m, m1, NMETA, i, off, tot, src, cnt, p / BSIZE);
      Mapped(m, m1, i, p / BSIZE);
      DataBlock(m1, NMETA, FileSlot(i, p / BSIZE));
      disk := disk[x.value := Patch(disk[x.value], p % BSIZE, bytes)];
      PatchStep(m0, m1, M(), NMETA, i, off, tot, src, Max(cnt, p / BSIZE + 1), |bytes|);
      WroteFacts(m0, M(), NMETA, i, off, tot + |bytes|, src, Max(cnt, p / BSIZE + 1));
      ok := true;
    }

    /** One round of iappend's loop, with the choice of how many bytes go into the block. */
    method AppendNext(i: nat, off: nat, tot: nat, src: seq<Byte>, dip: Inode, ghost m0: Img, ghost cnt: nat) returns (ok: bool, n1: nat, dip': Inode)
      requires Built() && Progress(m0, M(), NMETA, i, off, tot, src, cnt) && tot < |src| && (off + tot) / BSIZE < MAXFILE && i in din && dip == din[i]
      modifies this
      ensures ok ==> Built() && 0 < n1 <= |src| - tot && i in din && dip' == din[i] && MetaOf(disk) == MetaOf(old(disk))
      ensures ok ==> Progress(m0, M(), NMETA, i, off, tot + n1, src, Max(cnt, (off + tot) / BSIZE + 1))
      ensures Advances(ok, old(freeblock), freeblock, cnt, Max(cnt, (off + tot) / BSIZE + 1))
      ensures freeinode == old(freeinode)
    {
      hide Progress, Wrote, Ok, Max, Piece, Blocks, Bits, MetaOf, Advances;
      var fbn := (off + tot) / BSIZE;
      n1 := Min(|src| - tot, (fbn + 1) * BSIZE - (off + tot));
      SamePiece(off, tot, |src|);
      ghost var m := M();
      ProgressReady(m0, m, NMETA, i, off, tot, src, cnt);
      ok, dip' := AppendOne(i, off + tot, src[tot..tot + n1], dip, m0, off, tot, src, cnt);
      if ok {
        ProgressNext(m0, m, M(), NMETA, i, off, tot, src, cnt, n1);
      }
    }

    /** iappend's loop. False stands for its assertion on the file size and for the end of the image. */
    method AppendBlocks(i: nat, off: nat, src: seq<Byte>, dip: Inode) returns (ok: bool, dip': Inode, ghost cnt: nat)
      requires Built() && i in din && Prefix(M(), i, Blocks(din[i].size)) && off == din[i].size <= MAXFILE * BSIZE && dip == din[i]
      modifies this
      ensures ok ==> Built() && Progress(old(M()), M(), NMETA, i, off, |src|, src, cnt) && i in din && dip' == din[i]
      ensures ok ==> MetaOf(disk) == MetaOf(old(disk)) && freeblock == old(freeblock) + Taken(cnt) - Taken(Blocks(off))
      ensures !ok ==> off + |src| > MAXFILE * BSIZE || old(freeblock) + Cost(off + |src|) - Cost(off) > FSSIZE
      ensures freeinode == old(freeinode)
    {
      ghost var m0 := M();
      cnt, dip' := Blocks(off), dip;
      ProgressStart(m0, NMETA, i, off, src);
      hide Progress, Wrote, Ok, Prefix, Max, Blocks, Bits, Built, MetaOf, Taken;
      var tot := 0;
      while tot < |src|
        invariant tot <= |src| && Built() && Progress(m0, M(), NMETA, i, off, tot, src, cnt) && i in din && dip' == din[i]
        invariant |disk| == FSSIZE && MetaOf(disk) == MetaOf(old(disk)) && freeinode == old(freeinode)
        invariant freeblock == old(freeblock) + Taken(cnt) - Taken(Blocks(off))
      {
        NextTaken(m0, M(), NMETA, i, off, tot, src, cnt);
        if (off + tot) / BSIZE >= MAXFILE {
          return false, dip', cnt;
        }
        var n1;
        ok, n1, dip' := AppendNext(i, off, tot, src, dip', m0, cnt);
        if !ok {
          return;
        }
        cnt, tot := Max(cnt, (off + tot) / BSIZE + 1), tot + n1;
      }
      ok := true;
    }

    /** iappend: rinode, the loop, winode. */
    method Iappend(i: nat, src: seq<Byte>) returns (ok: bool)
      requires Ready() && i in din
      modifies this
      ensures ok ==> Ready() && din.Keys == old(din.Keys) && freeinode == old(freeinode) && Content(M(), i) == old(Content(M(), i)) + src
      ensures ok ==> forall j :: j in din && j != i ==> Content(M(), j) == old(Content(M(), j))
      ensures var size := |old(Content(M(), i))|;
              && (ok <==> size + |src| <= MAXFILE * BSIZE && old(freeblock) + Cost(size + |src|) - Cost(size) <= FSSIZE)
              && (ok ==> freeblock == old(freeblock) + Cost(size + |src|) - Cost(size))
    {
      hide Progress, Wrote, Content, Ok, Prefix, Max, Blocks, Bits, Splice, OthersKept, Ref, Trailing, Table, GetInode, PutInode, Packable, Taken;
      HeldIs();
      ghost var m0 := M();
      TableGet(disk, din, i);
      var dip := GetInode(disk[IBlock(INODESTART, i)], i % IPB);
      var off := dip.size;
      SizeBound(m0, i);
      assert Prefix(m0, i, Blocks(off));
      ghost var cnt;
      ok, dip, cnt := AppendBlocks(i, off, src, dip);
      if !ok {
        return;
      }
      ghost var m := M();
      ProgressEnd(m0, m, NMETA, i, off, src, cnt);
      WroteFacts(m0, m, NMETA, i, off, |src|, src, cnt);
      dip := dip.(size := off + |src|);
      din := din[i := dip];
      AtEnd(off, |src|);
      ghost var m' := M();
      assert m' == SetSize(m, i, off + |src|);
      Written(m0, m, m', NMETA, i, off, src, cnt);
      SpliceAtEnd(Content(m0, i), src);
      KeysKept(m0, m', i);
      Grown(off, |src|, cnt);
      TrailingNext(m0, m, m', NMETA, i, src, cnt);
      Winode(i, dip, m0);
      SizeBound(M(), i);
    }

    /** winode of inode i, the one inode that is not filed. */
    method Winode(i: nat, dip: Inode, ghost m0: Img)
      requires Built() && NoHoles(M()) && Trailing(M()) && i in din && dip == din[i] && OthersKept(m0, M(), i)
      requires Table(m0.disk, m0.inodes, {}) && MetaOf(disk) == MetaOf(m0.disk)
      modifies `disk
      ensures Ready() && M().inodes == old(M()).inodes && forall j :: j in din ==> Content(M(), j) == old(Content(M(), j))
    {
      hide Content, Ok, NoHoles, Ref, Trailing, Table, PutInode, Packable;
      HeldIs();
      ghost var m := M();
      TableSame(m0.disk, disk, m0.inodes, din, i);
      SizeBound(m, i);
      PackableInode(m, NMETA, i);
      TablePut(disk, din, i);
      var b := IBlock(INODESTART, i);
      disk := disk[b := PutInode(disk[b], i % IPB, dip)];
      WriteBelow(m, M(), NMETA, b, disk[b]);
      TrailingBelow(m, M(), NMETA, b);
    }
  }

  lemma Grown(off: nat, n: nat, cnt: nat)
    requires cnt == Max(Blocks(off), Blocks(off + n))
    ensures cnt == Blocks(off + n)
  {
  }

  lemma TableGet(disk: seq<Block>, din: map<nat, Inode>, i: nat)
    requires Table(disk, din, {}) && i in din
    ensures IBlock(INODESTART, i) < BMAPSTART && |disk| == FSSIZE && GetInode(disk[IBlock(INODESTART, i)], i % IPB) == din[i]
  {
    HeldIs();
  }

  lemma TableBound(disk: seq<Block>, din: map<nat, Inode>, n: nat)
    requires Table(disk, din, {}) && forall i :: i in din <==> 1 <= i < n
    ensures n <= HELD
  {
    HeldIs();
    assert n > 1 ==> n - 1 in din;
  }

  lemma NoTypes(disk: seq<Block>)
    requires |disk| == FSSIZE && forall b :: 0 <= b < |disk| ==> disk[b] == Zero()
    ensures Table(disk, map[], {})
  {
    HeldIs();
    forall i: nat | i < HELD ensures TypeOf(disk[IBlock(INODESTART, i)], i % IPB) == 0 {
      WordZero(16 * (i % IPB));
    }
  }

  /** Writing at the end is appending. */
  lemma SpliceAtEnd(c: seq<Byte>, src: seq<Byte>)
    ensures Splice(c, |c|, src) == c + src
  {
  }

  function Zeros(): (z: seq<nat>)
    ensures |z| == 13 && forall k :: 0 <= k < 13 ==> z[k] == 0
  {
    seq(13, _ => 0)
  }
}
