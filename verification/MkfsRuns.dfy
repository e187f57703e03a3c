/** Whole runs of tools/mkfs/mkfs.cc: the calls that build the files, the end of main, and the kernel reading the image. */
module MkfsRuns {
  import opened Common
  import opened FsImage
  import opened Dinodes
  import opened FileSystem
  import opened FileIO
  import opened Mkfs

  // ---------- the bitmap block ----------

  function Power(n: nat): nat { if n == 0 then 1 else 2 * Power(n - 1) }

  /** v | 0x1 << r */
  function OrBit(v: nat, r: nat): nat { if r == 0 then v / 2 * 2 + 1 else OrBit(v / 2, r - 1) * 2 + v % 2 }

  lemma {:induction false} OrBitBit(v: nat, r: nat, s: nat)
    ensures NatBit(OrBit(v, r), s) <==> NatBit(v, s) || s == r
    decreases r
  {
    if r > 0 && s > 0 {
      OrBitBit(v / 2, r - 1, s - 1);
    }
  }

  lemma {:induction false} OrBitSize(v: nat, r: nat, n: nat)
    requires v < Power(n) && r < n
    ensures OrBit(v, r) < Power(n)
    decreases r
  {
    if r > 0 {
      OrBitSize(v / 2, r - 1, n - 1);
    }
  }

  /** Bit c of a bitmap block. */
  predicate BitOf(b: Block, c: nat)
    requires c < BPB
  {
    NatBit(b[c / 8], c % 8)
  }

  function SetBitOf(b: Block, c: nat): (r: Block)
    requires c < BPB
    ensures forall k: nat :: k < BPB ==> (BitOf(r, k) <==> BitOf(b, k) || k == c)
  {
    assert Power(8) == 256 by { assert Power(4) == 16; }
    OrBitSize(b[c / 8], c % 8, 8);
    var r: Block := b[c / 8 := OrBit(b[c / 8], c % 8)];
    assert forall k: nat :: k < BPB ==> (BitOf(r, k) <==> BitOf(b, k) || k == c) by {
      forall k: nat | k < BPB ensures BitOf(r, k) <==> BitOf(b, k) || k == c {
        OrBitBit(b[c / 8], c % 8, k % 8);
      }
    }
    r
  }

  lemma {:induction false} ZeroBit(r: nat)
    ensures !NatBit(0, r)
  {
    if r > 0 {
      ZeroBit(r - 1);
    }
  }

  ghost predicate FirstBits(buf: Block, used: nat)
  {
    forall c: nat :: c < BPB ==> (BitOf(buf, c) <==> c < used)
  }

  /** balloc's loop: the first `used` bits of the bitmap block. */
  method BitmapBlock(used: nat) returns (buf: Block)
    requires used < BPB
    ensures FirstBits(buf, used)
  {
    buf := Zero();
    forall c: nat | c < BPB ensures !BitOf(buf, c) {
      ZeroBit(c % 8);
    }
    for i := 0 to used
      invariant forall c: nat :: c < BPB ==> (BitOf(buf, c) <==> c < i)
    {
      buf := SetBitOf(buf, i);
    }
  }

  /** The bitmap goes over whatever was in its block; no dinode of a file or of the root survives there. */
  lemma BitmapOverInode(buf: Block, used: nat, k: nat)
    requires FirstBits(buf, used) && used >= NMETA && k < IPB
    ensures TypeOf(buf, k) != T_FILE && (k == 0 ==> TypeOf(buf, k) != T_DIR)
  {
    hide TypeOf;
    var v := buf[64 * k];
    TypeByte(buf, k);
    LowBits(v);
    BitPlaces(k);
    assert BitOf(buf, 512 * k) <==> 512 * k < used;
    assert BitOf(buf, 512 * k + 1) <==> 512 * k + 1 < used;
  }

  lemma BitPlaces(k: nat)
    ensures 512 * k / 8 == 64 * k && 512 * k % 8 == 0 && (512 * k + 1) / 8 == 64 * k && (512 * k + 1) % 8 == 1
  {
  }

  lemma LowBits(v: nat)
    ensures (NatBit(v, 0) <==> v % 2 == 1) && (NatBit(v, 1) <==> v / 2 % 2 == 1)
  {
    assert NatBit(v, 1) <==> NatBit(v / 2, 0);
  }

  lemma TypeByte(b: Block, k: nat)
    requires k < IPB
    ensures TypeOf(b, k) % 256 == b[64 * k]
  {
    LowByte(b[64 * k], (b[64 * k + 1] as int) + 0x100 * (b[64 * k + 2] as int) + 0x1_0000 * (b[64 * k + 3] as int));
    assert 4 * (16 * k) == 64 * k;
  }

  lemma LowByte(x: Byte, q: nat)
    ensures ((x as int) + 0x100 * q) % 0x10000 % 0x100 == x
  {
    var w := (x as int) + 0x100 * q;
    assert w == 0x10000 * (w / 0x10000) + w % 0x10000;
  }

  /** The dinode of a file is still there after the bitmap was written if and only if it was not in the bitmap block. */
  lemma InodeKept(image: seq<Block>, buf: Block, used: nat, i: nat)
    requires |image| == FSSIZE && FirstBits(buf, used) && used >= NMETA && IBlock(INODESTART, i) < FSSIZE
    requires TypeOf(image[IBlock(INODESTART, i)], i % IPB) == T_FILE
    ensures var b, k, image' := IBlock(INODESTART, i), i % IPB, image[BMAPSTART := buf];
            TypeOf(image'[b], k) == T_FILE && GetInode(image'[b], k) == GetInode(image[b], k) <==> i < HELD || i >= HELD + IPB
  {
    HeldIs();
    hide TypeOf, GetInode;
    if HELD <= i < HELD + IPB {
      BitmapOverInode(buf, used, i % IPB);
    }
  }

  lemma {:induction false} WordsOutside(b: Block, j: nat, ws: seq<nat>, p: nat)
    requires j + |ws| <= NINDIRECT && p < BSIZE && (forall k :: 0 <= k < |ws| ==> ws[k] < 0x1_0000_0000) && !(4 * j <= p < 4 * (j + |ws|))
    ensures PutWords(b, j, ws)[p] == b[p]
    decreases |ws|
  {
    if ws != [] {
      WordsOutside(PutWord(b, j, ws[0]), j + 1, ws[1..], p);
    }
  }

  /**
   Beyond that an inode lies in the data area: its 64 bytes replace those of the file that owns the block,
   and no other byte of any file changes.
   */
  lemma InodeHitsData(m: Img, i: nat, kind: nat, j: nat, n: nat)
    requires Ok(m, NMETA) && NoHoles(m) && |m.disk| == FSSIZE && i >= HELD + IPB && IBlock(INODESTART, i) < FSSIZE && 0 < kind < 0x10000
    requires j in m.inodes && n < Blocks(m.inodes[j].size) && Ref(m, FileSlot(j, n)) == IBlock(INODESTART, i)
    ensures var b := IBlock(INODESTART, i);
            var m' := m.(disk := m.disk[b := PutNew(m.disk[b], i % IPB, kind)]);
            var first := n * BSIZE + 64 * (i % IPB);
            && (forall p: nat :: p < m.inodes[j].size && !(first <= p < first + 64) ==> Content(m', j)[p] == Content(m, j)[p])
            && (first < m.inodes[j].size ==> Content(m', j)[first] == kind % 256)
            && forall h :: h in m.inodes && h != j ==> Content(m', h) == Content(m, h)
  {
    HeldIs();
    var b, k := IBlock(INODESTART, i), i % IPB;
    var blk := PutNew(m.disk[b], k, kind);
    var m' := m.(disk := m.disk[b := blk]);
    assert Prefix(m, j, Blocks(m.inodes[j].size));
    assert SlotOk(m, FileSlot(j, n));
    WriteOk(m, m', NMETA, b, blk);
    NewPut(m.disk[b], k, kind, k);
    TypeByte(blk, k);
    hide Ref, Ok, PutNew, TypeOf, GetInode;
    forall h, p: nat | h in m.inodes && p < m.inodes[h].size
      ensures ByteAt(m', h, p) == if h == j && p / BSIZE == n then blk[p % BSIZE] else ByteAt(m, h, p)
    {
      OnlyOwner(m, m', j, n, h, p);
    }
    forall p: nat | p < BSIZE && !(64 * k <= p < 64 * k + 64) ensures blk[p] == m.disk[b][p] {
      NewOutside(m.disk[b], k, kind, p);
    }
    forall h | h in m.inodes && h != j ensures Content(m', h) == Content(m, h) {
      assert |Content(m', h)| == |Content(m, h)|;
    }
  }

  lemma NewOutside(b: Block, k: nat, kind: nat, p: nat)
    requires k < IPB && kind < 0x10000 && p < BSIZE && !(64 * k <= p < 64 * k + 64)
    ensures PutNew(b, k, kind)[p] == b[p]
  {
    WordsOutside(b, 16 * k, [kind, 0x10000, 0] + Zeros(), p);
  }

  /** A write to the block of one slot shows in that slot's part of the file only. */
  lemma OnlyOwner(m: Img, m': Img, j: nat, n: nat, h: nat, p: nat)
    requires Ok(m, NMETA) && NoHoles(m) && h in m.inodes && p < m.inodes[h].size && n < MAXFILE
    requires var b := Ref(m, FileSlot(j, n)); 0 < b < |m.disk| == |m'.disk| && m' == m.(disk := m.disk[b := m'.disk[b]])
    requires forall t :: Ref(m', t) == Ref(m, t)
    ensures ByteAt(m', h, p) == if h == j && p / BSIZE == n then m'.disk[Ref(m, FileSlot(j, n))][p % BSIZE] else ByteAt(m, h, p)
  {
    hide Ref;
    assert Prefix(m, h, Blocks(m.inodes[h].size));
    assert p / BSIZE < Blocks(m.inodes[h].size);
    var s, t := FileSlot(h, p / BSIZE), FileSlot(j, n);
    assert Ref(m, s) != 0;
    if Ref(m, s) == Ref(m, t) {
      OneSlot(m, NMETA, s, t);
    }
  }

  // ---------- the end of main ----------

  /** The size that main gives to the root directory: up to the end of a block, and never its own. */
  function RootSize(size: nat): nat { (size / BSIZE + 1) * BSIZE }

  /** The least number of whole blocks that is more than the size. */
  lemma RootSizeExactly(size: nat, n: nat)
    ensures RootSize(size) % BSIZE == 0 && (size < n * BSIZE <==> RootSize(size) <= n * BSIZE)
  {
  }

  lemma SetSizeBytes(m: Img, start: nat, i: nat, size: nat)
    requires Ok(m, start) && i in m.inodes
    ensures forall j, p: nat :: ByteAt(SetSize(m, i, size), j, p) == ByteAt(m, j, p)
  {
    SetSizeOk(m, start, i, size);
    hide Ref, Ok;
  }

  /** A directory that ends inside a block is padded with that block's zeros. */
  lemma RootPadded(m: Img, start: nat, i: nat)
    requires Ok(m, start) && i in m.inodes && NoHoles(m) && Trailing(m) && m.inodes[i].size % BSIZE != 0
    ensures var m', size := SetSize(m, i, RootSize(m.inodes[i].size)), m.inodes[i].size;
            Prefix(m', i, Blocks(m'.inodes[i].size)) && Content(m', i) == Content(m, i) + Zero()[size % BSIZE..]
  {
    var m', size := SetSize(m, i, RootSize(m.inodes[i].size)), m.inodes[i].size;
    SetSizeOk(m, start, i, RootSize(size));
    SetSizeBytes(m, start, i, RootSize(size));
    hide Ref, Ok;
    assert Prefix(m, i, Blocks(size));
    assert Blocks(RootSize(size)) == Blocks(size) && RootSize(size) == Blocks(size) * BSIZE;
    var c, d := Content(m', i), Content(m, i) + Zero()[size % BSIZE..];
    assert |c| == |d|;
    forall p: nat | p < |c| ensures c[p] == d[p] {
      assert ByteAt(m', i, p) == ByteAt(m, i, p);
    }
  }

  /** That leaves a hole if and only if the directory filled its last block. */
  lemma RootGrows(m: Img, start: nat, i: nat)
    requires Ok(m, start) && NoHoles(m) && Trailing(m) && i in m.inodes
    ensures var m', size := SetSize(m, i, RootSize(m.inodes[i].size)), m.inodes[i].size;
            && Ok(m', start) && (forall j :: j in m.inodes && j != i ==> Content(m', j) == Content(m, j) && Prefix(m', j, Blocks(m.inodes[j].size)))
            && (NoHoles(m') <==> size % BSIZE != 0)
            && (size % BSIZE != 0 ==> Content(m', i) == Content(m, i) + Zero()[size % BSIZE..])
  {
    var m', size := SetSize(m, i, RootSize(m.inodes[i].size)), m.inodes[i].size;
    SetSizeOk(m, start, i, RootSize(size));
    hide Ref, Ok;
    SetSizeBytes(m, start, i, RootSize(size));
    forall j | j in m.inodes && j != i ensures Content(m', j) == Content(m, j) && Prefix(m', j, Blocks(m.inodes[j].size)) {
      assert Prefix(m, j, Blocks(m.inodes[j].size));
      assert |Content(m', j)| == |Content(m, j)|;
    }
    assert Prefix(m, i, Blocks(size));
    if size % BSIZE != 0 {
      RootPadded(m, start, i);
    } else {
      assert Blocks(RootSize(size)) == Blocks(size) + 1;
      assert Blocks(size) < MAXFILE ==> Ref(m', FileSlot(i, Blocks(size))) == 0;
      assert !Prefix(m', i, Blocks(RootSize(size)));
    }
  }

  /** main's last lines: the size of the root directory, then the bitmap. */
  method Finish(b: Builder)
    requires b.Ready() && 1 in b.din
    modifies b
    ensures var m := SetSize(old(b.M()), 1, RootSize(old(b.din[1].size)));
            && Below(m, b.M()) && Ok(b.M(), NMETA) && Table(b.disk, b.din, {}) && b.freeblock == old(b.freeblock)
            && |b.disk| == FSSIZE && FirstBits(b.disk[BMAPSTART], b.freeblock)
  {
    hide Ok, NoHoles, Trailing, Table, GetInode, PutInode, Packable, FirstBits;
    HeldIs();
    ghost var m0 := b.M();
    TableGet(b.disk, b.din, 1);
    var at := IBlock(INODESTART, 1);
    var dip := GetInode(b.disk[at], 1);
    dip := dip.(size := RootSize(dip.size));
    b.din := b.din[1 := dip];
    SizeBound(m0, 1);
    RootGrows(m0, NMETA, 1);
    ghost var m := b.M();
    assert m == SetSize(m0, 1, RootSize(m0.inodes[1].size));
    TableSame(b.disk, b.disk, m0.inodes, b.din, 1);
    PackableInode(m, NMETA, 1);
    TablePut(b.disk, b.din, 1);
    b.disk := b.disk[at := PutInode(b.disk[at], 1, dip)];
    var buf := BitmapBlock(b.freeblock);
    TableBitmap(b.disk, b.din, buf);
    b.disk := b.disk[BMAPSTART := buf];
    BelowOk(m, b.M());
  }

  /** The images differ before the data area only. */
  ghost predicate Below(m: Img, m': Img)
  {
    m' == m.(disk := m'.disk) && |m'.disk| == |m.disk| && forall b :: NMETA <= b < |m.disk| ==> m'.disk[b] == m.disk[b]
  }

  lemma BelowRefs(m: Img, m': Img, t: Slot)
    requires Ok(m, NMETA) && Below(m, m')
    ensures Ref(m', t) == Ref(m, t) && (Ref(m, t) != 0 ==> NMETA <= Ref(m, t) < |m.disk|)
  {
    assert SlotOk(m, t) && SlotOk(m, Pointer(t.inum));
    assert Ref(m, t) != 0 ==> BlockOk(m, NMETA, Ref(m, t));
    assert PointerOf(m, t.inum) != 0 ==> BlockOk(m, NMETA, PointerOf(m, t.inum));
  }

  lemma BelowOk(m: Img, m': Img)
    requires Ok(m, NMETA) && Below(m, m')
    ensures Ok(m', NMETA)
  {
    forall t ensures Ref(m', t) == Ref(m, t) {
      BelowRefs(m, m', t);
    }
    SameRefsOk(m, m', NMETA);
  }

  lemma BelowReads(m: Img, m': Img, j: nat)
    requires Ok(m, NMETA) && Below(m, m') && j in m.inodes && Prefix(m, j, Blocks(m.inodes[j].size))
    ensures Prefix(m', j, Blocks(m.inodes[j].size)) && Content(m', j) == Content(m, j)
  {
    forall t ensures Ref(m', t) == Ref(m, t) && (Ref(m, t) != 0 ==> NMETA <= Ref(m, t) < |m.disk|) {
      BelowRefs(m, m', t);
    }
    hide Ref, Ok;
    forall p: nat | p < m.inodes[j].size ensures ByteAt(m', j, p) == ByteAt(m, j, p) {
      assert p / BSIZE < Blocks(m.inodes[j].size);
    }
    assert |Content(m', j)| == |Content(m, j)|;
  }

  lemma TableBitmap(disk: seq<Block>, din: map<nat, Inode>, buf: Block)
    requires Table(disk, din, {})
    ensures Table(disk[BMAPSTART := buf], din, {})
  {
    HeldIs();
    hide TypeOf, GetInode;
  }

  // ---------- the kernel's view ----------

  /** The bitmap and the inodes as the kernel finds them in the image. */
  method Boot(image: seq<Block>, ghost owner: map<nat, Slot>) returns (fs: Files)
    requires |image| == FSSIZE
    ensures fresh(fs) && fs.M() == Img(fs.used, image, fs.inodes, owner) && |fs.used| == FSSIZE
    ensures forall c: nat :: c < FSSIZE ==> (fs.used[c] <==> BitOf(image[BMAPSTART], c))
    ensures fs.inodes == Inodes(image)
    ensures fs.start == NMETA && fs.bmapstart == BMAPSTART && fs.inodestart == INODESTART
  {
    HeldIs();
    var bits := seq(FSSIZE, c requires 0 <= c < FSSIZE => BitOf(image[BMAPSTART], c));
    fs := new Files(bits, image, Inodes(image), owner, NMETA, BMAPSTART, INODESTART);
  }

  /** The inodes whose type is not 0. */
  function Inodes(image: seq<Block>): map<nat, Inode>
    requires |image| == FSSIZE
  {
    HeldIs();
    map i: nat | i < HELD && TypeOf(image[IBlock(INODESTART, i)], i % IPB) != 0 :: GetInode(image[IBlock(INODESTART, i)], i % IPB)
  }

  lemma InodesAreTable(image: seq<Block>, din: map<nat, Inode>)
    requires Table(image, din, {})
    ensures Inodes(image) == din
  {
    HeldIs();
    hide TypeOf, GetInode;
    forall i: nat ensures i in Inodes(image) <==> i in din {
      assert IBlock(INODESTART, i) >= 0;
    }
    forall i | i in din ensures Inodes(image)[i] == din[i] {
      assert IBlock(INODESTART, i) >= 0;
    }
  }

  lemma SameBits(used: seq<bool>, n: nat)
    requires |used| == FSSIZE && forall c: nat :: c < FSSIZE ==> (used[c] <==> c < n)
    ensures used == Bits(FSSIZE, n)
  {
  }

  // ---------- schedules ----------

  datatype Op = Alloc(kind: nat) | Append(inum: nat, bytes: seq<Byte>)

  function Allocs(ops: seq<Op>): nat
  {
    if ops == [] then 0 else Allocs(ops[..|ops| - 1]) + (if ops[|ops| - 1].Alloc? then 1 else 0)
  }

  /** What was appended to one inode, one piece after the other. */
  function Pieces(ops: seq<Op>, i: nat): seq<Byte>
  {
    if ops == [] then []
    else
      var c, op := Pieces(ops[..|ops| - 1], i), ops[|ops| - 1];
      if op.Append? && op.inum == i then c + op.bytes else c
  }

  /** main allocates an inode before it appends to it. */
  ghost predicate Ordered(ops: seq<Op>)
  {
    forall k :: 0 <= k < |ops| ==> if ops[k].Alloc? then 0 < ops[k].kind < 0x10000 else 1 <= ops[k].inum <= Allocs(ops[..k])
  }

  lemma {:induction false} AllocsGrow(ops: seq<Op>, k: nat)
    requires k <= |ops|
    ensures Allocs(ops[..k]) <= Allocs(ops)
    decreases |ops|
  {
    if k == |ops| {
      assert ops[..k] == ops;
    } else {
      AllocsGrow(ops[..|ops| - 1], k);
      assert ops[..|ops| - 1][..k] == ops[..k];
    }
  }

  lemma {:induction false} PiecesGrow(ops: seq<Op>, k: nat, i: nat)
    requires k <= |ops|
    ensures |Pieces(ops[..k], i)| <= |Pieces(ops, i)|
    decreases |ops|
  {
    if k == |ops| {
      assert ops[..k] == ops;
    } else {
      PiecesGrow(ops[..|ops| - 1], k, i);
      assert ops[..|ops| - 1][..k] == ops[..k];
    }
  }

  lemma {:induction false} Unallocated(ops: seq<Op>, i: nat)
    requires Ordered(ops) && i > Allocs(ops)
    ensures Pieces(ops, i) == []
  {
    if ops != [] {
      var k := |ops| - 1;
      AllocsGrow(ops, k);
      forall j | 0 <= j < k ensures ops[..k][..j] == ops[..j] {
      }
      Unallocated(ops[..k], i);
    }
  }

  /** The blocks that the files numbered 1 to n take. */
  function Needs(ops: seq<Op>, n: nat): nat { if n == 0 then 0 else Needs(ops, n - 1) + Cost(|Pieces(ops, n)|) }

  /** The files take more blocks than the image has. */
  predicate Full(ops: seq<Op>) { NMETA + Needs(ops, Allocs(ops)) > FSSIZE }

  /** There is a slot for every inode, no file is too large, and all blocks fit the image. */
  ghost predicate Buildable(ops: seq<Op>)
  {
    Allocs(ops) < HELD && (forall i: nat :: |Pieces(ops, i)| <= MAXFILE * BSIZE) && !Full(ops)
  }

  lemma {:induction false} NeedsGrow(ops: seq<Op>, k: nat, n: nat, n': nat)
    requires k <= |ops| && n <= n'
    ensures Needs(ops[..k], n) <= Needs(ops, n')
    decreases n'
  {
    hide Cost, Pieces;
    if n' > 0 {
      NeedsGrow(ops, k, if n == n' then n - 1 else n, n' - 1);
      PiecesGrow(ops, k, n');
      CostGrows(|Pieces(ops[..k], n')|, |Pieces(ops, n')|);
    }
  }

  /** What cannot be built does not get better by going on. */
  lemma BuildableDown(ops: seq<Op>, k: nat)
    requires k <= |ops| && Buildable(ops)
    ensures Buildable(ops[..k])
  {
    AllocsGrow(ops, k);
    NeedsGrow(ops, k, Allocs(ops[..k]), Allocs(ops));
    forall i: nat ensures |Pieces(ops[..k], i)| <= MAXFILE * BSIZE {
      PiecesGrow(ops, k, i);
    }
  }

  lemma PiecesNext(ops: seq<Op>, op: Op, i: nat)
    ensures Pieces(ops + [op], i) == if op.Append? && op.inum == i then Pieces(ops, i) + op.bytes else Pieces(ops, i)
    ensures Allocs(ops + [op]) == Allocs(ops) + if op.Alloc? then 1 else 0
  {
    var next := ops + [op];
    assert next[..|next| - 1] == ops && next[|next| - 1] == op;
  }

  lemma {:induction false} NeedsNext(ops: seq<Op>, op: Op, n: nat)
    ensures Needs(ops + [op], n) == Needs(ops, n) +
              if op.Append? && 1 <= op.inum <= n then Cost(|Pieces(ops, op.inum)| + |op.bytes|) - Cost(|Pieces(ops, op.inum)|) else 0
  {
    hide Cost, Pieces;
    if n > 0 {
      NeedsNext(ops, op, n - 1);
      PiecesNext(ops, op, n);
    }
  }

  /** How a run of mkfs ends: an assertion or a full image, an inode that has no slot, or all calls done. */
  datatype Outcome = Stopped | Overrun | Built

  /** The image holds what the schedule asked for so far. */
  ghost predicate Holds(b: Builder, ops: seq<Op>)
    reads b
  {
    && b.Ready() && b.freeinode == Allocs(ops) + 1 && b.freeblock == NMETA + Needs(ops, Allocs(ops))
    && forall i :: i in b.din ==> Content(b.M(), i) == Pieces(ops, i)
  }

  lemma HoldsBuildable(b: Builder, ops: seq<Op>)
    requires Holds(b, ops) && Ordered(ops)
    ensures Buildable(ops)
  {
    hide Content, Ok, NoHoles, Trailing, Table, Pieces, Needs;
    HeldIs();
    TableBound(b.disk, b.din, b.freeinode);
    forall i: nat ensures |Pieces(ops, i)| <= MAXFILE * BSIZE {
      if i in b.din {
        SizeBound(b.M(), i);
      } else if i == 0 {
        NoZero(ops);
      } else {
        Unallocated(ops, i);
      }
    }
  }

  lemma {:induction false} NoZero(ops: seq<Op>)
    requires Ordered(ops)
    ensures Pieces(ops, 0) == []
  {
    if ops != [] {
      var k := |ops| - 1;
      forall j | 0 <= j < k ensures ops[..k][..j] == ops[..j] {
      }
      NoZero(ops[..k]);
    }
  }

  lemma AllocNeeds(ops: seq<Op>, op: Op)
    requires Ordered(ops) && op.Alloc?
    ensures Needs(ops + [op], Allocs(ops) + 1) == Needs(ops, Allocs(ops))
  {
    hide Pieces, Allocs, Ordered;
    var n := Allocs(ops) + 1;
    Unallocated(ops, n);
    NeedsNext(ops, op, n);
    assert Needs(ops, n) == Needs(ops, n - 1) + Cost(0);
  }

  /** One more inode can be had exactly when there is a slot for it. */
  lemma AllocBuildable(ops: seq<Op>, op: Op)
    requires Buildable(ops) && Ordered(ops) && op.Alloc?
    ensures Buildable(ops + [op]) <==> Allocs(ops) + 1 < HELD
    ensures Needs(ops + [op], Allocs(ops) + 1) == Needs(ops, Allocs(ops))
  {
    hide Pieces, Needs, Allocs, Ordered;
    forall i: nat ensures Pieces(ops + [op], i) == Pieces(ops, i) && Allocs(ops + [op]) == Allocs(ops) + 1 {
      PiecesNext(ops, op, i);
    }
    PiecesNext(ops, op, 0);
    AllocNeeds(ops, op);
  }

  /** More bytes can be appended exactly when the file and the image have room. */
  lemma AppendBuildable(ops: seq<Op>, op: Op)
    requires Buildable(ops) && op.Append? && 1 <= op.inum <= Allocs(ops)
    ensures var size, free := |Pieces(ops, op.inum)|, NMETA + Needs(ops, Allocs(ops));
            && (Buildable(ops + [op]) <==>
                  size + |op.bytes| <= MAXFILE * BSIZE && free + Cost(size + |op.bytes|) - Cost(size) <= FSSIZE)
            && NMETA + Needs(ops + [op], Allocs(ops)) == free + Cost(size + |op.bytes|) - Cost(size)
  {
    hide Pieces, Cost, Needs;
    forall i: nat
      ensures Pieces(ops + [op], i) == if op.inum == i then Pieces(ops, i) + op.bytes else Pieces(ops, i)
      ensures Allocs(ops + [op]) == Allocs(ops)
    {
      PiecesNext(ops, op, i);
    }
    assert |Pieces(ops + [op], op.inum)| == |Pieces(ops, op.inum)| + |op.bytes|;
    NeedsNext(ops, op, Allocs(ops));
  }

  /** One call. */
  method Call(b: Builder, op: Op, ghost ops: seq<Op>) returns (o: Outcome)
    requires Holds(b, ops) && if op.Alloc? then 0 < op.kind < 0x10000 else 1 <= op.inum <= Allocs(ops)
    requires Ordered(ops)
    modifies b
    ensures o.Built? <==> Buildable(ops + [op])
    ensures o.Built? ==> Holds(b, ops + [op])
    ensures o.Overrun? ==> Allocs(ops + [op]) == HELD
    ensures o.Stopped? ==> op.Append? && (|Pieces(ops + [op], op.inum)| > MAXFILE * BSIZE || Full(ops + [op]))
  {
    hide Content, Ok, NoHoles, Trailing, Table, Pieces, Needs, Cost, Buildable, Ordered;
    HeldIs();
    HoldsBuildable(b, ops);
    forall i: nat
      ensures Pieces(ops + [op], i) == if op.Append? && op.inum == i then Pieces(ops, i) + op.bytes else Pieces(ops, i)
      ensures Allocs(ops + [op]) == Allocs(ops) + if op.Alloc? then 1 else 0
    {
      PiecesNext(ops, op, i);
    }
    match op
    case Alloc(kind) =>
      AllocBuildable(ops, op);
      Unallocated(ops, b.freeinode);
      var i := b.Ialloc(kind);
      o := if i < HELD then Built else Overrun;
    case Append(inum, bytes) =>
      AppendBuildable(ops, op);
      var ok := b.Iappend(inum, bytes);
      o := if ok then Built else Stopped;
  }

  /** A run of the builder over any schedule, up to the first call that fails; none does exactly when the schedule can be built. */
  method Build(ops: seq<Op>) returns (o: Outcome, b: Builder)
    requires Ordered(ops)
    ensures fresh(b)
    ensures o.Built? <==> Buildable(ops)
    ensures o.Built? ==> Holds(b, ops)
    ensures o.Overrun? ==> Allocs(ops) >= HELD
    ensures o.Stopped? ==> Full(ops) || exists i: nat :: |Pieces(ops, i)| > MAXFILE * BSIZE
  {
    hide Content, Ok, NoHoles, Trailing, Table, Pieces, Needs, Buildable;
    b := new Builder();
    assert Needs([], 0) == 0 by { NoNeeds(); }
    for k := 0 to |ops|
      invariant fresh(b) && Holds(b, ops[..k])
    {
      assert ops[..k] + [ops[k]] == ops[..k + 1];
      forall j | 0 <= j < k ensures ops[..k][..j] == ops[..j] {
      }
      o := Call(b, ops[k], ops[..k]);
      AllocsGrow(ops, k + 1);
      if o.Stopped? {
        PiecesGrow(ops, k + 1, ops[k].inum);
        NeedsGrow(ops, k + 1, Allocs(ops[..k + 1]), Allocs(ops));
      }
      if !o.Built? {
        if Buildable(ops) {
          BuildableDown(ops, k + 1);
        }
        return;
      }
    }
    assert ops[..|ops|] == ops;
    HoldsBuildable(b, ops);
    o := Built;
  }

  lemma NoNeeds()
    ensures Needs([], 0) == 0
  {
  }

  /**
   Whatever files mkfs builds, the kernel reads back: each inode gives the pieces appended to it. The
   root directory is followed by zeros up to the end of its block, if it did not end with one.
   */
  method ReadBack(ops: seq<Op>, inum: nat, n: nat) returns (o: Outcome, r: int, dst: seq<Byte>)
    requires Ordered(ops) && 1 <= inum <= Allocs(ops) && n < 0x1_0000_0000
    ensures o.Built? <==> Buildable(ops)
    ensures var c := Pieces(ops, inum); o.Built? && inum != 1 ==> r == |dst| && dst == c[..Min(n, |c|)]
    ensures var c := Pieces(ops, 1) + Zero()[|Pieces(ops, 1)| % BSIZE..];
            o.Built? && inum == 1 && |Pieces(ops, 1)| % BSIZE != 0 ==> r == |dst| && dst == c[..Min(n, |c|)]
  {
    hide Content, Ok, NoHoles, Trailing, Table, Prefix, FirstBits, Below, Ref, Buildable, Needs, Pieces;
    r, dst := -1, [];
    var b;
    o, b := Build(ops);
    if o.Built? && !(inum == 1 && |Pieces(ops, 1)| % BSIZE == 0) {
      HeldIs();
      ghost var m0 := b.M();
      SizeBound(m0, 1);
      SizeBound(m0, inum);
      RootGrows(m0, NMETA, 1);
      ghost var m := SetSize(m0, 1, RootSize(m0.inodes[1].size));
      Finish(b);
      var fs := Boot(b.disk, b.owner);
      InodesAreTable(b.disk, b.din);
      BootedBits(b.disk[BMAPSTART], b.freeblock, fs.used);
      BelowFacts(m, b.M());
      assert fs.M() == b.M();
      PrefixAfter(m0, m, inum);
      BelowReads(m, b.M(), inum);
      r, dst := Readi(fs, inum, 0, n);
    }
  }

  lemma PrefixAfter(m0: Img, m: Img, j: nat)
    requires NoHoles(m0) && j in m0.inodes && 1 in m0.inodes && m == SetSize(m0, 1, RootSize(m0.inodes[1].size))
    requires forall i :: i in m0.inodes && i != 1 ==> Prefix(m, i, Blocks(m0.inodes[i].size))
    requires j == 1 ==> NoHoles(m)
    ensures j in m.inodes && Prefix(m, j, Blocks(m.inodes[j].size))
  {
    hide Prefix;
  }

  lemma BelowFacts(m: Img, m': Img)
    requires Below(m, m')
    ensures m'.inodes == m.inodes && m'.owner == m.owner && m'.used == m.used && |m'.disk| == |m.disk|
  {
  }

  lemma BootedBits(buf: Block, n: nat, used: seq<bool>)
    requires FirstBits(buf, n) && |used| == FSSIZE && forall c: nat :: c < FSSIZE ==> (used[c] <==> BitOf(buf, c))
    ensures used == Bits(FSSIZE, n)
  {
    SameBits(used, n);
  }
}
