/**
 The file system image: block bitmap, blocks, inodes, and which slot of which inode refers to
 which block (fs/sfs/fs.c, include/xv6/fs.h). Blocks are bytes; an indirect block is read as
 little-endian words.
 */
module FsImage {

  const BSIZE: nat := 512
  const NDIRECT: nat := 12
  const NINDIRECT: nat := 128
  const MAXFILE: nat := 140

  type Byte = b: nat | b < 256
  type Block = s: seq<Byte> | |s| == 512 witness seq(512, _ => 0)

  function Zero(): (b: Block)
    ensures forall i :: 0 <= i < 512 ==> b[i] == 0
  {
    seq(512, _ => 0)
  }

  datatype Inode = Inode(addrs: seq<nat>, size: nat)

  /** A place that holds a block number: a direct slot, the indirect pointer, a slot of the indirect block. */
  datatype Slot = Direct(inum: nat, k: nat) | Pointer(inum: nat) | Indirect(inum: nat, k: nat)

  datatype Img = Img(used: seq<bool>, disk: seq<Block>, inodes: map<nat, Inode>, owner: map<nat, Slot>)

  // ---------- words of an indirect block ----------

  function Word(b: Block, k: nat): nat
    requires k < NINDIRECT
  {
    (b[4 * k] as int) + 0x100 * (b[4 * k + 1] as int) + 0x1_0000 * (b[4 * k + 2] as int) + 0x100_0000 * (b[4 * k + 3] as int)
  }

  function PutWord(b: Block, k: nat, w: nat): Block
    requires k < NINDIRECT && w < 0x1_0000_0000
  {
    b[4 * k := w % 0x100][4 * k + 1 := w / 0x100 % 0x100][4 * k + 2 := w / 0x1_0000 % 0x100][4 * k + 3 := w / 0x100_0000]
  }

  lemma WordPut(b: Block, k: nat, w: nat, j: nat)
    requires k < NINDIRECT && j < NINDIRECT && w < 0x1_0000_0000
    ensures Word(PutWord(b, k, w), j) == if j == k then w else Word(b, j)
  {
    Digits(w);
  }

  lemma Digits(w: nat)
    ensures w == w % 0x100 + 0x100 * (w / 0x100 % 0x100) + 0x1_0000 * (w / 0x1_0000 % 0x100) + 0x100_0000 * (w / 0x100_0000)
  {
    assert w / 0x100 / 0x100 == w / 0x1_0000 && w / 0x1_0000 / 0x100 == w / 0x100_0000;
  }

  lemma WordZero(k: nat)
    requires k < NINDIRECT
    ensures Word(Zero(), k) == 0
  {
  }

  // ---------- what a slot refers to ----------

  predicate HasInode(m: Img, i: nat) { i in m.inodes && |m.inodes[i].addrs| == 13 }

  function PointerOf(m: Img, i: nat): nat { if HasInode(m, i) then m.inodes[i].addrs[12] else 0 }

  function WordAt(m: Img, p: nat, k: nat): nat
  {
    if p == 0 || p >= |m.disk| || k >= NINDIRECT then 0 else Word(m.disk[p], k)
  }

  function Ref(m: Img, s: Slot): nat
  {
    match s
    case Direct(i, k) => if HasInode(m, i) && k < NDIRECT then m.inodes[i].addrs[k] else 0
    case Pointer(i) => PointerOf(m, i)
    case Indirect(i, k) => WordAt(m, PointerOf(m, i), k)
  }

  /** The slot of the n-th block of a file. */
  function FileSlot(i: nat, n: nat): Slot { if n < NDIRECT then Direct(i, n) else Indirect(i, n - NDIRECT) }

  // ---------- block ownership ----------

  ghost predicate BlockOk(m: Img, start: nat, b: nat)
    requires b in m.owner
  {
    start <= b < |m.disk| && Ref(m, m.owner[b]) == b
  }

  ghost predicate SlotOk(m: Img, s: Slot)
  {
    Ref(m, s) != 0 ==> Ref(m, s) in m.owner && m.owner[Ref(m, s)] == s
  }

  ghost predicate UsedOk(m: Img, start: nat, b: nat)
    requires b < |m.used|
  {
    m.used[b] <==> b < start || b in m.owner
  }

  predicate Shape(m: Img, start: nat)
  {
    && 0 < start <= |m.disk| == |m.used| < 0x1_0000_0000
    && forall i :: i in m.inodes ==> |m.inodes[i].addrs| == 13
  }

  /** Every block in use in the data area is referred to by exactly one slot. */
  ghost predicate Ok(m: Img, start: nat)
  {
    && Shape(m, start)
    && (forall b {:trigger BlockOk(m, start, b)} :: b in m.owner ==> BlockOk(m, start, b))
    && (forall s {:trigger SlotOk(m, s)} :: SlotOk(m, s))
    && (forall b: nat {:trigger UsedOk(m, start, b)} :: b < |m.used| ==> UsedOk(m, start, b))
  }

  /** One slot refers to a block, so no two do. */
  lemma OneSlot(m: Img, start: nat, s: Slot, t: Slot)
    requires Ok(m, start) && Ref(m, s) == Ref(m, t) != 0
    ensures s == t && start <= Ref(m, s) < |m.disk| && m.used[Ref(m, s)]
  {
    assert SlotOk(m, s) && SlotOk(m, t);
    assert BlockOk(m, start, Ref(m, s)) && UsedOk(m, start, Ref(m, s));
  }

  /** Every used block of the data area has its slot. */
  lemma UsedHasSlot(m: Img, start: nat, b: nat)
    requires Ok(m, start) && start <= b < |m.disk| && m.used[b]
    ensures b in m.owner && Ref(m, m.owner[b]) == b
  {
    assert UsedOk(m, start, b) && BlockOk(m, start, b);
  }

  // ---------- the elementary changes ----------

  function SetAddr(m: Img, i: nat, a: nat, b: nat): map<nat, Inode>
    requires HasInode(m, i) && a < 13
  {
    m.inodes[i := m.inodes[i].(addrs := m.inodes[i].addrs[a := b])]
  }

  /** balloc: a block is marked and zeroed. */
  function Take(m: Img, b: nat): Img
    requires b < |m.used| && b < |m.disk|
  {
    m.(used := m.used[b := true], disk := m.disk[b := Zero()])
  }

  /** A slot may get a block: it is empty, and the indirect block exists if it is one of its slots. */
  ghost predicate Open(m: Img, s: Slot)
  {
    && HasInode(m, s.inum) && Ref(m, s) == 0
    && (s.Direct? ==> s.k < NDIRECT)
    && (s.Indirect? ==> s.k < NINDIRECT && 0 < PointerOf(m, s.inum) < |m.disk|)
  }

  /** balloc, and the new block's number stored in slot `s`. */
  function Assign(m: Img, s: Slot, b: nat): Img
    requires b < |m.used| && b < |m.disk| < 0x1_0000_0000 && HasInode(m, s.inum)
    requires s.Direct? ==> s.k < NDIRECT
    requires s.Indirect? ==> s.k < NINDIRECT && PointerOf(m, s.inum) < |m.disk|
  {
    match s
    case Direct(i, k) => Take(m, b).(owner := m.owner[b := s], inodes := SetAddr(m, i, k, b))
    case Pointer(i) => Take(m, b).(owner := m.owner[b := s], inodes := SetAddr(m, i, 12, b))
    case Indirect(i, k) => PutIndirect(Take(m, b).(owner := m.owner[b := s]), PointerOf(m, i), k, b)
  }

  function PutIndirect(m: Img, p: nat, k: nat, b: nat): Img
    requires p < |m.disk| && k < NINDIRECT && b < 0x1_0000_0000
  {
    m.(disk := m.disk[p := PutWord(m.disk[p], k, b)])
  }

  lemma AssignRef(m: Img, start: nat, s: Slot, b: nat, t: Slot)
    requires Ok(m, start) && Open(m, s) && start <= b < |m.disk| && !m.used[b]
    ensures Ref(Assign(m, s, b), t) == if t == s then b else Ref(m, t)
  {
    assert UsedOk(m, start, b);
    assert SlotOk(m, Pointer(t.inum)) && SlotOk(m, Pointer(s.inum));
    if t.Indirect? && t.k < NINDIRECT {
      WordZero(t.k);
      if s.Indirect? {
        WordPut(Take(m, b).disk[PointerOf(m, s.inum)], s.k, b, t.k);
      }
    }
  }

  lemma AssignOk(m: Img, start: nat, s: Slot, b: nat)
    requires Ok(m, start) && Open(m, s) && start <= b < |m.disk| && !m.used[b]
    ensures Ok(Assign(m, s, b), start)
    ensures forall t :: Ref(Assign(m, s, b), t) == if t == s then b else Ref(m, t)
  {
    var m' := Assign(m, s, b);
    assert UsedOk(m, start, b);
    forall t ensures Ref(m', t) == if t == s then b else Ref(m, t) {
      AssignRef(m, start, s, b, t);
    }
    hide Ref;
    forall c | c in m'.owner ensures BlockOk(m', start, c) {
      if c != b {
        assert BlockOk(m, start, c);
      }
    }
    forall t ensures SlotOk(m', t) {
      assert SlotOk(m, t);
    }
    forall c: nat | c < |m'.used| ensures UsedOk(m', start, c) {
      assert UsedOk(m, start, c);
    }
  }

  /** The contents of a data block change. */
  lemma WriteOk(m: Img, m': Img, start: nat, b: nat, blk: Block)
    requires Ok(m, start) && b in m.owner && !m.owner[b].Pointer? && b < |m.disk|
    requires m' == m.(disk := m.disk[b := blk])
    ensures Ok(m', start)
    ensures forall t :: Ref(m', t) == Ref(m, t)
  {
    forall t ensures Ref(m', t) == Ref(m, t) {
      assert SlotOk(m, Pointer(t.inum));
    }
    SameRefsOk(m, m', start);
  }

  /** Whatever leaves bitmap, owners and references alone keeps the image well formed. */
  lemma SameRefsOk(m: Img, m': Img, start: nat)
    requires Ok(m, start) && Shape(m', start) && m'.used == m.used && m'.owner == m.owner && |m'.disk| == |m.disk|
    requires forall t :: Ref(m', t) == Ref(m, t)
    ensures Ok(m', start)
  {
    hide Ref;
    forall c | c in m'.owner ensures BlockOk(m', start, c) {
      assert BlockOk(m, start, c);
    }
    forall t ensures SlotOk(m', t) {
      assert SlotOk(m, t);
    }
    forall c: nat | c < |m'.used| ensures UsedOk(m', start, c) {
      assert UsedOk(m, start, c);
    }
  }

  /** The size of a file is recorded. */
  function SetSize(m: Img, i: nat, size: nat): Img
    requires i in m.inodes
  {
    m.(inodes := m.inodes[i := m.inodes[i].(size := size)])
  }

  lemma SetSizeOk(m: Img, start: nat, i: nat, size: nat)
    requires Ok(m, start) && i in m.inodes
    ensures Ok(SetSize(m, i, size), start)
    ensures forall t :: Ref(SetSize(m, i, size), t) == Ref(m, t)
  {
    SameRefsOk(m, SetSize(m, i, size), start);
  }

  // ---------- files ----------

  /** How many blocks hold a file of `size` bytes. */
  function Blocks(size: nat): nat { (size + 511) / 512 }

  /** The blocks that begin below that size. */
  lemma BlocksExactly(size: nat, n: nat)
    ensures n < Blocks(size) <==> n * BSIZE < size
  {
  }

  /** The blocks of file `i` are mapped exactly below index `cnt`. */
  ghost predicate Prefix(m: Img, i: nat, cnt: nat)
  {
    && cnt <= MAXFILE
    && (forall k: nat {:trigger FileSlot(i, k)} :: k < MAXFILE ==> (Ref(m, FileSlot(i, k)) != 0 <==> k < cnt))
    && (Ref(m, Pointer(i)) != 0 <==> cnt > NDIRECT)
  }

  /** No file has a hole or a block beyond its end. */
  ghost predicate NoHoles(m: Img)
  {
    forall i {:trigger i in m.inodes} :: i in m.inodes ==> Prefix(m, i, Blocks(m.inodes[i].size))
  }

  /** Byte p of file i. */
  function ByteAt(m: Img, i: nat, p: nat): Byte
  {
    var b := Ref(m, FileSlot(i, p / BSIZE));
    if b < |m.disk| then m.disk[b][p % BSIZE] else 0
  }

  function Content(m: Img, i: nat): (c: seq<Byte>)
    requires i in m.inodes
    ensures |c| == m.inodes[i].size
  {
    seq(m.inodes[i].size, p requires 0 <= p => ByteAt(m, i, p))
  }

  /** A write before the data area changes no file. */
  lemma WriteBelow(m: Img, m': Img, start: nat, b: nat, blk: Block)
    requires Ok(m, start) && NoHoles(m) && b < start && m' == m.(disk := m.disk[b := blk])
    ensures Ok(m', start) && NoHoles(m')
    ensures forall j :: j in m.inodes ==> Content(m', j) == Content(m, j)
  {
    forall t ensures Ref(m', t) == Ref(m, t) {
      assert SlotOk(m, Pointer(t.inum));
      assert PointerOf(m, t.inum) != 0 ==> BlockOk(m, start, PointerOf(m, t.inum));
    }
    SameRefsOk(m, m', start);
    hide Ref;
    forall j | j in m.inodes ensures Content(m', j) == Content(m, j) && Prefix(m', j, Blocks(m.inodes[j].size)) {
      assert Prefix(m, j, Blocks(m.inodes[j].size));
      forall p: nat | p < m.inodes[j].size ensures ByteAt(m', j, p) == ByteAt(m, j, p) {
        assert p / BSIZE < Blocks(m.inodes[j].size);
        assert SlotOk(m, FileSlot(j, p / BSIZE)) && BlockOk(m, start, Ref(m, FileSlot(j, p / BSIZE)));
      }
      assert |Content(m', j)| == |Content(m, j)|;
    }
  }

  /** What a change to file i leaves alone: the other inodes, their references and their blocks. */
  ghost predicate OthersKept(m: Img, m': Img, i: nat)
  {
    && m'.inodes.Keys == m.inodes.Keys && |m'.disk| == |m.disk|
    && (forall j :: j in m.inodes && j != i ==> m'.inodes[j] == m.inodes[j])
    && (forall s: Slot :: s.inum != i ==> Ref(m', s) == Ref(m, s))
    && (forall b :: b in m.owner && m.owner[b].inum != i && b < |m.disk| ==> m'.disk[b] == m.disk[b])
  }

  /** So their contents are as before. */
  lemma OthersRead(m: Img, m': Img, start: nat, i: nat, j: nat)
    requires Ok(m, start) && OthersKept(m, m', i) && j in m.inodes && j != i && NoHoles(m)
    ensures Content(m', j) == Content(m, j)
  {
    forall p: nat | p < m.inodes[j].size ensures ByteAt(m', j, p) == ByteAt(m, j, p) {
      var s := FileSlot(j, p / BSIZE);
      assert SlotOk(m, s);
      assert Prefix(m, j, Blocks(m.inodes[j].size));
      assert p / BSIZE < Blocks(m.inodes[j].size);
    }
    assert |Content(m', j)| == |Content(m, j)|;
  }
}
