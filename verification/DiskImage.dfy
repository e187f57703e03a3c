/** File-system images as the blocks of the disk that the log writes, and how to read them back. */
module DiskImage {
  import opened Common
  import B = Blocks
  import opened FsImage
  import opened Dinodes
  import opened FileSystem

  // ---------- bytes and words ----------

  function ToWords(b: Block): B.Block
  {
    B.Block(seq<nat>(128, k requires 0 <= k < 128 => Word(b, k)))
  }

  /** Byte r of a little-endian word. */
  function Quarter(w: nat, r: nat): Byte
    requires r < 4
  {
    (if r == 0 then w else if r == 1 then w / 0x100 else if r == 2 then w / 0x1_0000 else w / 0x100_0000) % 0x100
  }

  function Bytes(b: B.Block): (r: Block)
  {
    seq<Byte>(512, p requires 0 <= p < 512 => Quarter(b.words[p / 4], p % 4))
  }

  lemma BytesBack(b: Block)
    ensures Bytes(ToWords(b)) == b
  {
    var r := Bytes(ToWords(b));
    forall p: nat | p < 512 ensures r[p] == b[p] {
      QuarterBack(b, p / 4, p % 4);
    }
  }

  lemma QuarterBack(b: Block, k: nat, r: nat)
    requires k < 128 && r < 4
    ensures Quarter(Word(b, k), r) == b[4 * k + r]
  {
    FourBytes(b[4 * k], b[4 * k + 1], b[4 * k + 2], b[4 * k + 3]);
  }

  lemma FourBytes(x: Byte, y: Byte, z: Byte, t: Byte)
    ensures var w := (x as int) + 0x100 * (y as int) + 0x1_0000 * (z as int) + 0x100_0000 * (t as int);
            w % 0x100 == x && w / 0x100 % 0x100 == y && w / 0x1_0000 % 0x100 == z && w / 0x100_0000 % 0x100 == t
  {
    var w: nat := (x as int) + 0x100 * (y as int) + 0x1_0000 * (z as int) + 0x100_0000 * (t as int);
    var q: nat := (y as int) + 0x100 * (z as int) + 0x1_0000 * (t as int);
    assert w == x + 0x100 * q;
    assert w / 0x100 == q;
    assert w / 0x1_0000 == z + 0x100 * (t as int);
    assert w / 0x100_0000 == t;
  }

  // ---------- the bitmap ----------

  function Pack(bits: seq<bool>): nat { if bits == [] then 0 else (if bits[0] then 1 else 0) + 2 * Pack(bits[1..]) }

  lemma {:induction false} PackBit(bits: seq<bool>, r: nat)
    requires r < |bits|
    ensures NatBit(Pack(bits), r) == bits[r]
  {
    if r > 0 {
      PackBit(bits[1..], r - 1);
    }
  }

  /** 32 bits of the bitmap from block c on. */
  function BitsFrom(used: seq<bool>, c: nat): (r: seq<bool>)
    ensures |r| == 32
  {
    seq(32, r requires 0 <= r < 32 => c + r < |used| && used[c + r])
  }

  function BitmapOf(used: seq<bool>, j: nat): B.Block
  {
    B.Block(seq<nat>(128, k requires 0 <= k < 128 => Pack(BitsFrom(used, BPB * j + 32 * k))))
  }

  /** Whether the bitmap on disk says that block c is in use. */
  predicate DiskBit(d: B.Disk, bmapstart: nat, c: nat)
    requires bmapstart + c / BPB < |d|
  {
    NatBit(d[bmapstart + c / BPB].words[c % BPB / 32], c % 32)
  }

  lemma BitmapBit(used: seq<bool>, c: nat)
    requires c < |used|
    ensures NatBit(BitmapOf(used, c / BPB).words[c % BPB / 32], c % 32) == used[c]
  {
    var j, k, r := c / BPB, c % BPB / 32, c % 32;
    BitPlace(c);
    PackBit(BitsFrom(used, BPB * j + 32 * k), r);
    hide Pack, NatBit;
    assert BitmapOf(used, j).words[k] == Pack(BitsFrom(used, BPB * j + 32 * k));
    assert BitsFrom(used, BPB * j + 32 * k)[r] == used[c];
  }

  lemma BitPlace(c: nat)
    ensures BPB * (c / BPB) + 32 * (c % BPB / 32) + c % 32 == c && c % BPB / 32 < 128
  {
  }

  // ---------- images ----------

  /** The bitmap blocks hold the bitmap, all others their bytes. */
  function OnDisk(m: Img, start: nat, bmapstart: nat, b: nat): B.Block
    requires b < |m.disk|
  {
    if bmapstart <= b < start then BitmapOf(m.used, b - bmapstart) else ToWords(m.disk[b])
  }

  function Enc(m: Img, start: nat, bmapstart: nat): (d: B.Disk)
    ensures |d| == |m.disk| && forall b :: 0 <= b < |d| ==> d[b] == OnDisk(m, start, bmapstart, b)
  {
    seq(|m.disk|, b requires 0 <= b < |m.disk| => OnDisk(m, start, bmapstart, b))
  }

  lemma SameBits(used: seq<bool>, used': seq<bool>, j: nat, k: nat)
    requires |used'| == |used| && k < 128 && forall c: nat :: c < |used| && c / BPB == j ==> used'[c] == used[c]
    ensures BitsFrom(used', BPB * j + 32 * k) == BitsFrom(used, BPB * j + 32 * k)
  {
    var x, y, c := BitsFrom(used', BPB * j + 32 * k), BitsFrom(used, BPB * j + 32 * k), BPB * j + 32 * k;
    forall r: nat | r < 32 ensures x[r] == y[r] {
      assert (c + r) / BPB == j;
    }
  }

  /** A block that was not logged is the same on disk. */
  lemma UnloggedSame(m: Img, m': Img, low: nat, start: nat, bmapstart: nat, before: set<nat>, logged: set<nat>, b: nat)
    requires Covered(m, m', low, bmapstart, before, logged) && b < |m.disk| && b !in logged
    ensures |m'.disk| == |m.disk| && OnDisk(m', start, bmapstart, b) == OnDisk(m, start, bmapstart, b)
  {
    if bmapstart <= b < start {
      var j := b - bmapstart;
      forall k | 0 <= k < 128 ensures BitsFrom(m'.used, BPB * j + 32 * k) == BitsFrom(m.used, BPB * j + 32 * k) {
        SameBits(m.used, m'.used, j, k);
      }
      assert BitmapOf(m'.used, j).words == BitmapOf(m.used, j).words;
    }
  }

  /** The disk holds the image: bitmap, inode blocks and data blocks. */
  ghost predicate Represents(d: B.Disk, m: Img, start: nat, bmapstart: nat, inodestart: nat)
  {
    && |d| == |m.disk|
    && (forall b :: 0 <= b < |d| && (start <= b || inodestart <= b < bmapstart) ==> Bytes(d[b]) == m.disk[b])
    && (forall c: nat :: c < |m.used| ==> bmapstart + c / BPB < |d| && DiskBit(d, bmapstart, c) == m.used[c])
  }

  lemma EncRepresents(d: B.Disk, m: Img, start: nat, bmapstart: nat, inodestart: nat)
    requires |d| == |m.disk| && inodestart <= bmapstart <= start <= |m.disk| && |m.used| <= BPB * (start - bmapstart)
    requires forall b :: inodestart <= b < |d| ==> d[b] == OnDisk(m, start, bmapstart, b)
    ensures Represents(d, m, start, bmapstart, inodestart)
  {
    forall b | 0 <= b < |d| && (start <= b || inodestart <= b < bmapstart) ensures Bytes(d[b]) == m.disk[b] {
      BytesBack(m.disk[b]);
    }
    forall c: nat | c < |m.used| ensures bmapstart + c / BPB < |d| && DiskBit(d, bmapstart, c) == m.used[c] {
      BitmapBit(m.used, c);
    }
  }

  /** What readi finds on a disk: the inode in its block, and the blocks it names. */
  function FileOf(d: B.Disk, inodestart: nat, i: nat): seq<Byte>
    requires IBlock(inodestart, i) < |d|
  {
    Content(Decoded(d, inodestart, i), i)
  }

  function Decoded(d: B.Disk, inodestart: nat, i: nat): Img
    requires IBlock(inodestart, i) < |d|
  {
    Img([], seq(|d|, b requires 0 <= b < |d| => Bytes(d[b])), map[i := GetInode(Bytes(d[IBlock(inodestart, i)]), i % IPB)], map[])
  }

  lemma FileBack(d: B.Disk, m: Img, start: nat, bmapstart: nat, inodestart: nat, i: nat)
    requires Represents(d, m, start, bmapstart, inodestart) && i in m.inodes
    requires Ok(m, start) && NoHoles(m) && Filed(m, start, bmapstart, inodestart, {})
    ensures IBlock(inodestart, i) < |d| && FileOf(d, inodestart, i) == Content(m, i)
  {
    hide Bytes, GetInode, DiskBit;
    var n := Decoded(d, inodestart, i);
    assert n.inodes[i] == m.inodes[i];
    assert Prefix(m, i, Blocks(m.inodes[i].size));
    assert SlotOk(m, Pointer(i)) && (PointerOf(m, i) != 0 ==> BlockOk(m, start, PointerOf(m, i)));
    forall p: nat | p < m.inodes[i].size ensures ByteAt(n, i, p) == ByteAt(m, i, p) {
      var s := FileSlot(i, p / BSIZE);
      assert p / BSIZE < Blocks(m.inodes[i].size);
      assert SlotOk(m, s) && BlockOk(m, start, Ref(m, s));
      assert Ref(n, s) == Ref(m, s);
    }
    assert |Content(n, i)| == |Content(m, i)|;
  }
}
