/** Inodes on disk: eight to a block, sixteen little-endian words each (include/xv6/fs.h). */
module Dinodes {
  import opened FsImage

  const IPB: nat := 8

  /** The words `ws`, one after the other, from word j of a block on. */
  function PutWords(b: Block, j: nat, ws: seq<nat>): Block
    requires j + |ws| <= NINDIRECT && forall k :: 0 <= k < |ws| ==> ws[k] < 0x1_0000_0000
    decreases |ws|
  {
    if ws == [] then b else PutWords(PutWord(b, j, ws[0]), j + 1, ws[1..])
  }

  lemma {:induction false} WordsPut(b: Block, j: nat, ws: seq<nat>, i: nat)
    requires j + |ws| <= NINDIRECT && i < NINDIRECT && forall k :: 0 <= k < |ws| ==> ws[k] < 0x1_0000_0000
    ensures Word(PutWords(b, j, ws), i) == if j <= i < j + |ws| then ws[i - j] else Word(b, i)
    decreases |ws|
  {
    hide Word, PutWord;
    if ws != [] {
      WordPut(b, j, ws[0], i);
      WordsPut(PutWord(b, j, ws[0]), j + 1, ws[1..], i);
    }
  }

  /** Thirteen addresses and a size, each of one word. */
  predicate Packable(n: Inode)
  {
    |n.addrs| == 13 && n.size < 0x1_0000_0000 && forall k :: 0 <= k < 13 ==> n.addrs[k] < 0x1_0000_0000
  }

  lemma PackableInode(m: Img, start: nat, i: nat)
    requires Ok(m, start) && i in m.inodes && m.inodes[i].size < 0x1_0000_0000
    ensures Packable(m.inodes[i])
  {
    forall k | 0 <= k < 13 ensures m.inodes[i].addrs[k] < 0x1_0000_0000 {
      var s := if k < 12 then Direct(i, k) else Pointer(i);
      assert Ref(m, s) == m.inodes[i].addrs[k] && SlotOk(m, s);
      assert Ref(m, s) != 0 ==> BlockOk(m, start, Ref(m, s));
    }
  }

  /** The size and the addresses of slot k; type, device numbers and link count are the two words before. */
  function GetInode(b: Block, k: nat): Inode
    requires k < IPB
  {
    Inode(seq<nat>(13, a requires 0 <= a < 13 => Word(b, 16 * k + 3 + a)), Word(b, 16 * k + 2))
  }

  function PutInode(b: Block, k: nat, n: Inode): Block
    requires k < IPB && Packable(n)
  {
    PutWords(b, 16 * k + 2, [n.size] + n.addrs)
  }

  /** The words of a dinode after the first two: its size, then its addresses. */
  lemma InodeWords(b: Block, k: nat, n: Inode)
    requires k < IPB && Packable(n)
    ensures var r := PutInode(b, k, n); Word(r, 16 * k + 2) == n.size && forall a :: 0 <= a < 13 ==> Word(r, 16 * k + 3 + a) == n.addrs[a]
  {
    hide Word, PutWords;
    var ws := [n.size] + n.addrs;
    WordsPut(b, 16 * k + 2, ws, 16 * k + 2);
    forall a | 0 <= a < 13 ensures Word(PutInode(b, k, n), 16 * k + 3 + a) == n.addrs[a] {
      WordsPut(b, 16 * k + 2, ws, 16 * k + 3 + a);
    }
  }

  /** The type in slot k; 0 is free. */
  function TypeOf(b: Block, k: nat): nat
    requires k < IPB
  {
    Word(b, 16 * k) % 0x10000
  }

  /** An inode read after it was written is the one written, and its neighbours are as before. */
  lemma InodePut(b: Block, k: nat, n: Inode, j: nat)
    requires k < IPB && j < IPB && Packable(n)
    ensures GetInode(PutInode(b, k, n), j) == if j == k then n else GetInode(b, j)
    ensures TypeOf(PutInode(b, k, n), j) == TypeOf(b, j)
  {
    hide Word, PutWords;
    var ws := [n.size] + n.addrs;
    var r := PutWords(b, 16 * k + 2, ws);
    forall i: nat | i < NINDIRECT ensures Word(r, i) == if 16 * k + 2 <= i < 16 * k + 16 then ws[i - 16 * k - 2] else Word(b, i) {
      WordsPut(b, 16 * k + 2, ws, i);
    }
    var x, y := GetInode(r, j), if j == k then n else GetInode(b, j);
    forall a | 0 <= a < 13 ensures x.addrs[a] == y.addrs[a] {
      assert 16 * j + 3 + a < NINDIRECT;
    }
    assert Word(r, 16 * j + 2) == y.size;
    assert x.addrs == y.addrs;
    assert Word(r, 16 * j) == Word(b, 16 * j);
  }
}
