/** The buffer cache of fs/sfs/bio.c over the memory disk of drivers/ide/memide.c. */
module BufferCache {
  import opened Common
  import opened Blocks

  /**
   `view` is the cache-free reading of the disk: the last contents logged or written for every
   block. The class keeps the real state (buffers, ring pointers, disk); the ghost fields say what
   it stands for.
   */

  const DISK_DEV: nat := 1

  datatype Buf = Buf(valid: bool, dirty: bool, dev: nat, blockno: nat,
                     holder: Option<nat>, refcnt: nat, data: Block)

  predicate Idle(b: Buf) { b.refcnt == 0 && !b.dirty }

  predicate Same(b: Buf, c: Buf) { b.dev == c.dev && b.blockno == c.blockno }

  predicate Caches(b: Buf, dev: nat, blockno: nat) { b.dev == dev && b.blockno == blockno }

  // ---------- the ring ----------

  /**
   `path` walks the ring once, from the head (index NBUF) back to the head; `pos` gives the
   place of each node on it, so no node occurs twice.
   */
  ghost predicate PathOk(path: seq<nat>, pos: seq<nat>)
  {
    && |path| >= 2 && |pos| == NBUF + 1
    && path[0] == NBUF && path[|path| - 1] == NBUF
    && (forall j :: 0 <= j < |path| - 1 ==> path[j] <= NBUF && pos[path[j]] == j)
  }

  ghost predicate NextOk(next: seq<nat>, path: seq<nat>)
  {
    forall j {:trigger next[path[j]]} :: 0 <= j < |path| - 1 ==>
      path[j] < |next| && next[path[j]] == path[j + 1]
  }

  ghost predicate PrevOk(prev: seq<nat>, path: seq<nat>)
  {
    forall j {:trigger prev[path[j]]} :: 0 < j < |path| ==>
      path[j] < |prev| && prev[path[j]] == path[j - 1]
  }

  /** Every buffer is on the ring. */
  ghost predicate Covers(path: seq<nat>, pos: seq<nat>)
  {
    && |path| == NBUF + 2 && |pos| == NBUF + 1
    && forall i :: 0 <= i < NBUF ==> 1 <= pos[i] <= NBUF && path[pos[i]] == i
  }

  ghost function Without(path: seq<nat>, k: nat): (r: seq<nat>)
    requires 0 < k < |path| - 1
    ensures |r| == |path| - 1
    ensures forall j :: 0 <= j < |r| ==> r[j] == path[if j < k then j else j + 1]
  {
    path[..k] + path[k + 1..]
  }

  ghost function PosWithout(pos: seq<nat>, k: nat): (r: seq<nat>)
    ensures |r| == |pos|
  {
    seq(|pos|, i requires 0 <= i < |pos| => if pos[i] > k then pos[i] - 1 else pos[i])
  }

  ghost function WithFront(path: seq<nat>, b: nat): (r: seq<nat>)
    requires |path| >= 2
    ensures |r| == |path| + 1
    ensures forall j :: 0 <= j < |r| ==> r[j] == if j == 1 then b else path[if j == 0 then 0 else j - 1]
  {
    [path[0], b] + path[1..]
  }

  ghost function PosFront(pos: seq<nat>, b: nat): (r: seq<nat>)
    ensures |r| == |pos|
  {
    seq(|pos|, i requires 0 <= i < |pos| => if i == b then 1 else if pos[i] == 0 then 0 else pos[i] + 1)
  }

  lemma UnlinkNext(next: seq<nat>, path: seq<nat>, pos: seq<nat>, k: nat)
    requires PathOk(path, pos) && NextOk(next, path) && 0 < k < |path| - 1 && |next| == NBUF + 1
    ensures NextOk(next[path[k - 1] := path[k + 1]], Without(path, k))
  {
    var next', r := next[path[k - 1] := path[k + 1]], Without(path, k);
    forall j | 0 <= j < |r| - 1 ensures next'[r[j]] == r[j + 1] {
      var o := if j < k then j else j + 1;
      assert pos[path[o]] == o && pos[path[k - 1]] == k - 1;
      assert next[path[o]] == path[o + 1];
    }
  }

  lemma UnlinkPrev(prev: seq<nat>, path: seq<nat>, pos: seq<nat>, k: nat)
    requires PathOk(path, pos) && PrevOk(prev, path) && 0 < k < |path| - 1 && |prev| == NBUF + 1
    ensures PrevOk(prev[path[k + 1] := path[k - 1]], Without(path, k))
  {
    var prev', r := prev[path[k + 1] := path[k - 1]], Without(path, k);
    forall j | 0 < j < |r| ensures r[j] < |prev'| && prev'[r[j]] == r[j - 1] {
      var o := if j < k then j else j + 1;
      assert prev[path[o]] == path[o - 1];
      if o != k + 1 {
        Apart(path, pos, o, k + 1);
      }
    }
  }

  lemma Apart(path: seq<nat>, pos: seq<nat>, i: nat, j: nat)
    requires PathOk(path, pos) && 0 < i < |path| && 0 < j < |path| && i != j
    ensures path[i] != path[j]
  {
    assert i < |path| - 1 ==> pos[path[i]] == i;
    assert j < |path| - 1 ==> pos[path[j]] == j;
    assert pos[path[0]] == 0;
  }

  lemma UnlinkPath(path: seq<nat>, pos: seq<nat>, k: nat)
    requires PathOk(path, pos) && 0 < k < |path| - 1
    ensures PathOk(Without(path, k), PosWithout(pos, k))
  {
    var r, q := Without(path, k), PosWithout(pos, k);
    forall j | 0 <= j < |r| - 1 ensures r[j] <= NBUF && q[r[j]] == j {
      var o := if j < k then j else j + 1;
      assert pos[path[o]] == o;
    }
  }

  lemma InsertNext(next: seq<nat>, path: seq<nat>, b: nat)
    requires |path| >= 2 && path[0] == NBUF && NextOk(next, path) && |next| == NBUF + 1
    requires b < NBUF
    requires forall j :: 0 < j < |path| - 1 ==> path[j] <= NBUF && path[j] != b && path[j] != NBUF
    ensures NextOk(next[b := path[1]][NBUF := b], WithFront(path, b))
  {
    var next', r := next[b := path[1]][NBUF := b], WithFront(path, b);
    forall j | 0 <= j < |r| - 1 ensures r[j] < |next'| && next'[r[j]] == r[j + 1] {
      if j >= 2 {
        assert path[j - 1] < |next|;
        assert next[path[j - 1]] == path[j];
      }
    }
  }

  lemma InsertPrev(prev: seq<nat>, path: seq<nat>, pos: seq<nat>, b: nat)
    requires PathOk(path, pos) && PrevOk(prev, path) && |prev| == NBUF + 1
    requires b < NBUF && forall j :: 0 <= j < |path| ==> path[j] != b
    ensures PrevOk(prev[b := NBUF][path[1] := b], WithFront(path, b))
  {
    var prev', r := prev[b := NBUF][path[1] := b], WithFront(path, b);
    forall j | 0 < j < |r| ensures r[j] < |prev'| && prev'[r[j]] == r[j - 1] {
      if j >= 2 {
        assert prev[path[j - 1]] == path[j - 2];
        if j > 2 {
          Apart(path, pos, j - 1, 1);
        }
      }
    }
  }

  lemma InsertPath(path: seq<nat>, pos: seq<nat>, b: nat)
    requires PathOk(path, pos) && b < NBUF && forall j :: 0 <= j < |path| ==> path[j] != b
    ensures PathOk(WithFront(path, b), PosFront(pos, b))
  {
    var r, q := WithFront(path, b), PosFront(pos, b);
    forall j | 0 <= j < |r| - 1 ensures r[j] <= NBUF && q[r[j]] == j {
      if j >= 2 {
        assert pos[path[j - 1]] == j - 1;
      }
    }
    assert pos[path[0]] == 0;
  }

  /** Moving a buffer to the front keeps every buffer on the ring. */
  lemma FrontCovers(path: seq<nat>, pos: seq<nat>, b: nat)
    requires PathOk(path, pos) && Covers(path, pos) && b < NBUF
    ensures Covers(WithFront(Without(path, pos[b]), b), PosFront(PosWithout(pos, pos[b]), b))
  {
    var k := pos[b];
    assert path[k] == b;
    forall i | 0 <= i < NBUF
      ensures var q := PosFront(PosWithout(pos, k), b);
              1 <= q[i] <= NBUF && WithFront(Without(path, k), b)[q[i]] == i
    {
      assert path[pos[i]] == i;
    }
  }

  lemma UnlinkFacts(next: seq<nat>, prev: seq<nat>, path: seq<nat>, pos: seq<nat>, b: nat)
    requires PathOk(path, pos) && Covers(path, pos) && NextOk(next, path) && PrevOk(prev, path)
    requires |next| == |prev| == NBUF + 1 && b < NBUF
    ensures 0 < pos[b] < |path| - 1 && path[pos[b]] == b
    ensures next[b] == path[pos[b] + 1] <= NBUF && prev[b] == path[pos[b] - 1] <= NBUF
    ensures NextOk(next[prev[b] := next[b]], Without(path, pos[b]))
    ensures PrevOk(prev[next[b] := prev[b]], Without(path, pos[b]))
    ensures PathOk(Without(path, pos[b]), PosWithout(pos, pos[b]))
    ensures forall j :: 0 <= j < |path| - 1 ==> Without(path, pos[b])[j] != b
  {
    var k := pos[b];
    assert path[k] == b && next[path[k]] == path[k + 1] && prev[path[k]] == path[k - 1];
    UnlinkNext(next, path, pos, k);
    UnlinkPrev(prev, path, pos, k);
    UnlinkPath(path, pos, k);
    forall j | 0 <= j < |path| && j != k ensures path[j] != b {
      assert pos[path[j]] == j || path[j] == NBUF;
    }
  }

  /** Releases happen in ring order: a buffer nearer the front was released later. */
  ghost predicate StampOk(path: seq<nat>, stamp: seq<nat>, clock: nat)
  {
    && |stamp| == NBUF
    && (forall k :: 0 < k < |path| - 1 ==> path[k] < NBUF)
    && (forall k, l :: 0 < k < l < |path| - 1 ==> stamp[path[k]] > stamp[path[l]])
    && (forall i :: 0 <= i < NBUF ==> stamp[i] < clock)
  }

  lemma FrontStamps(path: seq<nat>, pos: seq<nat>, stamp: seq<nat>, clock: nat, b: nat)
    requires PathOk(path, pos) && Covers(path, pos) && StampOk(path, stamp, clock) && b < NBUF
    ensures StampOk(WithFront(Without(path, pos[b]), b), stamp[b := clock], clock + 1)
  {
    var k := pos[b];
    var r := WithFront(Without(path, k), b);
    assert path[k] == b;
    forall j | 1 < j < |r| - 1 ensures r[j] == path[if j <= k then j - 1 else j] && r[j] != b {
      Apart(path, pos, if j <= k then j - 1 else j, k);
    }
  }

  lemma EmptyRing(next: seq<nat>, prev: seq<nat>, pos: seq<nat>)
    requires next == prev == seq(NBUF + 1, _ => NBUF) && pos == seq(NBUF + 1, _ => 0)
    ensures PathOk([NBUF, NBUF], pos) && NextOk(next, [NBUF, NBUF]) && PrevOk(prev, [NBUF, NBUF])
  {
  }

  lemma FreshCovers(path: seq<nat>, pos: seq<nat>)
    requires PathOk(path, pos) && |path| == NBUF + 2
    requires forall k :: 0 < k <= NBUF ==> path[k] == NBUF - k
    ensures Covers(path, pos)
    ensures StampOk(path, seq(NBUF, i requires 0 <= i < NBUF => i), NBUF)
  {
    forall i | 0 <= i < NBUF ensures 1 <= pos[i] <= NBUF && path[pos[i]] == i {
      assert pos[path[NBUF - i]] == NBUF - i;
    }
  }

  class Ring {
    const next: array<nat>   // index NBUF is bcache.head
    const prev: array<nat>
    ghost var path: seq<nat>
    ghost var pos: seq<nat>
    ghost var stamp: seq<nat>
    ghost var clock: nat

    ghost predicate Valid()
      reads this, next, prev
    {
      && next.Length == prev.Length == NBUF + 1 && next != prev
      && PathOk(path, pos) && Covers(path, pos)
      && NextOk(next[..], path) && PrevOk(prev[..], path)
      && |stamp| == NBUF && StampOk(path, stamp, clock)
    }

    /** binit: the buffers enter the ring one by one at the front. */
    constructor ()
      ensures Valid() && fresh(next) && fresh(prev)
    {
      next := new nat[NBUF + 1](_ => NBUF);
      prev := new nat[NBUF + 1](_ => NBUF);
      new;
      hide PathOk, NextOk, PrevOk, Covers, StampOk;
      var b := 0;
      path := [NBUF, NBUF];
      pos := seq(NBUF + 1, _ => 0);
      EmptyRing(next[..], prev[..], pos);
      while b < NBUF
        invariant 0 <= b <= NBUF && |path| == b + 2 && |pos| == NBUF + 1
        invariant PathOk(path, pos) && NextOk(next[..], path) && PrevOk(prev[..], path)
        invariant forall k :: 0 < k <= b ==> path[k] == b - k
        modifies this`path, this`pos, next, prev
      {
        Insert(b);
        b := b + 1;
      }
      stamp := seq(NBUF, i requires 0 <= i < NBUF => i);
      clock := NBUF;
      FreshCovers(path, pos);
    }

    method Insert(b: nat)
      requires next.Length == prev.Length == NBUF + 1 && next != prev && b < NBUF
      requires PathOk(path, pos) && NextOk(next[..], path) && PrevOk(prev[..], path)
      requires forall j :: 0 <= j < |path| ==> path[j] != b
      modifies this`path, this`pos, next, prev
      ensures PathOk(path, pos) && NextOk(next[..], path) && PrevOk(prev[..], path)
      ensures path == WithFront(old(path), b) && pos == PosFront(old(pos), b)
    {
      assert pos[path[0]] == 0;
      assert forall j :: 0 < j < |path| - 1 ==> pos[path[j]] == j;
      InsertNext(next[..], path, b);
      InsertPrev(prev[..], path, pos, b);
      InsertPath(path, pos, b);
      hide PathOk, NextOk, PrevOk;
      next[b] := next[NBUF];
      prev[b] := NBUF;
      prev[next[NBUF]] := b;
      next[NBUF] := b;
      pos := PosFront(pos, b);
      path := WithFront(path, b);
    }

    /** The pointer writes of brelse: unlink a buffer and put it in front. */
    method MoveToFront(b: nat)
      requires Valid() && b < NBUF
      modifies this, next, prev
      ensures Valid() && path[1] == b
      ensures stamp == old(stamp)[b := old(clock)] && clock == old(clock) + 1
    {
      hide PathOk, NextOk, PrevOk, Covers, StampOk;
      UnlinkFacts(next[..], prev[..], path, pos, b);
      FrontCovers(path, pos, b);
      FrontStamps(path, pos, stamp, clock, b);
      ghost var k := pos[b];
      prev[next[b]] := prev[b];
      next[prev[b]] := next[b];
      path, pos := Without(path, k), PosWithout(pos, k);
      Insert(b);
      stamp, clock := stamp[b := clock], clock + 1;
    }
  }

  // ---------- the contents ----------

  ghost predicate DirtyFor(b: Buf, blockno: nat) { b.dirty && Caches(b, DISK_DEV, blockno) }

  /**
   What the buffers say about the disk: a valid buffer that nobody is editing holds the
   current contents, and a block whose current contents are not on disk sits in a dirty buffer.
   */
  ghost predicate ContentsOk(bufs: seq<Buf>, disk: Disk, view: Disk, editing: set<nat>)
  {
    && |bufs| == NBUF && |view| == |disk|
    && (forall i, j :: 0 <= i < NBUF && 0 <= j < NBUF && bufs[i].dev != 0 && Same(bufs[i], bufs[j]) ==> i == j)
    && (forall i :: 0 <= i < NBUF && bufs[i].valid ==>
          bufs[i].dev == DISK_DEV && bufs[i].blockno < |disk| &&
          (i !in editing ==> bufs[i].data == view[bufs[i].blockno]))
    && (forall i :: 0 <= i < NBUF && bufs[i].dirty ==> bufs[i].valid)
    && (forall i :: 0 <= i < NBUF && bufs[i].holder.Some? ==> bufs[i].refcnt > 0)
    && (forall i :: i in editing ==> i < NBUF && bufs[i].holder.Some? && bufs[i].valid)
    && (forall n :: 0 <= n < |disk| && view[n] != disk[n] ==>
          exists i :: 0 <= i < NBUF && DirtyFor(bufs[i], n))
  }

  /** `b` was released before every other idle clean buffer. */
  ghost predicate Oldest(bufs: seq<Buf>, stamp: seq<nat>, b: nat)
  {
    && |bufs| == |stamp| && b < |bufs|
    && forall j :: 0 <= j < |bufs| && Idle(bufs[j]) ==> stamp[b] <= stamp[j]
  }

  /** Every buffer is in use or pinned. */
  ghost predicate OutOfBuffers(bufs: seq<Buf>)
  {
    forall i :: 0 <= i < |bufs| ==> bufs[i].refcnt > 0 || bufs[i].dirty
  }

  ghost predicate NobodyHolds(bufs: seq<Buf>, dev: nat, blockno: nat)
  {
    forall i :: 0 <= i < |bufs| && Caches(bufs[i], dev, blockno) ==> bufs[i].holder.None?
  }

  class Cache {
    const bufs: array<Buf>
    const ring: Ring
    var disk: Disk

    ghost var view: Disk
    ghost var editing: set<nat>
    ghost var history: seq<Disk>  // every disk that ever existed, one per block write

    ghost predicate Valid()
      reads this, bufs, ring, ring.next, ring.prev
    {
      && bufs.Length == NBUF && ring.Valid()
      && ContentsOk(bufs[..], disk, view, editing)
      && |history| > 0 && history[|history| - 1] == disk
    }

    /** binit over a disk image: no buffer caches anything yet. */
    constructor (image: Disk)
      ensures Valid() && disk == view == image && history == [image] && editing == {}
      ensures fresh(bufs) && fresh(ring) && fresh(ring.next) && fresh(ring.prev)
      ensures forall i :: 0 <= i < NBUF ==> Idle(bufs[i]) && bufs[i].dev == 0 && bufs[i].holder.None?
    {
      var zero := Block(seq(BLOCK_WORDS, _ => 0));
      bufs := new Buf[NBUF](_ => Buf(false, false, 0, 0, None, 0, zero));
      ring := new Ring();
      disk := image;
      view, editing, history := image, {}, [image];
    }

    /** The first loop of bget: where on the ring the block is cached, NBUF if nowhere. */
    method FindCached(dev: nat, blockno: nat) returns (b: nat)
      requires Valid()
      ensures b <= NBUF
      ensures b < NBUF ==> Caches(bufs[b], dev, blockno)
      ensures b == NBUF ==> forall i :: 0 <= i < NBUF ==> !Caches(bufs[i], dev, blockno)
    {
      b := ring.next[NBUF];
      ghost var k := 1;
      assert b == ring.next[ring.path[0]];
      while b != NBUF
        invariant 1 <= k <= NBUF + 1
        invariant b == ring.path[k]
        invariant forall l :: 0 < l < k ==> !Caches(bufs[ring.path[l]], dev, blockno)
        decreases NBUF + 1 - k
      {
        assert k <= NBUF && b < NBUF;
        if bufs[b].dev == dev && bufs[b].blockno == blockno {
          return;
        }
        assert ring.next[ring.path[k]] == ring.path[k + 1];
        b := ring.next[b];
        k := k + 1;
      }
      forall i | 0 <= i < NBUF ensures !Caches(bufs[i], dev, blockno) {
        assert ring.path[ring.pos[i]] == i;
      }
    }

    /** The second loop of bget: the least recently released idle clean buffer, NBUF if none. */
    method FindVictim() returns (b: nat)
      requires Valid()
      ensures b <= NBUF
      ensures b < NBUF ==> Idle(bufs[b]) && Oldest(bufs[..], ring.stamp, b)
      ensures b == NBUF ==> forall i :: 0 <= i < NBUF ==> !Idle(bufs[i])
    {
      b := ring.prev[NBUF];
      ghost var k := NBUF;
      assert b == ring.prev[ring.path[NBUF + 1]];
      while b != NBUF
        invariant 0 <= k <= NBUF
        invariant b == ring.path[k]
        invariant forall l :: k < l <= NBUF ==> !Idle(bufs[ring.path[l]])
        decreases k
      {
        assert k > 0 && b < NBUF;
        if bufs[b].refcnt == 0 && !bufs[b].dirty {
          forall j | 0 <= j < NBUF && Idle(bufs[j]) ensures ring.stamp[b] <= ring.stamp[j] {
            assert ring.path[ring.pos[j]] == j;
          }
          return;
        }
        assert ring.prev[ring.path[k]] == ring.path[k - 1];
        b := ring.prev[b];
        k := k - 1;
      }
      assert ring.pos[ring.path[k]] == k && ring.pos[ring.path[0]] == 0;
      forall i | 0 <= i < NBUF ensures !Idle(bufs[i]) {
        assert ring.path[ring.pos[i]] == i;
      }
    }

    /**
     bget: the buffer that caches the block, else the least recently released buffer that is
     idle and clean. The panic "no buffers" (None) happens exactly when there is neither.
     */
    method Bget(dev: nat, blockno: nat) returns (r: Option<nat>)
      requires Valid()
      modifies bufs
      ensures Valid()
      ensures r.None? <==> NoBuffer(old(bufs[..]), dev, blockno)
      ensures r.None? <==> forall i :: 0 <= i < NBUF ==>
                && (old(bufs[..])[i].dev != dev || old(bufs[..])[i].blockno != blockno)
                && (old(bufs[..])[i].refcnt > 0 || old(bufs[..])[i].dirty)
      ensures r.None? ==> bufs[..] == old(bufs[..]) && OutOfBuffers(bufs[..])
      ensures r.Some? ==> r.value < NBUF && Got(old(bufs[..]), bufs[..], dev, blockno, r.value)
      ensures r.Some? && !old(Caches(bufs[r.value], dev, blockno)) ==>
                Oldest(old(bufs[..]), ring.stamp, r.value)
    {
      hide Ring.Valid, ContentsOk;
      var b := FindCached(dev, blockno);
      if b < NBUF {
        Reuse(b);
        return Some(b);
      }
      b := FindVictim();
      if b < NBUF {
        Recycle(b, dev, blockno);
        return Some(b);
      }
      r := None;
    }

    /** One more reference to a cached block. */
    method Reuse(b: nat)
      requires Valid() && b < NBUF
      modifies bufs
      ensures Valid() && bufs[..] == old(bufs[..])[b := old(bufs[b]).(refcnt := old(bufs[b]).refcnt + 1)]
    {
      hide PathOk, Covers, NextOk, PrevOk, StampOk;
      bufs[b] := bufs[b].(refcnt := bufs[b].refcnt + 1);
      HolderKeepsContents(old(bufs[..]), bufs[..], disk, view, editing, b);
    }

    /** An idle clean buffer for a block that none caches. */
    method Recycle(b: nat, dev: nat, blockno: nat)
      requires Valid() && b < NBUF && Idle(bufs[b]) && forall i :: 0 <= i < NBUF ==> !Caches(bufs[i], dev, blockno)
      modifies bufs
      ensures Valid()
      ensures bufs[..] == old(bufs[..])[b := old(bufs[b]).(dev := dev, blockno := blockno, valid := false, dirty := false, refcnt := 1)]
    {
      hide PathOk, Covers, NextOk, PrevOk, StampOk;
      bufs[b] := bufs[b].(dev := dev, blockno := blockno, valid := false, dirty := false, refcnt := 1);
      RecycleKeepsContents(old(bufs[..]), bufs[..], disk, view, editing, b);
    }

    /** iderw on a buffer that is not dirty: read the block. False is one of iderw's panics. */
    method IderwRead(b: nat) returns (ok: bool)
      requires Valid() && b < NBUF && !bufs[b].valid && !bufs[b].dirty
      modifies bufs
      ensures Valid()
      ensures ok <==> old(bufs[b]).holder.Some? && old(bufs[b]).dev == DISK_DEV && old(bufs[b]).blockno < |disk|
      ensures !ok ==> bufs[..] == old(bufs[..])
      ensures ok ==> bufs[..] == old(bufs[..])[b := old(bufs[b]).(valid := true, data := view[old(bufs[b]).blockno])]
    {
      if bufs[b].holder.None? || bufs[b].dev != DISK_DEV || bufs[b].blockno >= |disk| {
        return false;
      }
      CleanIsOnDisk(bufs[..], disk, view, editing, b);
      bufs[b] := bufs[b].(data := disk[bufs[b].blockno], valid := true);
      HolderKeepsContents(old(bufs[..]), bufs[..], disk, view, editing, b);
      ok := true;
    }

    /** acquiresleep, taken only when the lock is free. */
    method AcquireSleep(b: nat, me: nat)
      requires Valid() && b < NBUF && bufs[b].holder.None? && bufs[b].refcnt > 0
      modifies bufs
      ensures Valid()
      ensures bufs[..] == old(bufs[..])[b := old(bufs[b]).(holder := Some(me))]
    {
      bufs[b] := bufs[b].(holder := Some(me));
      HolderKeepsContents(old(bufs[..]), bufs[..], disk, view, editing, b);
    }

    /** bread from acquiresleep on, when the lock of the buffer is free. False is one of iderw's panics. */
    method ReadLocked(b: nat, me: nat) returns (ok: bool)
      requires Valid() && b < NBUF && bufs[b].holder.None? && bufs[b].refcnt > 0
      modifies bufs
      ensures Valid()
      ensures ok <==> old(bufs[b]).dev == DISK_DEV && old(bufs[b]).blockno < |disk|
      ensures bufs[..] == old(bufs[..])[b := if ok then old(bufs[b]).(valid := true, holder := Some(me), data := view[old(bufs[b]).blockno])
                                             else old(bufs[b]).(holder := Some(me))]
    {
      assert b !in editing;
      AcquireSleep(b, me);
      ok := true;
      if !bufs[b].valid {
        ok := IderwRead(b);
      }
    }

    /**
     bread, up to where it waits for a buffer that some process holds; ReadLocked is the rest,
     once the lock is free. A buffer returned without waiting is locked, and its data are the
     current contents of the block as if there were no cache.
     */
    method Bread(dev: nat, blockno: nat, me: nat) returns (r: Option<nat>, waits: bool)
      requires Valid()
      modifies bufs
      ensures Valid()
      ensures waits ==> !NobodyHolds(old(bufs[..]), dev, blockno)
      ensures dev != 0 && !NobodyHolds(old(bufs[..]), dev, blockno) ==> waits
      ensures waits ==> r.Some? && r.value < NBUF && Caches(bufs[r.value], dev, blockno) && bufs[r.value].holder.Some?
      ensures waits ==> Got(old(bufs[..]), bufs[..], dev, blockno, r.value)
      ensures !waits && dev == DISK_DEV && blockno < |disk| ==> (r.None? <==> NoBuffer(old(bufs[..]), dev, blockno))
      ensures r.None? && dev == DISK_DEV && blockno < |disk| ==> OutOfBuffers(bufs[..])
      ensures !waits && r.Some? ==> r.value < NBUF && dev == DISK_DEV && blockno < |disk|
      ensures !waits && r.Some? ==> bufs[r.value].holder == Some(me) && bufs[r.value].valid
      ensures !waits && r.Some? ==> Caches(bufs[r.value], dev, blockno) && bufs[r.value].data == view[blockno]
      ensures !waits && r.Some? ==> old(bufs[r.value]).holder.None? && GotLocked(old(bufs[..]), bufs[..], dev, blockno, r.value)
    {
      hide PathOk, NextOk, PrevOk, Covers, StampOk;
      r := Bget(dev, blockno);
      waits := r.Some? && bufs[r.value].holder.Some?;
      assert r.Some? ==> old(bufs[r.value]).holder == bufs[r.value].holder;
      if r.Some? && !waits {
        var ok := ReadLocked(r.value, me);
        if !ok {
          r := None;
        }
      }
    }

    /** The holder of a buffer changes its data in place. */
    method Edit(b: nat, me: nat, data: Block)
      requires Valid() && b < NBUF && bufs[b].holder == Some(me) && bufs[b].valid
      modifies bufs, this`editing
      ensures Valid() && editing == old(editing) + {b}
      ensures bufs[..] == old(bufs[..])[b := old(bufs[b]).(data := data)]
    {
      hide PathOk, Covers, NextOk, PrevOk, StampOk, ContentsOk;
      EditKeepsContents(bufs[..], disk, view, editing, b, data);
      bufs[b] := bufs[b].(data := data);
      editing := editing + {b};
      assert bufs[..] == old(bufs[..])[b := old(bufs[b]).(data := data)];
    }

    /** bwrite: the buffer's data become the contents of the block, on disk at once. */
    method Bwrite(b: nat, me: nat) returns (ok: bool)
      requires Valid() && b < NBUF && bufs[b].valid
      modifies this`disk, this`view, this`editing, this`history, bufs
      ensures Valid()
      ensures ok <==> old(bufs[b]).holder == Some(me)
      ensures !ok ==> bufs[..] == old(bufs[..]) && disk == old(disk) && view == old(view) &&
                      history == old(history) && editing == old(editing)
      ensures ok ==> disk == old(disk)[old(bufs[b]).blockno := old(bufs[b]).data]
      ensures ok ==> view == old(view)[old(bufs[b]).blockno := old(bufs[b]).data]
      ensures ok ==> history == old(history) + [disk] && editing == old(editing) - {b}
      ensures ok ==> bufs[..] == old(bufs[..])[b := old(bufs[b]).(dirty := false)]
    {
      if bufs[b].holder != Some(me) {
        return false;
      }
      var n := bufs[b].blockno;
      disk := disk[n := bufs[b].data];
      view := view[n := bufs[b].data];
      history := history + [disk];
      editing := editing - {b};
      bufs[b] := bufs[b].(dirty := false, valid := true);
      WriteKeepsContents(old(bufs[..]), bufs[..], old(disk), disk, old(view), view, old(editing), b);
      ok := true;
    }

    /** The part of log_write that touches the buffer: pin it, and make its data current. */
    method MarkDirty(b: nat, me: nat)
      requires Valid() && b < NBUF && bufs[b].valid && bufs[b].holder == Some(me)
      modifies this`view, this`editing, bufs
      ensures Valid()
      ensures view == old(view)[old(bufs[b]).blockno := old(bufs[b]).data] && editing == old(editing) - {b}
      ensures bufs[..] == old(bufs[..])[b := old(bufs[b]).(dirty := true)]
    {
      view := view[bufs[b].blockno := bufs[b].data];
      editing := editing - {b};
      bufs[b] := bufs[b].(dirty := true);
      WriteKeepsContents(old(bufs[..]), bufs[..], disk, disk, old(view), view, old(editing), b);
    }

    /**
     brelse of a buffer whose edits, if any, were logged or written. The last release moves the
     buffer to the front of the ring. False is the panic of a caller that holds no lock.
     */
    method Brelse(b: nat, me: nat) returns (ok: bool)
      requires Valid() && b < NBUF && b !in editing
      modifies bufs, ring, ring.next, ring.prev
      ensures Valid()
      ensures ok <==> old(bufs[b]).holder == Some(me)
      ensures !ok ==> bufs[..] == old(bufs[..]) && ring.stamp == old(ring.stamp)
      ensures ok ==> bufs[..] == old(bufs[..])[b := old(bufs[b]).(holder := None, refcnt := old(bufs[b]).refcnt - 1)]
      ensures ok ==> ring.stamp == if bufs[b].refcnt > 0 then old(ring.stamp)
                                   else old(ring.stamp)[b := old(ring.clock)]
    {
      if bufs[b].holder != Some(me) {
        return false;
      }
      bufs[b] := bufs[b].(holder := None, refcnt := bufs[b].refcnt - 1);
      HolderKeepsContents(old(bufs[..]), bufs[..], disk, view, editing, b);
      hide ContentsOk;
      if bufs[b].refcnt == 0 {
        ring.MoveToFront(b);
      }
      ok := true;
    }
  }

  /** bget panics: the block is not cached and no buffer is idle and clean. */
  ghost predicate NoBuffer(bufs: seq<Buf>, dev: nat, blockno: nat)
  {
    forall i :: 0 <= i < |bufs| ==> !Caches(bufs[i], dev, blockno) && !Idle(bufs[i])
  }

  /** One buffer was chosen for the block: a hit gains a reference, a miss recycles an idle clean buffer. */
  ghost predicate Got(bufs: seq<Buf>, bufs': seq<Buf>, dev: nat, blockno: nat, b: nat)
  {
    && |bufs| == |bufs'| && b < |bufs|
    && Caches(bufs'[b], dev, blockno)
    && bufs' == bufs[b := bufs'[b]]
    && (if Caches(bufs[b], dev, blockno)
        then bufs'[b] == bufs[b].(refcnt := bufs[b].refcnt + 1)
        else && Idle(bufs[b])
             && bufs'[b] == bufs[b].(dev := dev, blockno := blockno, valid := false, refcnt := 1)
             && (forall i :: 0 <= i < |bufs| ==> !Caches(bufs[i], dev, blockno)))
  }

  /** As Got, after the lock was taken and the data read. */
  ghost predicate GotLocked(bufs: seq<Buf>, bufs': seq<Buf>, dev: nat, blockno: nat, b: nat)
  {
    && |bufs| == |bufs'| && b < |bufs|
    && bufs' == bufs[b := bufs'[b]]
    && (if Caches(bufs[b], dev, blockno)
        then bufs'[b].refcnt == bufs[b].refcnt + 1 && bufs'[b].dirty == bufs[b].dirty
        else Idle(bufs[b]) && bufs'[b].refcnt == 1 && !bufs'[b].dirty)
  }

  lemma EditKeepsContents(bufs: seq<Buf>, disk: Disk, view: Disk, editing: set<nat>, b: nat, data: Block)
    requires ContentsOk(bufs, disk, view, editing) && |bufs| == NBUF && b < NBUF && bufs[b].holder.Some? && bufs[b].valid
    ensures ContentsOk(bufs[b := bufs[b].(data := data)], disk, view, editing + {b})
  {
    var bufs' := bufs[b := bufs[b].(data := data)];
    assert editing + {b} - {b} == editing - {b};
    assert b in editing ==> editing + {b} == editing;
    assert b !in editing ==> editing + {b} - {b} == editing;
    HolderKeepsContents(bufs, bufs', disk, view, editing + {b}, b);
  }

  /** Changing one buffer without changing which block it caches or whether it is dirty. */
  lemma HolderKeepsContents(bufs: seq<Buf>, bufs': seq<Buf>, disk: Disk, view: Disk, editing: set<nat>, b: nat)
    requires |bufs| == |bufs'| == NBUF && b < NBUF
    requires ContentsOk(bufs, disk, view, editing) || ContentsOk(bufs, disk, view, editing - {b})
    requires bufs' == bufs[b := bufs'[b]]
    requires Same(bufs'[b], bufs[b]) && bufs'[b].dirty == bufs[b].dirty
    requires bufs'[b].dirty ==> bufs'[b].valid
    requires bufs'[b].holder.Some? ==> bufs'[b].refcnt > 0
    requires b in editing ==> bufs'[b].holder.Some? && bufs'[b].valid
    requires bufs'[b].valid ==> bufs'[b].dev == DISK_DEV && bufs'[b].blockno < |disk| &&
                                (b !in editing ==> bufs'[b].data == view[bufs'[b].blockno])
    ensures ContentsOk(bufs', disk, view, editing)
  {
    assert forall i :: i in editing ==> i == b || i in editing - {b};
    forall n | 0 <= n < |disk| && view[n] != disk[n]
      ensures exists i :: 0 <= i < NBUF && DirtyFor(bufs'[i], n)
    {
      var i :| 0 <= i < NBUF && DirtyFor(bufs[i], n);
      assert DirtyFor(bufs'[i], n);
    }
  }

  lemma RecycleKeepsContents(bufs: seq<Buf>, bufs': seq<Buf>, disk: Disk, view: Disk, editing: set<nat>, b: nat)
    requires ContentsOk(bufs, disk, view, editing) && b < NBUF && Idle(bufs[b])
    requires |bufs'| == NBUF && !bufs'[b].valid && !bufs'[b].dirty && bufs'[b].refcnt == 1
    requires bufs'[b].holder == bufs[b].holder && bufs' == bufs[b := bufs'[b]]
    requires forall i :: 0 <= i < NBUF ==> !Caches(bufs[i], bufs'[b].dev, bufs'[b].blockno)
    ensures ContentsOk(bufs', disk, view, editing)
  {
    forall n | 0 <= n < |disk| && view[n] != disk[n]
      ensures exists i :: 0 <= i < NBUF && DirtyFor(bufs'[i], n)
    {
      var i :| 0 <= i < NBUF && DirtyFor(bufs[i], n);
      assert DirtyFor(bufs'[i], n);
    }
  }

  /** A block whose buffer is not dirty is current on disk. */
  lemma CleanIsOnDisk(bufs: seq<Buf>, disk: Disk, view: Disk, editing: set<nat>, b: nat)
    requires ContentsOk(bufs, disk, view, editing) && b < NBUF
    requires bufs[b].dev == DISK_DEV && !bufs[b].dirty && bufs[b].blockno < |disk|
    ensures view[bufs[b].blockno] == disk[bufs[b].blockno]
  {
    var n := bufs[b].blockno;
    if view[n] != disk[n] {
      var i :| 0 <= i < NBUF && DirtyFor(bufs[i], n);
      assert Same(bufs[b], bufs[i]);
    }
  }

  /** The data of a held buffer become current: pinned as dirty, or written to disk as well. */
  lemma WriteKeepsContents(bufs: seq<Buf>, bufs': seq<Buf>, disk: Disk, disk': Disk, view: Disk, view': Disk,
                           editing: set<nat>, b: nat)
    requires ContentsOk(bufs, disk, view, editing) && b < NBUF && bufs[b].valid && bufs[b].holder.Some?
    requires |bufs'| == NBUF && bufs' == bufs[b := bufs[b].(dirty := bufs'[b].dirty)]
    requires view' == view[bufs[b].blockno := bufs[b].data]
    requires disk' == if bufs'[b].dirty then disk else disk[bufs[b].blockno := bufs[b].data]
    ensures ContentsOk(bufs', disk', view', editing - {b})
  {
    forall i | 0 <= i < NBUF && bufs'[i].valid && i != b
      ensures bufs'[i].blockno != bufs[b].blockno
    {
      assert !Same(bufs[b], bufs[i]);
    }
    forall n | 0 <= n < |disk'| && view'[n] != disk'[n]
      ensures exists i :: 0 <= i < NBUF && DirtyFor(bufs'[i], n)
    {
      if n == bufs[b].blockno {
        assert DirtyFor(bufs'[b], n);
      } else {
        var i :| 0 <= i < NBUF && DirtyFor(bufs[i], n);
        assert DirtyFor(bufs'[i], n);
      }
    }
  }
}
