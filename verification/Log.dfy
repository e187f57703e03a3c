/**
 The in-memory log of fs/sfs/log.c, running over the buffer cache.

 `false` results are panics; a panic stops the machine, so it counts as a crash. The ghost result `done`
 of a commit says how many block writes reached the disk. The loops are proved against the disks of
 `LogSpec`, write by write.
 */
module Log {
  import opened Common
  import opened Blocks
  import opened LogSpec
  import opened BufferCache

  /** Nobody holds a block of the log or one of the blocks in `lh`. */
  ghost predicate Quiet(bufs: seq<Buf>, g: Layout, lh: seq<nat>)
  {
    forall i :: 0 <= i < |bufs| && bufs[i].dev == DISK_DEV && (InLog(g, bufs[i].blockno) || bufs[i].blockno in lh) ==>
      bufs[i].holder.None?
  }

  /** The same buffers are held, and those are as they were. */
  ghost predicate SameHeld(bufs: seq<Buf>, bufs': seq<Buf>)
  {
    && |bufs| == |bufs'|
    && forall i :: 0 <= i < |bufs| && (bufs[i].holder.Some? || bufs'[i].holder.Some?) ==> bufs'[i] == bufs[i]
  }

  lemma SameHeldItself(bufs: seq<Buf>)
    ensures SameHeld(bufs, bufs)
  {
  }

  lemma HeldKeepsQuiet(bufs: seq<Buf>, bufs': seq<Buf>, bufs'': seq<Buf>, g: Layout, lh: seq<nat>)
    requires SameHeld(bufs, bufs') && SameHeld(bufs', bufs'') && Quiet(bufs, g, lh)
    ensures SameHeld(bufs, bufs'') && Quiet(bufs'', g, lh)
  {
  }

  lemma QuietHead(bufs: seq<Buf>, g: Layout, d: Disk, lh: seq<nat>)
    requires Quiet(bufs, g, lh) && Fits(g, d)
    ensures NobodyHolds(bufs, DISK_DEV, g.start)
  {
  }

  lemma QuietCopy(bufs: seq<Buf>, g: Layout, d: Disk, lh: seq<nat>, i: nat)
    requires Quiet(bufs, g, lh) && i < |lh| && Loggable(g, d, lh)
    ensures NobodyHolds(bufs, DISK_DEV, g.start + i + 1) && NobodyHolds(bufs, DISK_DEV, lh[i])
  {
    assert InLog(g, g.start + i + 1);
  }

  /** bread returned the buffer of the block to `me`. */
  ghost predicate Fetched(b: Buf, blockno: nat, me: nat)
  {
    b.valid && b.holder == Some(me) && b.blockno == blockno
  }

  /** Only logged blocks have contents that are not on disk. */
  ghost predicate Pinned(disk: Disk, view: Disk, lh: seq<nat>)
  {
    |view| == |disk| && forall b :: 0 <= b < |disk| && view[b] != disk[b] ==> b in lh
  }

  /** begin_op lets an operation start: no commit is running, and there is log space for it. */
  predicate Admits(n: nat, outstanding: int, committing: bool)
  {
    !committing && n + (outstanding + 1) * MAXOPBLOCKS <= LOGSIZE
  }

  predicate HasRoom(n: nat, more: nat) { n + more <= LOGSIZE }

  /** That is: whatever the open operations and the new one log, up to MAXOPBLOCKS blocks more each, the header has room. */
  lemma AdmitsExactly(n: nat, outstanding: nat, committing: bool)
    ensures Admits(n, outstanding, committing) <==>
            !committing && forall more: nat :: more <= (outstanding + 1) * MAXOPBLOCKS ==> HasRoom(n, more)
  {
    if !committing && !Admits(n, outstanding, committing) {
      assert !HasRoom(n, (outstanding + 1) * MAXOPBLOCKS);
    }
  }

  /** log_write's absorption: a block is listed once. */
  function Absorb(lh: seq<nat>, b: nat): (r: seq<nat>)
    ensures lh <= r && b in r
    ensures forall x :: x in r <==> x in lh || x == b
    ensures Distinct(lh) ==> Distinct(r)
  {
    if b in lh then lh else lh + [b]
  }

  /** The first checks of log_write, which panic. */
  predicate LogWritePanics(n: nat, size: nat, outstanding: int)
  {
    n >= LOGSIZE || n + 1 >= size || outstanding < 1
  }

  class Log {
    const cache: Cache
    const g: Layout
    const block: array<nat>   // log.lh.block
    var n: nat                // log.lh.n
    var outstanding: nat
    var committing: bool

    ghost predicate Valid()
      reads this, block, cache, cache.bufs, cache.ring, cache.ring.next, cache.ring.prev
    {
      && cache.Valid() && block.Length == LOGSIZE && n <= LOGSIZE
      && block != cache.ring.next && block != cache.ring.prev
      && |cache.view| == |cache.disk|
      && Loggable(g, cache.disk, block[..n])
      && Pinned(cache.disk, cache.view, block[..n])
    }

    /** initlog up to the call of recover_from_log, over a freshly booted cache. */
    constructor (image: Disk, g: Layout)
      requires Fits(g, image)
      ensures Valid() && this.g == g && n == 0 && outstanding == 0 && !committing
      ensures cache.disk == cache.view == image && cache.history == [image]
      ensures cache.editing == {} && forall i :: 0 <= i < NBUF ==> cache.bufs[i].holder.None?
      ensures fresh(cache) && fresh(cache.bufs) && fresh(cache.ring) && fresh(cache.ring.next)
      ensures fresh(cache.ring.prev) && fresh(block)
    {
      cache := new Cache(image);
      this.g := g;
      block := new nat[LOGSIZE](_ => 0);
      n, outstanding, committing := 0, 0, false;
    }

    /** One locked segment of begin_op. False: the caller goes to sleep. */
    method BeginOp() returns (admitted: bool)
      requires Valid()
      modifies this`outstanding
      ensures Valid()
      ensures admitted <==> Admits(n, old(outstanding), committing)
      ensures admitted <==> !committing && forall more: nat :: more <= (old(outstanding) + 1) * MAXOPBLOCKS ==> HasRoom(n, more)
      ensures outstanding == if admitted then old(outstanding) + 1 else old(outstanding)
    {
      AdmitsExactly(n, outstanding, committing);
      if committing {
        return false;
      } else if n + (outstanding + 1) * MAXOPBLOCKS > LOGSIZE {
        return false;
      }
      outstanding := outstanding + 1;
      admitted := true;
    }

    /** log_write of a held buffer of a home block. */
    method LogWrite(b: nat, me: nat) returns (ok: bool)
      requires Valid() && b < NBUF
      requires cache.bufs[b].valid && cache.bufs[b].holder == Some(me)
      requires !InLog(g, cache.bufs[b].blockno)
      modifies this`n, block, cache.bufs, cache`view, cache`editing
      ensures ok <==> !LogWritePanics(old(n), g.size, outstanding)
      ensures ok <==> old(n) < LOGSIZE && old(n) + 1 < g.size && outstanding >= 1
      ensures !ok ==> n == old(n) && block[..n] == old(block[..n]) && cache.view == old(cache.view)
      ensures ok ==> Valid() && block[..n] == Absorb(old(block[..n]), old(cache.bufs[b].blockno))
      ensures ok ==> block[..n] == if old(cache.bufs[b].blockno) in old(block[..n]) then old(block[..n])
                                   else old(block[..n]) + [old(cache.bufs[b].blockno)]
      ensures ok ==> cache.view == old(cache.view)[old(cache.bufs[b].blockno) := old(cache.bufs[b].data)]
      ensures ok ==> cache.bufs[..] == old(cache.bufs[..])[b := old(cache.bufs[b]).(dirty := true)]
    {
      if n >= LOGSIZE || n + 1 >= g.size {
        return false;
      }
      if outstanding < 1 {
        return false;
      }
      var blockno := cache.bufs[b].blockno;
      assert blockno < |cache.disk|;
      var i := 0;
      while i < n
        invariant 0 <= i <= n
        invariant blockno !in block[..i]
      {
        if block[i] == blockno {
          break;
        }
        i := i + 1;
      }
      ghost var lh := block[..n];
      assert i < n ==> lh[i] == blockno;
      block[i] := blockno;
      if i == n {
        n := n + 1;
      }
      assert block[..n] == Absorb(lh, blockno);
      AbsorbLoggable(g, cache.disk, lh, blockno);
      AbsorbPinned(cache.disk, cache.view, lh, blockno, cache.bufs[b].data);
      hide Loggable, Pinned, Absorb;
      cache.MarkDirty(b, me);
      ok := true;
    }

    /** The two breads of CopyBlock. */
    method ReadTwo(logBlock: nat, home: nat, me: nat) returns (l: Option<nat>, h: Option<nat>)
      requires cache.Valid() && logBlock != home
      requires NobodyHolds(cache.bufs[..], DISK_DEV, logBlock) && NobodyHolds(cache.bufs[..], DISK_DEV, home)
      modifies cache.bufs
      ensures cache.Valid()
      ensures (l.None? || h.None?) && logBlock < |cache.disk| && home < |cache.disk| ==> OutOfBuffers(cache.bufs[..])
      ensures l.Some? && h.Some? ==> l.value < NBUF && h.value < NBUF && l.value != h.value
      ensures l.Some? && h.Some? ==> Fetched(cache.bufs[l.value], logBlock, me) && Fetched(cache.bufs[h.value], home, me)
      ensures l.Some? && h.Some? ==> logBlock < |cache.disk| == |cache.view| && home < |cache.disk|
      ensures l.Some? && h.Some? ==> cache.bufs[l.value].data == cache.view[logBlock] && cache.bufs[h.value].data == cache.view[home]
      ensures l.Some? && h.Some? ==> old(cache.bufs[l.value]).holder.None? && old(cache.bufs[h.value]).holder.None?
      ensures l.Some? && h.Some? ==> l.value !in cache.editing && h.value !in cache.editing
      ensures l.Some? && h.Some? ==>
                cache.bufs[..] == old(cache.bufs[..])[l.value := cache.bufs[l.value]][h.value := cache.bufs[h.value]]
    {
      var w;
      h := None;
      l, w := cache.Bread(DISK_DEV, logBlock, me);
      if l.Some? {
        ghost var bufs := cache.bufs[..];
        assert NobodyHolds(bufs, DISK_DEV, home);
        h, w := cache.Bread(DISK_DEV, home, me);
        assert h.Some? ==> bufs[h.value].holder.None? && h.value != l.value;
      }
    }

    /**
     The body of the loops of write_log and install_trans: read two blocks, copy the first's
     data over the second's, or the other way round, write the copy, release both.
     */
    method CopyBlock(logBlock: nat, home: nat, toLog: bool, me: nat) returns (ok: bool)
      requires cache.Valid() && logBlock != home
      requires NobodyHolds(cache.bufs[..], DISK_DEV, logBlock) && NobodyHolds(cache.bufs[..], DISK_DEV, home)
      modifies cache, cache.bufs, cache.ring, cache.ring.next, cache.ring.prev
      ensures cache.Valid() && cache.editing == old(cache.editing)
      ensures !ok ==> cache.disk == old(cache.disk) && cache.view == old(cache.view) && cache.history == old(cache.history)
      ensures !ok && logBlock < |cache.disk| && home < |cache.disk| ==> OutOfBuffers(cache.bufs[..])
      ensures ok ==> SameHeld(old(cache.bufs[..]), cache.bufs[..]) && logBlock < |old(cache.disk)| && home < |old(cache.disk)|
      ensures ok ==> cache.history == old(cache.history) + [cache.disk]
      ensures ok && toLog ==> cache.disk == old(cache.disk)[logBlock := old(cache.view)[home]] &&
                              cache.view == old(cache.view)[logBlock := old(cache.view)[home]]
      ensures ok && !toLog ==> cache.disk == old(cache.disk)[home := old(cache.view)[logBlock]] &&
                               cache.view == old(cache.view)[home := old(cache.view)[logBlock]]
    {
      hide Cache.Valid, NobodyHolds, OutOfBuffers;
      var l, h := ReadTwo(logBlock, home, me);
      if l.None? || h.None? {
        return false;
      }
      if toLog {
        CopyHeld(h.value, l.value, home, logBlock, me);
      } else {
        CopyHeld(l.value, h.value, logBlock, home, me);
      }
      ok := true;
    }

    /** Copy between two held buffers, write the copy, release both. */
    method CopyHeld(src: nat, dst: nat, ghost from: nat, ghost to: nat, me: nat)
      requires cache.Valid() && src < NBUF == cache.bufs.Length && dst < NBUF && src != dst
      requires Fetched(cache.bufs[src], from, me) && Fetched(cache.bufs[dst], to, me)
      requires src !in cache.editing && dst !in cache.editing && to < |cache.disk| == |cache.view|
      modifies cache, cache.bufs, cache.ring, cache.ring.next, cache.ring.prev
      ensures cache.Valid() && cache.editing == old(cache.editing)
      ensures cache.bufs[src].holder == cache.bufs[dst].holder == None
      ensures cache.bufs[..] == old(cache.bufs[..])[src := cache.bufs[src]][dst := cache.bufs[dst]]
      ensures cache.history == old(cache.history) + [cache.disk]
      ensures cache.disk == old(cache.disk)[to := old(cache.bufs[src].data)]
      ensures cache.view == old(cache.view)[to := old(cache.bufs[src].data)]
    {
      hide Cache.Valid;
      cache.Edit(dst, me, cache.bufs[src].data);
      var w := cache.Bwrite(dst, me);
      var r := cache.Brelse(src, me);
      r := cache.Brelse(dst, me);
    }

    /** write_log: copy the logged blocks from the cache to the log. */
    method WriteLogBlocks(me: nat) returns (ok: bool, ghost done: nat)
      requires cache.Valid() && block.Length == LOGSIZE && n <= LOGSIZE && Quiet(cache.bufs[..], g, block[..n])
      requires block != cache.ring.next && block != cache.ring.prev
      requires Loggable(g, cache.disk, block[..n]) && |cache.view| == |cache.disk|
      modifies cache, cache.bufs, cache.ring, cache.ring.next, cache.ring.prev
      ensures cache.Valid() && done <= n && cache.editing == old(cache.editing)
      ensures !ok ==> OutOfBuffers(cache.bufs[..])
      ensures ok ==> done == n && SameHeld(old(cache.bufs[..]), cache.bufs[..])
      ensures Logged(g, old(cache.disk), old(cache.view), old(cache.history), block[..n], done,
                     cache.disk, cache.view, cache.history)
    {
      hide Cache.Valid, Loggable, Quiet, SameHeld, NobodyHolds, Logged, OutOfBuffers;
      ghost var d, v, h, lh := cache.disk, cache.view, cache.history, block[..n];
      LogStart(g, d, v, h, lh);
      ghost var held := cache.bufs[..];
      assert SameHeld(held, held) by { SameHeldItself(held); }
      var tail := 0;
      done := 0;
      while tail < n
        invariant 0 <= tail <= n && done == tail
        invariant cache.Valid() && cache.editing == old(cache.editing)
        invariant SameHeld(held, cache.bufs[..]) && Quiet(cache.bufs[..], g, lh)
        invariant Logged(g, d, v, h, lh, tail, cache.disk, cache.view, cache.history)
      {
        LogReady(g, d, v, h, lh, tail, cache.disk, cache.view, cache.history);
        assert lh[tail] == block[tail];
        QuietCopy(cache.bufs[..], g, d, lh, tail);
        ghost var disk, view, history, bufs := cache.disk, cache.view, cache.history, cache.bufs[..];
        ok := CopyBlock(g.start + tail + 1, block[tail], true, me);
        if !ok {
          return;
        }
        LogStep(g, d, v, h, lh, tail, disk, view, history, cache.disk, cache.view, cache.history);
        HeldKeepsQuiet(held, bufs, cache.bufs[..], g, lh);
        tail := tail + 1;
        done := done + 1;
      }
      ok := true;
    }

    /** write_head: the in-memory header goes to the header block, whose other words stay. */
    method WriteHead(me: nat) returns (ok: bool)
      requires cache.Valid() && block.Length == LOGSIZE && n <= LOGSIZE && NobodyHolds(cache.bufs[..], DISK_DEV, g.start)
      requires Fits(g, cache.disk) && |cache.view| == |cache.disk|
      requires cache.view[g.start] == cache.disk[g.start]
      modifies cache, cache.bufs, cache.ring, cache.ring.next, cache.ring.prev
      ensures cache.Valid() && cache.editing == old(cache.editing) && (ok ==> SameHeld(old(cache.bufs[..]), cache.bufs[..]))
      ensures !ok ==> cache.disk == old(cache.disk) && cache.view == old(cache.view) && cache.history == old(cache.history)
      ensures !ok ==> OutOfBuffers(cache.bufs[..])
      ensures ok ==> cache.disk == SetHead(g, old(cache.disk), block[..n])
      ensures ok ==> cache.view == SetHead(g, old(cache.view), block[..n])
      ensures ok ==> cache.history == old(cache.history) + [cache.disk]
    {
      assert block != cache.ring.next && block != cache.ring.prev;
      hide Ring.Valid, PutHead;
      var l, w := cache.Bread(DISK_DEV, g.start, me);
      if l.None? {
        return false;
      }
      var hb := FillHead(cache.bufs[l.value].data);
      WriteHeld(l.value, me, hb);
      ok := true;
    }

    /** The loop of write_head. */
    method FillHead(h: Block) returns (r: Block)
      requires block.Length == LOGSIZE && n <= LOGSIZE
      ensures r == PutHead(h, block[..n])
      ensures r.words[0] == n && forall i :: 0 < i < BLOCK_WORDS ==> r.words[i] == if i <= n then block[i - 1] else h.words[i]
    {
      var hb: seq<nat> := h.words[0 := n];
      var i := 0;
      while i < n
        invariant 0 <= i <= n && hb == [n] + block[..i] + h.words[1 + i..]
      {
        hb := hb[1 + i := block[i]];
        i := i + 1;
      }
      r := Block(hb);
    }

    /** Replace the data of a held buffer, write it, release it. */
    method WriteHeld(b: nat, me: nat, data: Block)
      requires cache.Valid() && b < NBUF && cache.bufs[b].valid && b !in cache.editing
      requires cache.bufs[b].holder == Some(me)
      modifies cache, cache.bufs, cache.ring, cache.ring.next, cache.ring.prev
      ensures cache.Valid() && cache.editing == old(cache.editing)
      ensures cache.bufs[..] == old(cache.bufs[..])[b := cache.bufs[b]] && cache.bufs[b].holder.None?
      ensures cache.history == old(cache.history) + [cache.disk]
      ensures old(cache.bufs[b].blockno < |cache.disk| && |cache.view| == |cache.disk|)
      ensures cache.disk == old(cache.disk)[old(cache.bufs[b].blockno) := data]
      ensures cache.view == old(cache.view)[old(cache.bufs[b].blockno) := data]
    {
      assert cache.bufs[b].blockno < |cache.disk| == |cache.view|;
      hide ContentsOk, Ring.Valid;
      cache.Edit(b, me, data);
      var r := cache.Bwrite(b, me);
      r := cache.Brelse(b, me);
    }

    /** The list in memory is not part of the cache, and only held buffers are edited. */
    lemma CacheApart()
      requires cache.Valid() && block.Length == LOGSIZE
      ensures block != cache.ring.next && block != cache.ring.prev && cache.bufs.Length == NBUF
      ensures forall b :: 0 <= b < NBUF && cache.bufs[b].holder.None? ==> b !in cache.editing
    {
    }

    /** read_head: the header on disk becomes the in-memory header. */
    method ReadHead(me: nat) returns (ok: bool)
      requires cache.Valid() && NobodyHolds(cache.bufs[..], DISK_DEV, g.start) && block.Length == LOGSIZE
      requires Fits(g, cache.disk) && |cache.view| == |cache.disk| && cache.view[g.start].words[0] <= LOGSIZE
      modifies this`n, block, cache.bufs, cache.ring, cache.ring.next, cache.ring.prev
      ensures cache.Valid() && (ok ==> SameHeld(old(cache.bufs[..]), cache.bufs[..]))
      ensures !ok ==> OutOfBuffers(cache.bufs[..])
      ensures ok ==> n <= LOGSIZE && block[..n] == GetHead(cache.view[g.start])
    {
      hide Cache.Valid, OutOfBuffers;
      CacheApart();
      var l, w := cache.Bread(DISK_DEV, g.start, me);
      if l.None? {
        return false;
      }
      CopyHead(cache.bufs[l.value].data.words);
      assert l.value !in cache.editing;
      ok := cache.Brelse(l.value, me);
    }

    /** The loop of read_head. */
    method CopyHead(lh: Words)
      requires block.Length == LOGSIZE && lh[0] <= LOGSIZE
      modifies this`n, block
      ensures n == lh[0] && block[..n] == lh[1..1 + n]
    {
      n := lh[0];
      var i := 0;
      while i < n
        invariant 0 <= i <= n == lh[0]
        invariant block[..i] == lh[1..1 + i]
        modifies block
      {
        block[i] := lh[1 + i];
        i := i + 1;
      }
    }

    /** install_trans: copy the logged blocks from the log to their home locations. */
    method InstallTrans(me: nat) returns (ok: bool, ghost done: nat)
      requires cache.Valid() && block.Length == LOGSIZE && n <= LOGSIZE && Quiet(cache.bufs[..], g, block[..n])
      requires block != cache.ring.next && block != cache.ring.prev
      requires Loggable(g, cache.disk, block[..n]) && Loggable(g, cache.view, block[..n])
      requires LogAgrees(g, cache.disk, cache.view, n)
      modifies cache, cache.bufs, cache.ring, cache.ring.next, cache.ring.prev
      ensures cache.Valid() && done <= n && cache.editing == old(cache.editing)
      ensures !ok ==> OutOfBuffers(cache.bufs[..])
      ensures ok ==> done == n && SameHeld(old(cache.bufs[..]), cache.bufs[..])
      ensures Installed(g, old(cache.disk), old(cache.view), old(cache.history), block[..n], done,
                        cache.disk, cache.view, cache.history)
    {
      hide Cache.Valid, Loggable, Quiet, SameHeld, NobodyHolds, Installed, LogAgrees, OutOfBuffers;
      ghost var d, v, h, lh := cache.disk, cache.view, cache.history, block[..n];
      InstallStart(g, d, v, h, lh);
      ghost var held := cache.bufs[..];
      assert SameHeld(held, held) by { SameHeldItself(held); }
      var tail := 0;
      done := 0;
      while tail < n
        invariant 0 <= tail <= n && done == tail
        invariant cache.Valid() && cache.editing == old(cache.editing)
        invariant SameHeld(held, cache.bufs[..]) && Quiet(cache.bufs[..], g, lh)
        invariant Installed(g, d, v, h, lh, tail, cache.disk, cache.view, cache.history)
      {
        InstallReady(g, d, v, h, lh, tail, cache.disk, cache.view, cache.history);
        assert lh[tail] == block[tail];
        QuietCopy(cache.bufs[..], g, d, lh, tail);
        ghost var disk, view, history, bufs := cache.disk, cache.view, cache.history, cache.bufs[..];
        ok := CopyBlock(g.start + tail + 1, block[tail], false, me);
        if !ok {
          return;
        }
        InstallStep(g, d, v, h, lh, tail, disk, view, history, cache.disk, cache.view, cache.history);
        HeldKeepsQuiet(held, bufs, cache.bufs[..], g, lh);
        tail := tail + 1;
        done := done + 1;
      }
      ok := true;
    }

    /**
     commit. Every disk that exists on the way recovers to the home blocks from before the
     commit, up to and without the write of the header, and to all the new ones from then on.
     */
    method Commit(me: nat) returns (ok: bool, ghost done: nat)
      requires Valid() && Quiet(cache.bufs[..], g, block[..n]) && cache.disk[g.start].words[0] == 0
      modifies this`n, cache, cache.bufs, cache.ring, cache.ring.next, cache.ring.prev
      ensures cache.Valid() && cache.editing == old(cache.editing) && done <= 2 * old(n) + 2
      ensures |old(cache.view)| == |old(cache.disk)|
      ensures Loggable(g, old(cache.disk), old(block[..n]))
      ensures cache.history == old(cache.history) + CommitTrace(g, old(cache.disk), old(cache.view), old(block[..n]), done)
      ensures forall k :: |old(cache.history)| <= k < |cache.history| ==>
                Atomic(g, old(cache.disk), old(cache.view), old(block[..n]), cache.history[k])
      ensures !ok ==> OutOfBuffers(cache.bufs[..])
      ensures ok ==> done == if old(n) == 0 then 0 else 2 * old(n) + 2
      ensures ok ==> Valid() && SameHeld(old(cache.bufs[..]), cache.bufs[..]) && n == 0 && cache.disk[g.start].words[0] == 0
      ensures ok ==> cache.view == cache.disk && HomeEqual(g, old(cache.view), cache.view)
    {
      ghost var d, v, h, lh := cache.disk, cache.view, cache.history, block[..n];
      done := 0;
      SameHeldItself(cache.bufs[..]);
      CommitTraceParts(h, g, d, v, lh);
      hide Loggable, Pinned, Cache.Valid, CommitTrace, CommitDisk, Atomic, Quiet, SameHeld, OutOfBuffers;
      if n > 0 {
        ok, done := CommitSome(me);
        if ok {
          CommitDone(g, d, v, lh);
        }
      } else {
        NothingPinned(d, v);
        ok := true;
      }
    }

    /** commit of a header that lists at least one block. */
    method CommitSome(me: nat) returns (ok: bool, ghost done: nat)
      requires Valid() && Quiet(cache.bufs[..], g, block[..n]) && n > 0
      modifies this`n, cache, cache.bufs, cache.ring, cache.ring.next, cache.ring.prev
      ensures cache.Valid() && cache.editing == old(cache.editing) && done <= 2 * old(n) + 2
      ensures |old(cache.view)| == |old(cache.disk)|
      ensures Loggable(g, old(cache.disk), old(block[..n]))
      ensures cache.history == old(cache.history) + CommitTrace(g, old(cache.disk), old(cache.view), old(block[..n]), done)
      ensures !ok ==> OutOfBuffers(cache.bufs[..])
      ensures ok ==> done == 2 * old(n) + 2 && SameHeld(old(cache.bufs[..]), cache.bufs[..]) && n == 0
      ensures ok ==> cache.view == cache.disk == CommitDisk(g, old(cache.disk), old(cache.view), old(block[..n]), 2 * old(n) + 2)
    {
      hide Cache.Valid, Loggable, Pinned, Quiet, SameHeld, NobodyHolds, Logged, CommitTrace, CommitDisk, LogAgrees, SetHead, OutOfBuffers;
      ghost var d, v, h, lh, held := cache.disk, cache.view, cache.history, block[..n], cache.bufs[..];
      ok, done := WriteLogBlocks(me);
      CommitLogged(g, d, v, h, lh, done, cache.disk, cache.view, cache.history);
      if ok {
        CommitHead(g, d, v, h, lh, cache.disk, cache.view, cache.history);
        ghost var logged := cache.bufs[..];
        HeldKeepsQuiet(held, held, logged, g, lh);
        QuietHead(logged, g, cache.disk, lh);
        ok := WriteHead(me);
        if ok {
          done := done + 1;
          HeldKeepsQuiet(held, logged, cache.bufs[..], g, lh);
          ghost var k, committed := 0, cache.bufs[..];
          ok, k := CommitHome(me, d, v, h);
          done := done + k;
          if ok {
            HeldKeepsQuiet(held, committed, cache.bufs[..], g, lh);
          }
        }
      }
    }

    /** The second half of commit: install the blocks, then erase the transaction. */
    method CommitHome(me: nat, ghost d: Disk, ghost v: Disk, ghost h: seq<Disk>) returns (ok: bool, ghost k: nat)
      requires cache.Valid() && block.Length == LOGSIZE && n <= LOGSIZE && Quiet(cache.bufs[..], g, block[..n])
      requires block != cache.ring.next && block != cache.ring.prev
      requires Loggable(g, d, block[..n]) && |v| == |d|
      requires Loggable(g, cache.disk, block[..n]) && Loggable(g, cache.view, block[..n])
      requires LogAgrees(g, cache.disk, cache.view, n) && Pinned(cache.disk, cache.view, block[..n])
      requires cache.disk == CommitDisk(g, d, v, block[..n], n + 1)
      requires cache.history == h + CommitTrace(g, d, v, block[..n], n + 1)
      modifies this`n, cache, cache.bufs, cache.ring, cache.ring.next, cache.ring.prev
      ensures cache.Valid() && k <= old(n) + 1 && cache.editing == old(cache.editing)
      ensures cache.history == h + CommitTrace(g, d, v, old(block[..n]), old(n) + 1 + k)
      ensures !ok ==> OutOfBuffers(cache.bufs[..])
      ensures ok ==> k == old(n) + 1 && SameHeld(old(cache.bufs[..]), cache.bufs[..]) && n == 0
      ensures ok ==> cache.view == cache.disk == CommitDisk(g, d, v, old(block[..n]), 2 * old(n) + 2)
    {
      hide Cache.Valid, Loggable, Pinned, Quiet, SameHeld, NobodyHolds, Installed, LogAgrees, CommitTrace, CommitDisk, SetHead, OutOfBuffers;
      ghost var d', v', lh, held := cache.disk, cache.view, block[..n], cache.bufs[..];
      ok, k := InstallTrans(me);
      CommitInstalled(g, d, v, h, lh, k, d', v', cache.disk, cache.view, cache.history);
      if ok {
        ghost var installed := cache.bufs[..];
        HeldKeepsQuiet(held, held, installed, g, lh);
        CommitUnpinned(g, h + CommitTrace(g, d, v, lh, |lh| + 1), lh, d', v', cache.disk, cache.view, cache.history);
        QuietHead(installed, g, cache.disk, lh);
        n := 0;
        assert block[..n] == [];
        ok := WriteHead(me);
        if ok {
          k := k + 1;
          HeldKeepsQuiet(held, installed, cache.bufs[..], g, lh);
          CommitCleared(g, d, v, h, lh);
        }
      }
    }

    /**
     recover_from_log after a reboot. Every disk on the way recovers to the same disk, so a
     crash during recovery loses nothing.
     */
    method RecoverFromLog(me: nat) returns (ok: bool, ghost done: nat)
      requires Valid() && cache.view == cache.disk && Recoverable(g, cache.disk)
      requires Quiet(cache.bufs[..], g, GetHead(cache.disk[g.start]))
      modifies this`n, block, cache, cache.bufs, cache.ring, cache.ring.next, cache.ring.prev
      ensures cache.Valid() && Fits(g, old(cache.disk)) && done <= old(cache.disk)[g.start].words[0] + 1
      ensures cache.history == old(cache.history) + RecoverTrace(g, old(cache.disk), done)
      ensures !ok ==> OutOfBuffers(cache.bufs[..])
      ensures ok ==> cache.view == cache.disk == Recover(g, old(cache.disk))
      ensures ok ==> Valid() && SameHeld(old(cache.bufs[..]), cache.bufs[..]) && n == 0 && cache.disk[g.start].words[0] == 0
    {
      ghost var d, h, held := cache.disk, cache.history, cache.bufs[..];
      RecoveryStarts(g, d, h);
      QuietHead(held, g, d, GetHead(d[g.start]));
      hide Cache.Valid, Loggable, Quiet, SameHeld, NobodyHolds, Recoverable, Installed, LogAgrees, Recover, RecoverTrace, SetHead, Pinned, GetHead, OutOfBuffers;
      done := 0;
      ok := ReadHead(me);
      if ok {
        ghost var lh, read := block[..n], cache.bufs[..];
        HeldKeepsQuiet(held, held, read, g, lh);
        ok, done := InstallTrans(me);
        RecoveryInstalled(g, d, h, lh, done, cache.disk, cache.view, cache.history);
        if ok {
          HeldKeepsQuiet(held, read, cache.bufs[..], g, lh);
          ok := EraseHead(me, d, held, lh);
          if ok {
            done := done + 1;
          }
        }
      }
    }

    /** The end of recovery: the header is erased. */
    method EraseHead(me: nat, ghost d: Disk, ghost held: seq<Buf>, ghost lh: seq<nat>) returns (ok: bool)
      requires cache.Valid() && block.Length == LOGSIZE && Recoverable(g, d) && Fits(g, cache.disk)
      requires cache.view == cache.disk && SetHead(g, cache.disk, []) == Recover(g, d)
      requires Quiet(held, g, lh) && Quiet(cache.bufs[..], g, lh) && SameHeld(held, cache.bufs[..])
      requires block != cache.ring.next && block != cache.ring.prev
      modifies this`n, cache, cache.bufs, cache.ring, cache.ring.next, cache.ring.prev
      ensures cache.Valid() && (!ok ==> cache.history == old(cache.history) && OutOfBuffers(cache.bufs[..]))
      ensures ok ==> cache.view == cache.disk == Recover(g, d) && cache.history == old(cache.history) + [Recover(g, d)]
      ensures ok ==> Valid() && SameHeld(held, cache.bufs[..]) && n == 0 && cache.disk[g.start].words[0] == 0
    {
      hide Cache.Valid, Loggable, Quiet, SameHeld, NobodyHolds, Recoverable, Recover, SetHead, Pinned, GetHead, OutOfBuffers;
      ghost var installed := cache.bufs[..];
      QuietHead(installed, g, cache.disk, lh);
      n := 0;
      assert block[..n] == [];
      ok := WriteHead(me);
      if ok {
        HeldKeepsQuiet(held, installed, cache.bufs[..], g, lh);
        RecoveryEnds(g, d);
      }
    }

    /**
     The locked start of end_op. `commit` tells the caller to run commit and then EndCommit.
     False for `ok` is the panic on log.committing.
     */
    method EndOp() returns (ok: bool, commit: bool)
      requires Valid() && outstanding > 0
      modifies this`outstanding, this`committing
      ensures Valid() && outstanding == old(outstanding) - 1
      ensures ok <==> !old(committing)
      ensures commit <==> ok && outstanding == 0
      ensures committing <==> old(committing) || commit
    {
      commit := false;
      outstanding := outstanding - 1;
      if committing {
        return false, false;
      }
      if outstanding == 0 {
        commit := true;
        committing := true;
      }
      ok := true;
    }

    /** The locked end of end_op after a commit. */
    method EndCommit()
      requires Valid()
      modifies this`committing
      ensures Valid() && !committing
    {
      committing := false;
    }
  }

  // ---------- how far a run over the log has got ----------

  /** `k` blocks are in the log: the disk, the cached view, and every disk on the way. */
  ghost predicate Logged(g: Layout, d: Disk, v: Disk, h: seq<Disk>, lh: seq<nat>, k: nat,
                         disk: Disk, view: Disk, history: seq<Disk>)
  {
    && Loggable(g, d, lh) && |v| == |d| && k <= |lh|
    && disk == WriteLog(g, d, v, lh, k) && view == WriteLog(g, v, v, lh, k)
    && history == h + LogTrace(g, d, v, lh, k)
  }

  lemma LogStart(g: Layout, d: Disk, v: Disk, h: seq<Disk>, lh: seq<nat>)
    requires Loggable(g, d, lh) && |v| == |d|
    ensures Logged(g, d, v, h, lh, 0, d, v, h)
  {
  }

  lemma LogReady(g: Layout, d: Disk, v: Disk, h: seq<Disk>, lh: seq<nat>, k: nat, disk: Disk, view: Disk, history: seq<Disk>)
    requires Logged(g, d, v, h, lh, k, disk, view, history) && k < |lh|
    ensures |disk| == |view| == |d| && g.start + k + 1 < |d| && lh[k] < |d| && lh[k] != g.start + k + 1
    ensures view[lh[k]] == v[lh[k]]
  {
    assert InLog(g, g.start + k + 1);
  }

  lemma LogStep(g: Layout, d: Disk, v: Disk, h: seq<Disk>, lh: seq<nat>, k: nat, disk: Disk, view: Disk, history: seq<Disk>,
                disk': Disk, view': Disk, history': seq<Disk>)
    requires k < |lh| && Logged(g, d, v, h, lh, k, disk, view, history)
    requires |disk| == |view| == |d| && g.start + k + 1 < |d| && lh[k] < |d|
    requires disk' == disk[g.start + k + 1 := view[lh[k]]] && view' == view[g.start + k + 1 := view[lh[k]]]
    requires history' == history + [disk']
    ensures Logged(g, d, v, h, lh, k + 1, disk', view', history')
  {
    LogReady(g, d, v, h, lh, k, disk, view, history);
  }

  /** The data blocks of the log are the same on disk and in the cache. */
  ghost predicate LogAgrees(g: Layout, disk: Disk, view: Disk, n: nat)
  {
    g.start + n < |disk| == |view| && forall b :: g.start < b <= g.start + n ==> view[b] == disk[b]
  }

  /** `k` blocks are installed. */
  ghost predicate Installed(g: Layout, d: Disk, v: Disk, h: seq<Disk>, lh: seq<nat>, k: nat,
                            disk: Disk, view: Disk, history: seq<Disk>)
  {
    && Loggable(g, d, lh) && Loggable(g, v, lh) && LogAgrees(g, d, v, |lh|) && k <= |lh|
    && disk == Install(g, d, lh, k) && view == Install(g, v, lh, k)
    && history == h + InstallTrace(g, d, lh, k)
  }

  lemma InstallStart(g: Layout, d: Disk, v: Disk, h: seq<Disk>, lh: seq<nat>)
    requires Loggable(g, d, lh) && Loggable(g, v, lh) && LogAgrees(g, d, v, |lh|)
    ensures Installed(g, d, v, h, lh, 0, d, v, h)
  {
  }

  lemma InstallReady(g: Layout, d: Disk, v: Disk, h: seq<Disk>, lh: seq<nat>, k: nat, disk: Disk, view: Disk, history: seq<Disk>)
    requires Installed(g, d, v, h, lh, k, disk, view, history) && k < |lh|
    ensures |disk| == |view| == |d| && g.start + k + 1 < |d| && lh[k] < |d| && lh[k] != g.start + k + 1
    ensures view[g.start + k + 1] == disk[g.start + k + 1]
  {
    LogBlockKept(g, d, lh, k);
    LogBlockKept(g, v, lh, k);
    assert v[g.start + k + 1] == d[g.start + k + 1];
  }

  lemma InstallStep(g: Layout, d: Disk, v: Disk, h: seq<Disk>, lh: seq<nat>, k: nat, disk: Disk, view: Disk, history: seq<Disk>,
                    disk': Disk, view': Disk, history': seq<Disk>)
    requires k < |lh| && Installed(g, d, v, h, lh, k, disk, view, history)
    requires |disk| == |view| == |d| && g.start + k + 1 < |d| && lh[k] < |d|
    requires disk' == disk[lh[k] := view[g.start + k + 1]] && view' == view[lh[k] := view[g.start + k + 1]]
    requires history' == history + [disk']
    ensures Installed(g, d, v, h, lh, k + 1, disk', view', history')
  {
    InstallReady(g, d, v, h, lh, k, disk, view, history);
  }

  // ---------- commit from one end to the other ----------

  lemma LogKeepsPinned(g: Layout, d: Disk, v: Disk, lh: seq<nat>)
    requires Loggable(g, d, lh) && Pinned(d, v, lh)
    ensures Loggable(g, v, lh)
    ensures Pinned(WriteLog(g, d, v, lh, |lh|), WriteLog(g, v, v, lh, |lh|), lh)
    ensures LogAgrees(g, WriteLog(g, d, v, lh, |lh|), WriteLog(g, v, v, lh, |lh|), |lh|)
  {
    hide WriteLog, Distinct;
    var w, wv := WriteLog(g, d, v, lh, |lh|), WriteLog(g, v, v, lh, |lh|);
    forall b | g.start < b <= g.start + |lh| ensures wv[b] == w[b] {
      var i := b - g.start - 1;
      assert w[g.start + 1 + i] == v[lh[i]];
    }
  }

  lemma HeadKeepsPinned(g: Layout, d: Disk, v: Disk, lh: seq<nat>)
    requires Loggable(g, d, lh) && Pinned(d, v, lh) && LogAgrees(g, d, v, |lh|)
    ensures Loggable(g, v, lh) && v[g.start] == d[g.start]
    ensures Loggable(g, SetHead(g, d, lh), lh) && Loggable(g, SetHead(g, v, lh), lh)
    ensures Pinned(SetHead(g, d, lh), SetHead(g, v, lh), lh)
    ensures LogAgrees(g, SetHead(g, d, lh), SetHead(g, v, lh), |lh|)
  {
    hide PutHead, Distinct;
    assert InLog(g, g.start);
  }

  lemma InstallUnpins(g: Layout, d: Disk, v: Disk, lh: seq<nat>)
    requires Loggable(g, d, lh) && Pinned(d, v, lh) && LogAgrees(g, d, v, |lh|) && Loggable(g, v, lh)
    ensures Install(g, v, lh, |lh|) == Install(g, d, lh, |lh|)
  {
    hide Install, Distinct;
    var e, ev := Install(g, d, lh, |lh|), Install(g, v, lh, |lh|);
    assert lh[..|lh|] == lh;
    forall b: nat | b < |d| ensures ev[b] == e[b] {
      if b in lh {
        var i: nat :| i < |lh| && lh[i] == b;
        InstalledBlock(g, d, lh, |lh|, i);
        InstalledBlock(g, v, lh, |lh|, i);
      } else {
        UntouchedBlock(g, d, lh, |lh|, b);
        UntouchedBlock(g, v, lh, |lh|, b);
      }
    }
  }

  lemma CommitLogged(g: Layout, d: Disk, v: Disk, h: seq<Disk>, lh: seq<nat>, k: nat,
                     disk: Disk, view: Disk, history: seq<Disk>)
    requires Logged(g, d, v, h, lh, k, disk, view, history)
    ensures history == h + CommitTrace(g, d, v, lh, k)
  {
    hide Loggable, WriteLog;
    assert LogTrace(g, d, v, lh, k) == CommitTrace(g, d, v, lh, k);
  }

  lemma CommitHead(g: Layout, d: Disk, v: Disk, h: seq<Disk>, lh: seq<nat>,
                   disk: Disk, view: Disk, history: seq<Disk>)
    requires Loggable(g, d, lh) && Pinned(d, v, lh)
    requires Logged(g, d, v, h, lh, |lh|, disk, view, history)
    ensures Fits(g, disk) && |lh| <= LOGSIZE && |disk| == |view|
    ensures view[g.start] == disk[g.start]
    ensures history + [SetHead(g, disk, lh)] == h + CommitTrace(g, d, v, lh, |lh| + 1)
    ensures Loggable(g, SetHead(g, disk, lh), lh) && Loggable(g, SetHead(g, view, lh), lh)
    ensures Pinned(SetHead(g, disk, lh), SetHead(g, view, lh), lh)
    ensures LogAgrees(g, SetHead(g, disk, lh), SetHead(g, view, lh), |lh|)
    ensures SetHead(g, disk, lh) == CommitDisk(g, d, v, lh, |lh| + 1)
  {
    CommitLogged(g, d, v, h, lh, |lh|, disk, view, history);
    LogKeepsPinned(g, d, v, lh);
    LoggedLoggable(g, d, v, lh);
    HeadKeepsPinned(g, disk, view, lh);
    LogFitsDisk(g, disk, lh);
    hide Loggable, Pinned, LogAgrees, WriteLog, SetHead;
    assert Install(g, SetHead(g, disk, lh), lh, 0) == SetHead(g, disk, lh);
  }

  lemma LoggedLoggable(g: Layout, d: Disk, v: Disk, lh: seq<nat>)
    requires Loggable(g, d, lh) && |v| == |d|
    ensures Loggable(g, WriteLog(g, d, v, lh, |lh|), lh)
  {
    hide WriteLog, Loggable;
    SizeLoggable(g, d, WriteLog(g, d, v, lh, |lh|), lh);
  }

  lemma LogFitsDisk(g: Layout, d: Disk, lh: seq<nat>)
    requires Loggable(g, d, lh)
    ensures Fits(g, d) && |lh| <= LOGSIZE
  {
  }

  lemma CommitDiskInstall(g: Layout, d: Disk, v: Disk, lh: seq<nat>, k: nat)
    requires Loggable(g, d, lh) && |v| == |d| && k <= |lh|
    requires Loggable(g, CommitDisk(g, d, v, lh, |lh| + 1), lh)
    ensures CommitDisk(g, d, v, lh, |lh| + 1 + k) == Install(g, CommitDisk(g, d, v, lh, |lh| + 1), lh, k)
  {
    hide Loggable, WriteLog, SetHead;
  }

  lemma CommitInstalled(g: Layout, d: Disk, v: Disk, h: seq<Disk>, lh: seq<nat>, k: nat, d': Disk, v': Disk,
                        disk: Disk, view: Disk, history: seq<Disk>)
    requires Loggable(g, d, lh) && |v| == |d| && d' == CommitDisk(g, d, v, lh, |lh| + 1)
    requires Installed(g, d', v', h + CommitTrace(g, d, v, lh, |lh| + 1), lh, k, disk, view, history)
    ensures disk == CommitDisk(g, d, v, lh, |lh| + 1 + k)
    ensures history == h + CommitTrace(g, d, v, lh, |lh| + 1 + k)
  {
    hide Loggable, LogAgrees, CommitDisk, Install;
    CommitDiskInstall(g, d, v, lh, k);
    var t, u := CommitTrace(g, d, v, lh, |lh| + 1) + InstallTrace(g, d', lh, k), CommitTrace(g, d, v, lh, |lh| + 1 + k);
    forall i | 0 <= i < |u| ensures t[i] == u[i] {
      assert u[i] == CommitDisk(g, d, v, lh, i + 1);
      if i > |lh| {
        CommitDiskInstall(g, d, v, lh, i - |lh|);
      }
    }
    assert t == u;
  }

  lemma CommitUnpinned(g: Layout, h: seq<Disk>, lh: seq<nat>, d: Disk, v: Disk,
                       disk: Disk, view: Disk, history: seq<Disk>)
    requires Pinned(d, v, lh) && Installed(g, d, v, h, lh, |lh|, disk, view, history)
    ensures view == disk && Fits(g, disk)
  {
    hide Loggable, Pinned, LogAgrees, Install;
    InstallUnpins(g, d, v, lh);
    LogFitsDisk(g, d, lh);
  }

  lemma CommitCleared(g: Layout, d: Disk, v: Disk, h: seq<Disk>, lh: seq<nat>)
    requires Loggable(g, d, lh) && |v| == |d| && Fits(g, CommitDisk(g, d, v, lh, 2 * |lh| + 1))
    ensures CommitDisk(g, d, v, lh, 2 * |lh| + 2) == SetHead(g, CommitDisk(g, d, v, lh, 2 * |lh| + 1), [])
    ensures h + CommitTrace(g, d, v, lh, 2 * |lh| + 1) + [CommitDisk(g, d, v, lh, 2 * |lh| + 2)]
         == h + CommitTrace(g, d, v, lh, 2 * |lh| + 2)
  {
    hide Loggable, WriteLog, SetHead, Install;
  }

  /** After a whole commit the disk holds what the cache showed before it, and an empty log. */
  lemma CommitDone(g: Layout, d: Disk, v: Disk, lh: seq<nat>)
    requires Loggable(g, d, lh) && Pinned(d, v, lh) && d[g.start].words[0] == 0
    ensures var e := CommitDisk(g, d, v, lh, 2 * |lh| + 2);
            Loggable(g, e, []) && e[g.start].words[0] == 0 && HomeEqual(g, v, e) && Pinned(e, e, [])
  {
    hide WriteLog, Install;
    var e := CommitDisk(g, d, v, lh, 2 * |lh| + 2);
    var w := WriteLog(g, d, v, lh, |lh|);
    HeaderCommits(g, d, v, lh, w);
    assert e == Recover(g, SetHead(g, w, lh));
  }

  lemma CommitTraceParts(h: seq<Disk>, g: Layout, d: Disk, v: Disk, lh: seq<nat>)
    requires Loggable(g, d, lh) && |v| == |d| && d[g.start].words[0] == 0
    ensures h == h + CommitTrace(g, d, v, lh, 0)
    ensures forall m: nat, k :: m <= 2 * |lh| + 2 && |h| <= k < |h| + m ==>
              Atomic(g, d, v, lh, (h + CommitTrace(g, d, v, lh, m))[k])
  {
    hide Loggable, Atomic, CommitDisk;
    forall m: nat, k | m <= 2 * |lh| + 2 && |h| <= k < |h| + m
      ensures Atomic(g, d, v, lh, (h + CommitTrace(g, d, v, lh, m))[k])
    {
      CommitTraceAtomic(g, d, v, lh, m);
      assert (h + CommitTrace(g, d, v, lh, m))[k] == CommitTrace(g, d, v, lh, m)[k - |h|];
    }
  }

  lemma NothingPinned(d: Disk, v: Disk)
    requires Pinned(d, v, [])
    ensures v == d
  {
  }

  // ---------- recovery ----------

  lemma RecoveryStarts(g: Layout, d: Disk, h: seq<Disk>)
    requires Recoverable(g, d)
    ensures Fits(g, d) && d[g.start].words[0] <= LOGSIZE && |GetHead(d[g.start])| == d[g.start].words[0]
    ensures Loggable(g, d, GetHead(d[g.start])) && LogAgrees(g, d, d, |GetHead(d[g.start])|)
    ensures h == h + RecoverTrace(g, d, 0)
  {
  }

  lemma RecoveryInstalled(g: Layout, d: Disk, h: seq<Disk>, lh: seq<nat>, k: nat, disk: Disk, view: Disk, history: seq<Disk>)
    requires Recoverable(g, d) && lh == GetHead(d[g.start])
    requires Installed(g, d, d, h, lh, k, disk, view, history)
    ensures view == disk && Fits(g, disk)
    ensures history == h + RecoverTrace(g, d, k)
    ensures k == |lh| ==> SetHead(g, disk, []) == Recover(g, d)
    ensures k == |lh| ==> h + RecoverTrace(g, d, k) + [Recover(g, d)] == h + RecoverTrace(g, d, k + 1)
  {
    hide Loggable, LogAgrees, Install;
    LogFitsDisk(g, d, lh);
  }

  lemma RecoveryEnds(g: Layout, d: Disk)
    requires Recoverable(g, d)
    ensures Loggable(g, Recover(g, d), []) && Pinned(Recover(g, d), Recover(g, d), [])
    ensures Recover(g, d)[g.start].words[0] == 0
  {
    hide Install;
  }

  lemma LogBlockKept(g: Layout, d: Disk, lh: seq<nat>, k: nat)
    requires Loggable(g, d, lh) && k < |lh|
    ensures g.start + k + 1 < |d| && lh[k] < |d| && lh[k] != g.start + k + 1
    ensures Install(g, d, lh, k)[g.start + k + 1] == d[g.start + k + 1]
    ensures Install(g, d, lh, k + 1) == Install(g, d, lh, k)[lh[k] := d[g.start + k + 1]]
  {
    LogUntouched(g, d, lh, k, k + 1);
    assert InLog(g, g.start + k + 1);
  }

  lemma AbsorbLoggable(g: Layout, d: Disk, lh: seq<nat>, b: nat)
    requires Loggable(g, d, lh) && |lh| < LOGSIZE && |lh| + 1 < g.size
    requires b < |d| && !InLog(g, b)
    ensures Loggable(g, d, Absorb(lh, b))
  {
  }

  lemma AbsorbPinned(disk: Disk, view: Disk, lh: seq<nat>, b: nat, data: Block)
    requires Pinned(disk, view, lh) && b < |disk|
    ensures Pinned(disk, view[b := data], Absorb(lh, b))
  {
  }
}
