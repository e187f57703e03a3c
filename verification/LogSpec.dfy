/** What the redo log of fs/sfs/log.c does to the disk, one block write at a time. */
module LogSpec {
  import opened Blocks

  /**
   The log area is the header block `start` followed by `size - 1` data blocks; every other block
   is a home block. A crash may fall between any two block writes.
   */

  datatype Layout = Layout(start: nat, size: nat)

  predicate InLog(g: Layout, b: nat) { g.start <= b < g.start + g.size }

  /** The log area has its header block and lies on the disk. */
  predicate Fits(g: Layout, d: Disk) { 0 < g.size && g.start + g.size <= |d| }

  // ---------- the header block ----------

  /** write_head: the count and the block numbers; the other words of the block stay. */
  function PutHead(h: Block, lh: seq<nat>): (r: Block)
    requires |lh| <= LOGSIZE
  {
    Block([|lh|] + lh + h.words[1 + |lh|..])
  }

  /** read_head of a header that a write_head left behind. */
  function GetHead(h: Block): (lh: seq<nat>)
    requires h.words[0] <= LOGSIZE
  {
    h.words[1..1 + h.words[0]]
  }

  lemma HeadRoundTrip(h: Block, lh: seq<nat>)
    requires |lh| <= LOGSIZE
    ensures PutHead(h, lh).words[0] == |lh| && GetHead(PutHead(h, lh)) == lh
    ensures forall i :: 0 <= i < |lh| ==> PutHead(h, lh).words[1 + i] == lh[i]
    ensures forall i :: |lh| < i < BLOCK_WORDS ==> PutHead(h, lh).words[i] == h.words[i]
  {
  }

  ghost predicate Distinct(s: seq<nat>)
  {
    forall i, j :: 0 <= i < j < |s| ==> s[i] != s[j]
  }

  /** A list of logged blocks: distinct home blocks, no more than the log can hold. */
  ghost predicate Loggable(g: Layout, d: Disk, lh: seq<nat>)
  {
    && Fits(g, d) && |lh| <= LOGSIZE && |lh| < g.size
    && (forall i :: 0 <= i < |lh| ==> lh[i] < |d| && !InLog(g, lh[i]))
    && Distinct(lh)
  }

  /** The header on disk describes loggable blocks. Every disk the system writes is like this. */
  ghost predicate Recoverable(g: Layout, d: Disk)
  {
    && Fits(g, d)
    && d[g.start].words[0] <= LOGSIZE
    && Loggable(g, d, GetHead(d[g.start]))
  }

  // ---------- installing and recovering ----------

  /** install_trans, stopped after its first `k` block writes. */
  function Install(g: Layout, d: Disk, lh: seq<nat>, k: nat): (r: Disk)
    requires Loggable(g, d, lh) && k <= |lh|
    ensures |r| == |d|
  {
    if k == 0 then d
    else
      var e := Install(g, d, lh, k - 1);
      e[lh[k - 1] := e[g.start + k]]
  }

  lemma {:induction false} UntouchedBlock(g: Layout, d: Disk, lh: seq<nat>, k: nat, b: nat)
    requires Loggable(g, d, lh) && k <= |lh| && b < |d| && b !in lh[..k]
    ensures Install(g, d, lh, k)[b] == d[b]
  {
    if k > 0 {
      assert lh[..k] == lh[..k - 1] + [lh[k - 1]];
      UntouchedBlock(g, d, lh, k - 1, b);
    }
  }

  /** The log area itself is not installed over. */
  lemma LogUnlisted(g: Layout, d: Disk, lh: seq<nat>, k: nat, i: nat)
    requires Loggable(g, d, lh) && k <= |lh| && i <= |lh|
    ensures g.start + i < |d| && g.start + i !in lh[..k]
  {
    hide Distinct;
    assert InLog(g, g.start + i);
  }

  lemma LogUntouched(g: Layout, d: Disk, lh: seq<nat>, k: nat, i: nat)
    requires Loggable(g, d, lh) && k <= |lh| && i <= |lh|
    ensures g.start + i < |d| && Install(g, d, lh, k)[g.start + i] == d[g.start + i]
  {
    LogUnlisted(g, d, lh, k, i);
    UntouchedBlock(g, d, lh, k, g.start + i);
  }

  lemma {:induction false} InstalledBlock(g: Layout, d: Disk, lh: seq<nat>, k: nat, i: nat)
    requires Loggable(g, d, lh) && i < k <= |lh|
    ensures lh[i] < |d| && g.start + 1 + i < |d| && Install(g, d, lh, k)[lh[i]] == d[g.start + 1 + i]
  {
    LogUntouched(g, d, lh, k - 1, i + 1);
    if i < k - 1 {
      InstalledBlock(g, d, lh, k - 1, i);
    }
  }

  /** The disks that exist during the first `k` writes of install_trans, after each write. */
  ghost function InstallTrace(g: Layout, d: Disk, lh: seq<nat>, k: nat): (t: seq<Disk>)
    requires Loggable(g, d, lh) && k <= |lh|
    ensures |t| == k && forall i :: 0 <= i < k ==> t[i] == Install(g, d, lh, i + 1)
  {
    seq(k, i requires 0 <= i < k => Install(g, d, lh, i + 1))
  }

  function SetHead(g: Layout, d: Disk, lh: seq<nat>): (r: Disk)
    requires Fits(g, d) && |lh| <= LOGSIZE
  {
    d[g.start := PutHead(d[g.start], lh)]
  }

  /** recover_from_log run to its end. */
  function Recover(g: Layout, d: Disk): (r: Disk)
    requires Recoverable(g, d)
  {
    var lh := GetHead(d[g.start]);
    SetHead(g, Install(g, d, lh, |lh|), [])
  }

  /** Recovery stopped by a crash after `k` of its installs. */
  function RecoverPartly(g: Layout, d: Disk, k: nat): (r: Disk)
    requires Recoverable(g, d) && k <= d[g.start].words[0]
  {
    Install(g, d, GetHead(d[g.start]), k)
  }

  /** Installing again over a partial install gives the full install. */
  lemma InstallAbsorbs(g: Layout, d: Disk, lh: seq<nat>, k: nat)
    requires Loggable(g, d, lh) && k <= |lh|
    ensures Loggable(g, Install(g, d, lh, k), lh)
    ensures Install(g, Install(g, d, lh, k), lh, |lh|) == Install(g, d, lh, |lh|)
  {
    hide Install, Distinct;
    var e := Install(g, d, lh, k);
    var x, y := Install(g, e, lh, |lh|), Install(g, d, lh, |lh|);
    forall b: nat | b < |d| ensures x[b] == y[b] {
      if b in lh {
        var i: nat :| i < |lh| && lh[i] == b;
        InstalledBlock(g, e, lh, |lh|, i);
        LogUntouched(g, d, lh, k, i + 1);
        InstalledBlock(g, d, lh, |lh|, i);
      } else {
        UntouchedBlock(g, e, lh, |lh|, b);
        UntouchedBlock(g, d, lh, k, b);
        UntouchedBlock(g, d, lh, |lh|, b);
      }
    }
  }

  /** A recovery cut short leaves a disk that recovers to the same disk. */
  lemma RecoverAfterCrash(g: Layout, d: Disk, k: nat)
    requires Recoverable(g, d) && k <= d[g.start].words[0]
    ensures Recoverable(g, RecoverPartly(g, d, k))
    ensures Recover(g, RecoverPartly(g, d, k)) == Recover(g, d)
  {
    var lh := GetHead(d[g.start]);
    InstallAbsorbs(g, d, lh, k);
    LogUntouched(g, d, lh, k, 0);
  }

  /** Recovering a recovered disk changes nothing. */
  lemma RecoverIdempotent(g: Layout, d: Disk)
    requires Recoverable(g, d)
    ensures Recoverable(g, Recover(g, d)) && Recover(g, Recover(g, d)) == Recover(g, d)
  {
    var lh := GetHead(d[g.start]);
    var e := Install(g, d, lh, |lh|);
    var r := Recover(g, d);
    HeadRoundTrip(e[g.start], []);
    assert PutHead(r[g.start], []) == r[g.start];
    assert Install(g, r, [], 0) == r;
  }

  /** Any number of crashed recoveries, then one that completes. */
  ghost predicate CrashedRecoveries(g: Layout, d: Disk, ks: seq<nat>)
    decreases |ks|
  {
    && Recoverable(g, d)
    && (ks != [] ==> ks[0] <= d[g.start].words[0] && CrashedRecoveries(g, RecoverPartly(g, d, ks[0]), ks[1..]))
  }

  ghost function AfterCrashes(g: Layout, d: Disk, ks: seq<nat>): Disk
    requires CrashedRecoveries(g, d, ks)
    ensures Recoverable(g, AfterCrashes(g, d, ks))
    decreases |ks|
  {
    if ks == [] then d else AfterCrashes(g, RecoverPartly(g, d, ks[0]), ks[1..])
  }

  lemma {:induction false} RepeatedCrashes(g: Layout, d: Disk, ks: seq<nat>)
    requires CrashedRecoveries(g, d, ks)
    ensures Recover(g, AfterCrashes(g, d, ks)) == Recover(g, d)
    decreases |ks|
  {
    if ks != [] {
      RecoverAfterCrash(g, d, ks[0]);
      RepeatedCrashes(g, RecoverPartly(g, d, ks[0]), ks[1..]);
    }
  }

  // ---------- committing ----------

  /** The first `k` log blocks hold the listed blocks of `view`. */
  ghost predicate Slots(g: Layout, view: Disk, lh: seq<nat>, k: nat, r: Disk)
  {
    && k <= |lh| && g.start + k < |r|
    && forall i {:trigger lh[i]} :: 0 <= i < k ==> lh[i] < |view| && r[g.start + 1 + i] == view[lh[i]]
  }

  /** write_log, stopped after its first `k` block writes: log block i gets the cached block lh[i]. */
  function WriteLog(g: Layout, d: Disk, view: Disk, lh: seq<nat>, k: nat): (r: Disk)
    requires Loggable(g, d, lh) && |view| == |d| && k <= |lh|
    ensures |r| == |d|
    ensures forall b :: 0 <= b < |d| && !(g.start < b <= g.start + k) ==> r[b] == d[b]
    ensures Slots(g, view, lh, k, r)
  {
    if k == 0 then d else WriteLog(g, d, view, lh, k - 1)[g.start + k := view[lh[k - 1]]]
  }

  /** The disks that exist during the first `k` writes of write_log, after each write. */
  ghost function LogTrace(g: Layout, d: Disk, view: Disk, lh: seq<nat>, k: nat): (t: seq<Disk>)
    requires Loggable(g, d, lh) && |view| == |d| && k <= |lh|
    ensures |t| == k && forall i :: 0 <= i < k ==> t[i] == WriteLog(g, d, view, lh, i + 1)
  {
    if k == 0 then [] else LogTrace(g, d, view, lh, k - 1) + [WriteLog(g, d, view, lh, k)]
  }

  /** The disk after the n-th block write of commit, for n from 0 to 2 * |lh| + 2. */
  function CommitDisk(g: Layout, d: Disk, view: Disk, lh: seq<nat>, n: nat): (r: Disk)
    requires Loggable(g, d, lh) && |view| == |d| && n <= 2 * |lh| + 2
  {
    if n <= |lh| then WriteLog(g, d, view, lh, n)
    else
      var h := SetHead(g, WriteLog(g, d, view, lh, |lh|), lh);
      if n <= 2 * |lh| + 1 then Install(g, h, lh, n - |lh| - 1)
      else SetHead(g, Install(g, h, lh, |lh|), [])
  }

  /** The disks that exist during the first `m` block writes of commit, after each write. */
  ghost function CommitTrace(g: Layout, d: Disk, view: Disk, lh: seq<nat>, m: nat): (t: seq<Disk>)
    requires Loggable(g, d, lh) && |view| == |d| && m <= 2 * |lh| + 2
    ensures |t| == m && forall i :: 0 <= i < m ==> t[i] == CommitDisk(g, d, view, lh, i + 1)
  {
    if m == 0 then [] else CommitTrace(g, d, view, lh, m - 1) + [CommitDisk(g, d, view, lh, m)]
  }

  /** The logged blocks take their new contents, all of them. */
  ghost predicate Updated(g: Layout, d: Disk, view: Disk, lh: seq<nat>, r: Disk)
  {
    && |r| == |d| == |view|
    && forall b :: 0 <= b < |d| && !InLog(g, b) ==> r[b] == if b in lh then view[b] else d[b]
  }

  ghost predicate HomeEqual(g: Layout, d: Disk, r: Disk)
  {
    |r| == |d| && forall b :: 0 <= b < |d| && !InLog(g, b) ==> r[b] == d[b]
  }

  /** Once the header is written, recovery ends the same wherever the crash falls. */
  lemma AfterHeader(g: Layout, h: Disk, lh: seq<nat>, n: nat)
    requires Recoverable(g, h) && GetHead(h[g.start]) == lh && h[g.start].words[0] == |lh| && |lh| < n <= 2 * |lh| + 2
    requires Loggable(g, h, lh)
    ensures var x := if n <= 2 * |lh| + 1 then Install(g, h, lh, n - |lh| - 1) else SetHead(g, Install(g, h, lh, |lh|), []);
            Recoverable(g, x) && Recover(g, x) == Recover(g, h)
  {
    hide Recoverable, Loggable, SetHead, GetHead, Install;
    LogFits(g, h, lh);
    if n <= 2 * |lh| + 1 {
      RecoverAfterCrash(g, h, n - |lh| - 1);
    } else {
      RecoverIdempotent(g, h);
    }
  }

  /**
   Crash atomicity: whichever block write of commit is the last before the crash, recovery
   leaves every home block as before the commit, or every home block as after it; the
   change-over is the write of the header.
   */
  lemma CommitCrashAtomic(g: Layout, d: Disk, view: Disk, lh: seq<nat>, n: nat)
    requires Loggable(g, d, lh) && |view| == |d| && n <= 2 * |lh| + 2
    requires d[g.start].words[0] == 0
    ensures Recoverable(g, CommitDisk(g, d, view, lh, n))
    ensures n <= |lh| ==> HomeEqual(g, d, Recover(g, CommitDisk(g, d, view, lh, n)))
    ensures n > |lh| ==> Updated(g, d, view, lh, Recover(g, CommitDisk(g, d, view, lh, n)))
  {
    hide Recoverable, Loggable, SetHead, Updated, GetHead, PutHead, HomeEqual, Install, WriteLog, Recover, Slots;
    if n <= |lh| {
      LogWritesAreInvisible(g, d, view, lh, n);
    } else {
      var w := WriteLog(g, d, view, lh, |lh|);
      LoggedContents(g, d, view, lh, w);
      LogFits(g, w, lh);
      HeaderCommits(g, d, view, lh, w);
      HeaderDescribes(g, w, lh);
      AfterHeader(g, SetHead(g, w, lh), lh, n);
    }
  }

  /** A disk that recovers to all the old home blocks or to all the new ones. */
  ghost predicate Atomic(g: Layout, d: Disk, view: Disk, lh: seq<nat>, x: Disk)
  {
    && Recoverable(g, x)
    && (HomeEqual(g, d, Recover(g, x)) || Updated(g, d, view, lh, Recover(g, x)))
  }

  lemma CommitTraceAtomic(g: Layout, d: Disk, view: Disk, lh: seq<nat>, m: nat)
    requires Loggable(g, d, lh) && |view| == |d| && m <= 2 * |lh| + 2
    requires d[g.start].words[0] == 0
    ensures forall x :: x in CommitTrace(g, d, view, lh, m) ==> Atomic(g, d, view, lh, x)
  {
    hide Loggable, Recoverable, HomeEqual, Updated, CommitDisk, Recover;
    var t := CommitTrace(g, d, view, lh, m);
    forall i | 0 <= i < m ensures Atomic(g, d, view, lh, t[i]) {
      CommitCrashAtomic(g, d, view, lh, i + 1);
    }
  }

  /** The disks of a recovery that is stopped after `m` block writes; the last write clears the header. */
  ghost function RecoverTrace(g: Layout, d: Disk, m: nat): (t: seq<Disk>)
    requires Recoverable(g, d) && m <= d[g.start].words[0] + 1
  {
    var lh := GetHead(d[g.start]);
    if m <= |lh| then InstallTrace(g, d, lh, m) else InstallTrace(g, d, lh, |lh|) + [Recover(g, d)]
  }

  /** Wherever a recovery stops, the next recovery ends as this one would have. */
  lemma RecoverTraceAtomic(g: Layout, d: Disk, m: nat)
    requires Recoverable(g, d) && m <= d[g.start].words[0] + 1
    ensures forall x :: x in RecoverTrace(g, d, m) ==> Recoverable(g, x) && Recover(g, x) == Recover(g, d)
  {
    hide Loggable, Recover, Install;
    var t, n := RecoverTrace(g, d, m), d[g.start].words[0];
    forall i | 0 <= i < |t| ensures Recoverable(g, t[i]) && Recover(g, t[i]) == Recover(g, d) {
      if i < n {
        RecoverAfterCrash(g, d, i + 1);
      } else {
        RecoverIdempotent(g, d);
      }
    }
  }

  /** Before the header is written, recovery finds nothing to install. */
  lemma LogWritesAreInvisible(g: Layout, d: Disk, view: Disk, lh: seq<nat>, n: nat)
    requires Loggable(g, d, lh) && |view| == |d| && n <= |lh|
    requires d[g.start].words[0] == 0
    ensures Recoverable(g, WriteLog(g, d, view, lh, n))
    ensures HomeEqual(g, d, Recover(g, WriteLog(g, d, view, lh, n)))
  {
    var e := WriteLog(g, d, view, lh, n);
    assert e[g.start] == d[g.start];
    assert GetHead(e[g.start]) == [];
  }

  /** With the header written, recovery installs every logged block. */
  lemma HeaderCommits(g: Layout, d: Disk, view: Disk, lh: seq<nat>, w: Disk)
    requires Loggable(g, d, lh) && |view| == |d|
    requires w == WriteLog(g, d, view, lh, |lh|)
    ensures var h := SetHead(g, w, lh);
            Recoverable(g, h) && h[g.start].words[0] == |lh| && GetHead(h[g.start]) == lh &&
            Updated(g, d, view, lh, Recover(g, h))
  {
    hide Loggable, Recoverable, SetHead, GetHead, HomeEqual, Updated, WriteLog, Install, Slots, Recover;
    LoggedContents(g, d, view, lh, w);
    LogFits(g, w, lh);
    LogKeepsHome(g, d, view, lh);
    HeaderDescribes(g, w, lh);
    HeadKeepsRest(g, d, w, lh);
    var h := SetHead(g, w, lh);
    SlotsKept(g, lh, view, w, h);
    HeaderInstalls(g, d, view, lh, h);
  }

  lemma HeaderInstalls(g: Layout, d: Disk, view: Disk, lh: seq<nat>, h: Disk)
    requires Loggable(g, d, lh) && |view| == |d| && Loggable(g, h, lh) && HomeEqual(g, d, h) && Slots(g, view, lh, |lh|, h)
    requires Recoverable(g, h) && h[g.start].words[0] == |lh| && GetHead(h[g.start]) == lh
    ensures Updated(g, d, view, lh, Recover(g, h))
  {
    LogFits(g, h, lh);
    hide Loggable, Recoverable, SetHead, GetHead, HomeEqual, Updated, Install, Slots;
    InstallUpdates(g, d, view, lh, h);
    HeadIsInLog(g, d, view, lh, Install(g, h, lh, |lh|), []);
  }

  lemma SlotsKept(g: Layout, lh: seq<nat>, view: Disk, w: Disk, h: Disk)
    requires Slots(g, view, lh, |lh|, w) && |w| == |h| && forall b :: 0 <= b < |w| && b != g.start ==> h[b] == w[b]
    ensures Slots(g, view, lh, |lh|, h)
  {
  }

  lemma HeadIsInLog(g: Layout, d: Disk, view: Disk, lh: seq<nat>, e: Disk, lh': seq<nat>)
    requires Updated(g, d, view, lh, e) && Fits(g, e) && |lh'| <= LOGSIZE
    ensures Updated(g, d, view, lh, SetHead(g, e, lh'))
  {
  }

  lemma LoggedContents(g: Layout, d: Disk, view: Disk, lh: seq<nat>, w: Disk)
    requires Loggable(g, d, lh) && |view| == |d|
    requires w == WriteLog(g, d, view, lh, |lh|)
    ensures Loggable(g, w, lh) && Slots(g, view, lh, |lh|, w)
  {
    hide WriteLog, Loggable, Slots;
    SizeLoggable(g, d, w, lh);
  }

  /** Only the size of the disk matters. */
  lemma SizeLoggable(g: Layout, d: Disk, w: Disk, lh: seq<nat>)
    requires Loggable(g, d, lh) && |w| == |d|
    ensures Loggable(g, w, lh)
  {
    hide Distinct;
  }

  lemma LogFits(g: Layout, d: Disk, lh: seq<nat>)
    requires Loggable(g, d, lh)
    ensures Fits(g, d) && |lh| <= LOGSIZE && |lh| < g.size
  {
  }

  lemma LogKeepsHome(g: Layout, d: Disk, view: Disk, lh: seq<nat>)
    requires Loggable(g, d, lh) && |view| == |d|
    ensures HomeEqual(g, d, WriteLog(g, d, view, lh, |lh|))
  {
    hide WriteLog;
  }

  lemma HeadKeepsRest(g: Layout, d: Disk, w: Disk, lh: seq<nat>)
    requires Fits(g, w) && |lh| <= LOGSIZE && |lh| < g.size && HomeEqual(g, d, w)
    ensures HomeEqual(g, d, SetHead(g, w, lh)) && |SetHead(g, w, lh)| == |w|
    ensures forall b :: 0 <= b < |w| && b != g.start ==> SetHead(g, w, lh)[b] == w[b]
  {
    hide PutHead;
  }

  lemma HeaderDescribes(g: Layout, w: Disk, lh: seq<nat>)
    requires Loggable(g, w, lh)
    ensures var h := SetHead(g, w, lh);
            Loggable(g, h, lh) && Recoverable(g, h) &&
            h[g.start].words[0] == |lh| && GetHead(h[g.start]) == lh
  {
    HeadRoundTrip(w[g.start], lh);
    assert Loggable(g, SetHead(g, w, lh), lh);
  }

  lemma InstallUpdates(g: Layout, d: Disk, view: Disk, lh: seq<nat>, h: Disk)
    requires Loggable(g, d, lh) && |view| == |d| && Loggable(g, h, lh) && HomeEqual(g, d, h)
    requires Slots(g, view, lh, |lh|, h)
    ensures Updated(g, d, view, lh, Install(g, h, lh, |lh|))
  {
    hide Install, Loggable;
    var r := Install(g, h, lh, |lh|);
    forall b: nat | b < |d| && !InLog(g, b) ensures r[b] == if b in lh then view[b] else d[b] {
      if b in lh {
        var i: nat :| i < |lh| && lh[i] == b;
        InstalledBlock(g, h, lh, |lh|, i);
      } else {
        assert lh[..|lh|] == lh;
        UntouchedBlock(g, h, lh, |lh|, b);
      }
    }
  }

  /** With an empty header, recovery changes no home block. */
  lemma EmptyHeadRecovers(g: Layout, d: Disk)
    requires Fits(g, d) && d[g.start].words[0] == 0
    ensures Recoverable(g, d) && Loggable(g, d, []) && HomeEqual(g, d, Recover(g, d))
  {
    assert GetHead(d[g.start]) == [];
  }

  lemma CommitClears(g: Layout, d: Disk, view: Disk, lh: seq<nat>)
    requires Loggable(g, d, lh) && |view| == |d|
    ensures var e := CommitDisk(g, d, view, lh, 2 * |lh| + 2); |e| == |d| && Fits(g, e) && e[g.start].words[0] == 0
  {
    hide WriteLog, Install, Distinct;
  }
}
