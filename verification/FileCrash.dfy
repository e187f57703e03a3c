/** A crash anywhere in filewrite: recovery leaves the file with its first chunks, all of each or nothing. */
module FileCrash {
  import opened Common
  import B = Blocks
  import opened FsImage
  import opened FileSystem
  import opened FileSpec
  import opened FileIO
  import opened DiskImage
  import opened LogSpec
  import opened LogRuns

  // ---------- a process that runs one operation after the other ----------

  /** No step before step i was a crash. */
  predicate Up(steps: seq<Step>, i: nat)
  {
    forall t :: 0 <= t < i && t < |steps| ==> steps[t] != Crash
  }

  /**
   A step of a process that performs the operations `ops`: it begins the next one only when the one before
   has ended; it logs only the blocks of the operation; and when the operation ends, it has logged all of
   them, with the contents that they have in the next image.
   */
  ghost predicate Allows(es: seq<B.Disk>, ops: seq<set<nat>>, s: State, step: Step)
    requires |es| == |ops| + 1
  {
    match step
    case Begin => s.open == map[] && s.nextOp < |ops|
    case LogWrite(op, block, _) => op < |ops| && block in ops[op]
    case End(op) =>
      && op < |ops| && op in s.open && s.open[op] == ops[op]
      && forall b :: b in ops[op] && b < |s.view| && b < |es[op + 1]| ==> s.view[b] == es[op + 1][b]
    case _ => true
  }

  /** Step i of a run of such a process, which begins nothing after a crash. */
  ghost predicate Follows(es: seq<B.Disk>, ops: seq<set<nat>>, run: seq<State>, steps: seq<Step>, i: nat)
    requires i < |steps| && |run| == |steps| + 1 && |es| == |ops| + 1
  {
    Allows(es, ops, run[i], steps[i]) && (steps[i] == Begin ==> Up(steps, i))
  }

  ghost predicate Performs(es: seq<B.Disk>, ops: seq<set<nat>>, run: seq<State>, steps: seq<Step>)
  {
    && |run| == |steps| + 1 && |es| == |ops| + 1
    && forall i: nat {:trigger Follows(es, ops, run, steps, i)} :: i < |steps| ==> Follows(es, ops, run, steps, i)
  }

  /** Operation k changes only the blocks it logs. */
  ghost predicate Local(es: seq<B.Disk>, ops: seq<set<nat>>)
  {
    && |es| == |ops| + 1
    && forall k, b: nat {:trigger es[k + 1][b]} :: 0 <= k < |ops| && b < |es[k]| && b !in ops[k] ==> b < |es[k + 1]| && es[k + 1][b] == es[k][b]
  }

  ghost predicate At(g: Layout, es: seq<B.Disk>, k: int, x: B.Disk)
  {
    0 <= k < |es| && HomeEqual(g, es[k], x)
  }

  /** Inside an operation: the durable state is the image before it, and the cache differs from it in logged blocks only. */
  ghost predicate Inside(g: Layout, d: B.Disk, es: seq<B.Disk>, ops: seq<set<nat>>, s: State)
  {
    && 0 < s.nextOp <= |ops| && s.open.Keys == {s.nextOp - 1} && s.open[s.nextOp - 1] <= ops[s.nextOp - 1]
    && At(g, es, s.nextOp - 1, PerformAll(d, s.groups)) && |s.view| == |es[s.nextOp - 1]|
    && forall b: nat :: b < |s.view| && !InLog(g, b) && b !in s.open[s.nextOp - 1] ==> s.view[b] == es[s.nextOp - 1][b]
  }

  /** Where the process and the log are, as long as there was no crash. */
  ghost predicate Stage(g: Layout, d: B.Disk, es: seq<B.Disk>, ops: seq<set<nat>>, s: State)
  {
    match s.phase
    case Active =>
      if s.open == map[] then s.group == [] && At(g, es, s.nextOp, PerformAll(d, s.groups)) else Inside(g, d, es, ops, s)
    case Committing(_) => s.nextOp > 0 && At(g, es, s.nextOp - 1, PerformAll(d, Earlier(s))) && At(g, es, s.nextOp, s.view)
    case Down => false
    case Recovering(_) => false
  }

  /** What is durable is the image after all operations that began, or after all but the last. */
  ghost predicate Settled(g: Layout, d: B.Disk, es: seq<B.Disk>, s: State)
  {
    At(g, es, s.nextOp - 1, PerformAll(d, s.groups)) || At(g, es, s.nextOp, PerformAll(d, s.groups))
  }

  lemma HomeBoth(g: Layout, a: B.Disk, b: B.Disk, c: B.Disk)
    requires HomeEqual(g, a, b)
    ensures HomeEqual(g, a, c) <==> HomeEqual(g, b, c)
    ensures HomeEqual(g, b, a)
  {
  }

  lemma StageSettled(g: Layout, d: B.Disk, es: seq<B.Disk>, ops: seq<set<nat>>, s: State)
    requires PhaseOk(g, d, s) && Stage(g, d, es, ops, s)
    ensures Settled(g, d, es, s)
  {
    if s.phase.Committing? && Earlier(s) != s.groups {
      var e := PerformAll(d, Earlier(s));
      assert s.groups == Earlier(s) + [s.group];
      PerformAllSnoc(d, Earlier(s), s.group);
      OverlayShown(g, e, s.view, s.lh, s.group);
      HomeBoth(g, Perform(e, s.group), s.view, es[s.nextOp]);
      HomeBoth(g, es[s.nextOp], s.view, s.view);
      HomeBoth(g, Perform(e, s.group), es[s.nextOp], s.view);
    }
  }

  lemma BeginStage(g: Layout, d: B.Disk, es: seq<B.Disk>, ops: seq<set<nat>>, s: State)
    requires Enabled(g, s, Begin) && PhaseOk(g, d, s) && Stage(g, d, es, ops, s) && s.open == map[] && s.nextOp < |ops|
    ensures Stage(g, d, es, ops, Do(g, s, Begin))
  {
    var e, s' := PerformAll(d, s.groups), Do(g, s, Begin);
    assert HomeEqual(g, e, s.view);
    assert s'.open.Keys == {s.nextOp};
  }

  lemma LogWriteStage(g: Layout, d: B.Disk, es: seq<B.Disk>, ops: seq<set<nat>>, s: State, step: Step)
    requires step.LogWrite? && Enabled(g, s, step) && s.phase == Active && Stage(g, d, es, ops, s)
    requires step.op < |ops| && step.block in ops[step.op]
    ensures Stage(g, d, es, ops, Do(g, s, step))
  {
    hide PerformAll, HomeEqual;
    assert step.op in s.open.Keys;
    assert Do(g, s, step).open.Keys == s.open.Keys;
  }

  lemma EndStage(g: Layout, d: B.Disk, es: seq<B.Disk>, ops: seq<set<nat>>, s: State, op: nat)
    requires Enabled(g, s, End(op)) && s.phase == Active && LogRuns.Counted(s) && Stage(g, d, es, ops, s) && Local(es, ops)
    requires op < |ops| && op in s.open && s.open[op] == ops[op]
    requires forall b :: b in ops[op] && b < |s.view| && b < |es[op + 1]| ==> s.view[b] == es[op + 1][b]
    requires |es[op + 1]| == |es[op]|
    ensures Stage(g, d, es, ops, Do(g, s, End(op)))
  {
    hide PerformAll;
    assert op in s.open.Keys && op == s.nextOp - 1;
    EndCounts(s, op);
    assert (s.open - {op}).Keys == {};
    var s' := Do(g, s, End(op));
    assert s'.phase == Committing(0) && Earlier(s') == s.groups;
    forall b: nat | b < |es[op + 1]| && !InLog(g, b) ensures s'.view[b] == es[op + 1][b] {
      if b !in ops[op] {
        assert es[op + 1][b] == es[op][b];
      }
    }
  }

  lemma CommitWriteStage(g: Layout, d: B.Disk, es: seq<B.Disk>, ops: seq<set<nat>>, s: State)
    requires Enabled(g, s, CommitWrite) && PhaseOk(g, d, s) && Stage(g, d, es, ops, s)
    ensures Stage(g, d, es, ops, Do(g, s, CommitWrite))
  {
    hide PerformAll, HomeEqual, MemoryOk, CommitDisk, Loggable;
    var s' := Do(g, s, CommitWrite);
    assert Earlier(s') == Earlier(s) by {
      if s.phase.k == |s.lh| {
        assert s'.groups[..|s.groups|] == s.groups;
      }
    }
  }

  lemma CommitDoneStage(g: Layout, d: B.Disk, es: seq<B.Disk>, ops: seq<set<nat>>, s: State)
    requires Enabled(g, s, CommitDone) && PhaseOk(g, d, s) && Stage(g, d, es, ops, s)
    ensures Stage(g, d, es, ops, Do(g, s, CommitDone))
  {
    var e := PerformAll(d, Earlier(s));
    if s.lh == [] {
      NothingLogged(g, e, s.view, s.group);
    } else {
      assert s.groups == Earlier(s) + [s.group];
      PerformAllSnoc(d, Earlier(s), s.group);
      OverlayShown(g, e, s.view, s.lh, s.group);
    }
  }

  lemma StageStep(g: Layout, d: B.Disk, es: seq<B.Disk>, ops: seq<set<nat>>, run: seq<State>, steps: seq<Step>, i: nat)
    requires i < |steps| && |run| == |steps| + 1 && |es| == |ops| + 1 && Local(es, ops) && Sizes(es)
    requires Follows(es, ops, run, steps, i) && Enabled(g, run[i], steps[i]) && steps[i] != Crash
    requires PhaseOk(g, d, run[i]) && LogRuns.Counted(run[i]) && Stage(g, d, es, ops, run[i])
    ensures Stage(g, d, es, ops, Do(g, run[i], steps[i]))
  {
    hide PhaseOk, Stage, LogRuns.Counted, Local, PerformAll;
    match steps[i]
    case Begin => BeginStage(g, d, es, ops, run[i]);
    case LogWrite(op, block, data) =>
      OpenIsActive(g, d, run[i], op);
      LogWriteStage(g, d, es, ops, run[i], steps[i]);
    case End(op) =>
      OpenIsActive(g, d, run[i], op);
      EndStage(g, d, es, ops, run[i], op);
    case CommitWrite => CommitWriteStage(g, d, es, ops, run[i]);
    case CommitDone => CommitDoneStage(g, d, es, ops, run[i]);
    case Reboot => NotDown(g, d, es, ops, run[i]);
    case RecoverWrite => NotDown(g, d, es, ops, run[i]);
  }

  predicate Sizes(es: seq<B.Disk>) { forall k :: 0 <= k < |es| ==> |es[k]| == |es[0]| }

  lemma OpenIsActive(g: Layout, d: B.Disk, s: State, op: nat)
    requires PhaseOk(g, d, s) && op in s.open
    ensures s.phase == Active
  {
    hide MemoryOk, Recoverable, CommitDisk, RecoverPartly;
  }

  lemma NotDown(g: Layout, d: B.Disk, es: seq<B.Disk>, ops: seq<set<nat>>, s: State)
    requires Stage(g, d, es, ops, s)
    ensures s.phase == Active || s.phase.Committing?
  {
  }

  /** After a crash nothing is logged any more. */
  lemma SettledStep(g: Layout, d: B.Disk, es: seq<B.Disk>, s: State, step: Step)
    requires Enabled(g, s, step) && s.open == map[] && !s.phase.Committing? && Settled(g, d, es, s) && step != Begin
    ensures var s' := Do(g, s, step); s'.open == map[] && !s'.phase.Committing? && Settled(g, d, es, s')
  {
    hide PerformAll, HomeEqual, Recover, RecoverPartly, Recoverable;
  }

  /** In every such run, at every moment, the disk recovers to one of two images: with or without the last operation begun. */
  lemma {:induction false} CrashSettles(g: Layout, d: B.Disk, es: seq<B.Disk>, ops: seq<set<nat>>, run: seq<State>, steps: seq<Step>, i: nat)
    requires Run(g, d, run, steps) && Performs(es, ops, run, steps) && Local(es, ops) && Sizes(es) && HomeEqual(g, es[0], d) && i < |run|
    ensures if Up(steps, i) then Stage(g, d, es, ops, run[i]) else run[i].open == map[] && !run[i].phase.Committing? && Settled(g, d, es, run[i])
  {
    if i == 0 {
      assert run[0].groups == [];
    } else {
      var j := i - 1;
      CrashSettles(g, d, es, ops, run, steps, j);
      RunInv(g, d, run, steps, j);
      assert Follows(es, ops, run, steps, j);
      assert Up(steps, i) <==> Up(steps, j) && steps[j] != Crash;
      assert Enabled(g, run[j], steps[j]) && run[j + 1] == Do(g, run[j], steps[j]);
      hide PhaseOk, Stage, Durable, Whole, LogRuns.Counted, Local, Settled;
      if Up(steps, i) {
        StageStep(g, d, es, ops, run, steps, j);
      } else if Up(steps, j) {
        StageSettled(g, d, es, ops, run[j]);
        CrashStep(g, d, es, run[j]);
      } else {
        SettledStep(g, d, es, run[j], steps[j]);
      }
    }
  }

  lemma CrashStep(g: Layout, d: B.Disk, es: seq<B.Disk>, s: State)
    requires Settled(g, d, es, s)
    ensures var s' := Do(g, s, Crash); s'.open == map[] && !s'.phase.Committing? && Settled(g, d, es, s')
  {
    hide PerformAll, HomeEqual;
  }

  /** The process is between operations: the last one has been committed. */
  predicate Returned(s: State) { s.phase == Active && s.open == map[] }

  /** Until the next operation begins nothing more becomes durable, crash or not. */
  lemma {:induction false} NothingSince(g: Layout, d: B.Disk, run: seq<State>, steps: seq<Step>, u: nat, t: nat)
    requires Run(g, d, run, steps) && u <= t < |run| && Returned(run[u])
    ensures run[u].nextOp <= run[t].nextOp
    ensures run[t].nextOp == run[u].nextOp ==> run[t].groups == run[u].groups && run[t].open == map[] && !run[t].phase.Committing?
    decreases t
  {
    hide Recover, Recoverable, RecoverPartly, CommitDisk, Loggable;
    if u < t {
      NothingSince(g, d, run, steps, u, t - 1);
      assert Enabled(g, run[t - 1], steps[t - 1]) && run[t - 1 + 1] == Do(g, run[t - 1], steps[t - 1]);
    }
  }

  // ---------- filewrite ----------

  function Encodings(snaps: seq<Img>, start: nat, bmapstart: nat): (es: seq<B.Disk>)
    ensures |es| == |snaps| && forall k :: 0 <= k < |es| ==> es[k] == Enc(snaps[k], start, bmapstart)
  {
    seq(|snaps|, k requires 0 <= k < |snaps| => Enc(snaps[k], start, bmapstart))
  }

  /** The log lies before the inode blocks, and the bitmap fits its blocks. */
  ghost predicate LaidOut(g: Layout, m: Img, start: nat, bmapstart: nat, inodestart: nat)
  {
    g.start + g.size <= inodestart <= bmapstart <= start <= |m.disk| && |m.used| <= BPB * (start - bmapstart)
  }

  lemma {:induction false} SameShape(m0: Img, bmapstart: nat, inodestart: nat, snaps: seq<Img>, ops: seq<set<nat>>, k: nat)
    requires Chunked(m0, bmapstart, inodestart, snaps, ops) && k < |snaps|
    ensures |snaps[k].disk| == |m0.disk| && |snaps[k].used| == |m0.used|
  {
    if k > 0 {
      SameShape(m0, bmapstart, inodestart, snaps, ops, k - 1);
      assert Covered(snaps[k - 1], snaps[k - 1 + 1], inodestart, bmapstart, {}, ops[k - 1]);
    }
  }

  lemma ChunksLocal(m0: Img, start: nat, bmapstart: nat, inodestart: nat, snaps: seq<Img>, ops: seq<set<nat>>)
    requires Chunked(m0, bmapstart, inodestart, snaps, ops)
    ensures Local(Encodings(snaps, start, bmapstart), ops) && Sizes(Encodings(snaps, start, bmapstart))
  {
    hide Covered;
    var es := Encodings(snaps, start, bmapstart);
    forall k | 0 <= k < |es| ensures |es[k]| == |es[0]| {
      SameShape(m0, bmapstart, inodestart, snaps, ops, k);
      SameShape(m0, bmapstart, inodestart, snaps, ops, 0);
    }
    forall k, b: nat | 0 <= k < |ops| && b < |es[k]| && b !in ops[k] ensures b < |es[k + 1]| && es[k + 1][b] == es[k][b] {
      UnloggedSame(snaps[k], snaps[k + 1], inodestart, start, bmapstart, {}, ops[k], b);
    }
  }

  /**
   filewrite and the log together. Take the images and the logged blocks that filewrite reports, and any
   run of the log in which its process performs those operations. Stop the machine at any moment, during
   recovery too, and recover: the disk holds the image after k chunks, where k is the number of operations
   begun, or one less, and never less than the number of operations that had returned. In it the file holds
   the first k chunks of the bytes written, and nothing else changed.
   */
  lemma WriteSurvives(g: Layout, d: B.Disk, m0: Img, start: nat, bmapstart: nat, inodestart: nat,
                      i: nat, off: nat, src: seq<Byte>, total: nat, snaps: seq<Img>, ops: seq<set<nat>>,
                      run: seq<State>, steps: seq<Step>, t: nat)
      returns (k: nat)
    requires Reported(m0, start, bmapstart, inodestart, i, off, src, total, snaps, ops)
    requires LaidOut(g, m0, start, bmapstart, inodestart) && HomeEqual(g, Enc(m0, start, bmapstart), d)
    requires Run(g, d, run, steps) && Performs(Encodings(snaps, start, bmapstart), ops, run, steps) && t < |run|
    ensures run[t].nextOp - 1 <= k <= run[t].nextOp && k < |snaps|
    ensures forall u: nat :: u <= t && Up(steps, u) && Returned(run[u]) ==> run[u].nextOp <= k
    ensures Recoverable(g, run[t].disk)
    ensures Represents(Recover(g, run[t].disk), snaps[k], start, bmapstart, inodestart)
    ensures Reads(Recover(g, run[t].disk), m0, inodestart, i, off, src[..Min(k * CHUNK, total)])
  {
    hide Holding, Covered, Recover, Recoverable, Enc, Represents, FileOf, Content, Splice, PerformAll, PhaseOk, Whole, Durable, Stage, HomeEqual;
    var es := Encodings(snaps, start, bmapstart);
    ChunksLocal(m0, start, bmapstart, inodestart, snaps, ops);
    CrashSettles(g, d, es, ops, run, steps, t);
    RunInv(g, d, run, steps, t);
    if Up(steps, t) {
      StageSettled(g, d, es, ops, run[t]);
    }
    GroupCommit(g, d, run, steps, t, t);
    k := if At(g, es, run[t].nextOp, PerformAll(d, run[t].groups)) then run[t].nextOp else run[t].nextOp - 1;
    forall u: nat | u <= t && Up(steps, u) && Returned(run[u]) ensures run[u].nextOp <= k {
      NothingSince(g, d, run, steps, u, t);
      CrashSettles(g, d, es, ops, run, steps, u);
      StageReturned(g, d, es, ops, run[u]);
    }
    var r := Recover(g, run[t].disk);
    HomeTransitive(g, es[k], PerformAll(d, run[t].groups), r);
    SameShape(m0, bmapstart, inodestart, snaps, ops, k);
    HomeRepresents(g, snaps[k], start, bmapstart, inodestart, r);
    HoldingFiles(m0, snaps[k], start, bmapstart, inodestart, i, off, src, Min(k * CHUNK, total), r);
  }

  /** On the disk `r`, file i reads as in m0 with `part` written at `off`, and every other file as in m0. */
  ghost predicate Reads(r: B.Disk, m0: Img, inodestart: nat, i: nat, off: nat, part: seq<Byte>)
  {
    && i in m0.inodes && IBlock(inodestart, i) < |r|
    && FileOf(r, inodestart, i) == (if off <= m0.inodes[i].size then Splice(Content(m0, i), off, part) else Content(m0, i))
    && forall j :: j in m0.inodes && j != i ==> IBlock(inodestart, j) < |r| && FileOf(r, inodestart, j) == Content(m0, j)
  }

  lemma StageReturned(g: Layout, d: B.Disk, es: seq<B.Disk>, ops: seq<set<nat>>, s: State)
    requires Stage(g, d, es, ops, s) && Returned(s)
    ensures At(g, es, s.nextOp, PerformAll(d, s.groups))
  {
  }

  lemma HomeRepresents(g: Layout, m: Img, start: nat, bmapstart: nat, inodestart: nat, r: B.Disk)
    requires LaidOut(g, m, start, bmapstart, inodestart) && HomeEqual(g, Enc(m, start, bmapstart), r)
    ensures Represents(r, m, start, bmapstart, inodestart)
  {
    hide OnDisk, Represents;
    EncRepresents(r, m, start, bmapstart, inodestart);
  }

  lemma HoldingFiles(m0: Img, m: Img, start: nat, bmapstart: nat, inodestart: nat, i: nat, off: nat, src: seq<Byte>, n: nat, r: B.Disk)
    requires Holding(m0, m, start, bmapstart, inodestart, i, off, src, n) && n <= |src| && Represents(r, m, start, bmapstart, inodestart)
    ensures Reads(r, m0, inodestart, i, off, src[..n])
  {
    hide Ok, NoHoles, Filed, Represents, FileOf, Content, Splice;
    FileBack(r, m, start, bmapstart, inodestart, i);
    forall j | j in m0.inodes && j != i ensures IBlock(inodestart, j) < |r| && FileOf(r, inodestart, j) == Content(m0, j) {
      FileBack(r, m, start, bmapstart, inodestart, j);
    }
  }

  // ---------- such runs exist ----------

  /** Every block of every operation is a home block, and no operation has too many. */
  ghost predicate Placed(g: Layout, n: nat, ops: seq<set<nat>>)
  {
    forall k :: 0 <= k < |ops| ==> |ops[k]| <= MAXOPBLOCKS && forall b :: b in ops[k] ==> b < n && !InLog(g, b)
  }

  /** What filewrite logs, log_write accepts. */
  lemma OpsPlaced(g: Layout, m0: Img, start: nat, bmapstart: nat, inodestart: nat, snaps: seq<Img>, ops: seq<set<nat>>)
    requires Chunked(m0, bmapstart, inodestart, snaps, ops) && LaidOut(g, m0, start, bmapstart, inodestart)
    ensures Placed(g, |m0.disk|, ops)
    ensures forall k, b :: 0 <= k < |ops| && b in ops[k] ==> inodestart <= b
  {
    forall k: nat, b | k < |ops| && b in ops[k] ensures inodestart <= b < |m0.disk| && !InLog(g, b) {
      SameShape(m0, bmapstart, inodestart, snaps, ops, k);
      assert Covered(snaps[k], snaps[k + 1], inodestart, bmapstart, {}, ops[k]);
      assert LogPlace(snaps[k], inodestart, bmapstart, b);
    }
    hide Covered;
  }

  /** A run without a crash in which the process performs the operations. */
  ghost predicate Going(g: Layout, d: B.Disk, es: seq<B.Disk>, ops: seq<set<nat>>, run: seq<State>, steps: seq<Step>)
  {
    Run(g, d, run, steps) && Performs(es, ops, run, steps) && Up(steps, |steps|)
  }

  lemma Extend(g: Layout, d: B.Disk, es: seq<B.Disk>, ops: seq<set<nat>>, run: seq<State>, steps: seq<Step>, step: Step)
      returns (run': seq<State>, steps': seq<Step>)
    requires Going(g, d, es, ops, run, steps) && step != Crash
    requires Enabled(g, run[|steps|], step) && Allows(es, ops, run[|steps|], step)
    ensures Going(g, d, es, ops, run', steps') && run'[|steps'|] == Do(g, run[|steps|], step)
  {
    hide Enabled, Do, Allows;
    run', steps' := run + [Do(g, run[|steps|], step)], steps + [step];
    forall i: nat | i < |steps'| ensures Enabled(g, run'[i], steps'[i]) && run'[i + 1] == Do(g, run'[i], steps'[i]) {
      if i < |steps| {
        assert run'[i] == run[i] && run'[i + 1] == run[i + 1] && steps'[i] == steps[i];
      }
    }
    forall i: nat | i < |steps'| ensures Follows(es, ops, run', steps', i) {
      if i < |steps| {
        assert Follows(es, ops, run, steps, i);
        assert run'[i] == run[i] && steps'[i] == steps[i];
      }
    }
  }

  /** Between operations, with `n` of them performed. */
  predicate Idle(s: State, n: nat)
  {
    Returned(s) && s.outstanding == 0 && s.lh == [] && s.nextOp == n
  }

  /** Inside operation `n`, when the blocks in `done` are logged. */
  ghost predicate Logging(es: seq<B.Disk>, s: State, n: nat, done: set<nat>)
  {
    && s.phase == Active && s.open == map[n := done] && s.nextOp == n + 1 && s.outstanding == 1 && n in s.written
    && |s.lh| <= |done| && n + 1 < |es|
    && forall b :: b in done && b < |s.view| && b < |es[n + 1]| ==> s.view[b] == es[n + 1][b]
  }

  lemma ActiveSized(g: Layout, d: B.Disk, s: State)
    requires PhaseOk(g, d, s) && s.phase == Active
    ensures |s.view| == |s.disk| == |d|
  {
    MemorySized(g, PerformAll(d, s.groups), s.disk, s);
  }

  lemma LogOne(g: Layout, d: B.Disk, es: seq<B.Disk>, ops: seq<set<nat>>, s: State, n: nat, done: set<nat>, b: nat)
    requires PhaseOk(g, d, s) && n < |ops| && |es| == |ops| + 1 && Logging(es, s, n, done) && done <= ops[n] && b in ops[n] && b !in done
    requires Placed(g, |d|, ops) && Sizes(es) && |es[0]| == |d| && MAXOPBLOCKS < g.size
    ensures b < |es[n + 1]|
    ensures var step := LogWrite(n, b, es[n + 1][b]);
            Enabled(g, s, step) && Allows(es, ops, s, step) && Logging(es, Do(g, s, step), n, done + {b})
  {
    ActiveSized(g, d, s);
    hide PhaseOk;
    SubsetSize(done + {b}, ops[n]);
    assert Do(g, s, LogWrite(n, b, es[n + 1][b])).open == map[n := done + {b}];
  }

  lemma {:induction false} LogAll(g: Layout, d: B.Disk, es: seq<B.Disk>, ops: seq<set<nat>>, run: seq<State>, steps: seq<Step>, n: nat, done: set<nat>)
      returns (run': seq<State>, steps': seq<Step>)
    requires Going(g, d, es, ops, run, steps) && n < |ops| && Logging(es, run[|steps|], n, done) && done <= ops[n]
    requires Placed(g, |d|, ops) && Sizes(es) && |es[0]| == |d| && MAXOPBLOCKS < g.size
    ensures Going(g, d, es, ops, run', steps') && Logging(es, run'[|steps'|], n, ops[n])
    decreases ops[n] - done
  {
    run', steps' := run, steps;
    if done != ops[n] {
      var b :| b in ops[n] && b !in done;
      RunInv(g, d, run, steps, |steps|);
      hide PhaseOk, Durable, Whole, LogRuns.Counted, Logging, Enabled, Do, Allows, Placed, Sizes;
      LogOne(g, d, es, ops, run[|steps|], n, done, b);
      run', steps' := Extend(g, d, es, ops, run, steps, LogWrite(n, b, es[n + 1][b]));
      run', steps' := LogAll(g, d, es, ops, run', steps', n, done + {b});
    }
  }

  /** A commit after `k` of its writes. */
  predicate Writing(s: State, n: nat, k: nat)
  {
    s.phase == Committing(k) && s.open == map[] && s.outstanding == 0 && s.nextOp == n && k <= Writes(|s.lh|)
  }

  lemma CommitReady(g: Layout, d: B.Disk, s: State)
    requires PhaseOk(g, d, s) && s.phase.Committing?
    ensures Loggable(g, s.base, s.lh) && |s.view| == |s.base|
  {
    MemorySized(g, PerformAll(d, Earlier(s)), s.base, s);
  }

  lemma CommitOne(g: Layout, d: B.Disk, es: seq<B.Disk>, ops: seq<set<nat>>, s: State, n: nat, k: nat)
    requires PhaseOk(g, d, s) && Writing(s, n, k) && |es| == |ops| + 1
    ensures k == Writes(|s.lh|) ==>
              Enabled(g, s, CommitDone) && Allows(es, ops, s, CommitDone) && Idle(Do(g, s, CommitDone), n)
    ensures k < Writes(|s.lh|) ==>
              && Enabled(g, s, CommitWrite) && Allows(es, ops, s, CommitWrite)
              && Writing(Do(g, s, CommitWrite), n, k + 1) && Do(g, s, CommitWrite).lh == s.lh
  {
    CommitReady(g, d, s);
    hide PhaseOk, Loggable, CommitDisk;
  }

  lemma {:induction false} CommitAll(g: Layout, d: B.Disk, es: seq<B.Disk>, ops: seq<set<nat>>, run: seq<State>, steps: seq<Step>, n: nat, k: nat)
      returns (run': seq<State>, steps': seq<Step>)
    requires Going(g, d, es, ops, run, steps) && Writing(run[|steps|], n, k)
    ensures Going(g, d, es, ops, run', steps') && Idle(run'[|steps'|], n)
    decreases Writes(|run[|steps|].lh|) - k
  {
    var s := run[|steps|];
    RunInv(g, d, run, steps, |steps|);
    hide PhaseOk, Durable, Whole, LogRuns.Counted, Enabled, Do, Allows, Idle;
    CommitOne(g, d, es, ops, s, n, k);
    if k == Writes(|s.lh|) {
      run', steps' := Extend(g, d, es, ops, run, steps, CommitDone);
    } else {
      run', steps' := Extend(g, d, es, ops, run, steps, CommitWrite);
      run', steps' := CommitAll(g, d, es, ops, run', steps', n, k + 1);
    }
  }

  /** Any operations on home blocks, none with too many, can be performed: a run that ends with all of them committed. */
  lemma {:induction false} CanPerform(g: Layout, d: B.Disk, es: seq<B.Disk>, ops: seq<set<nat>>, n: nat)
      returns (run: seq<State>, steps: seq<Step>)
    requires Fits(g, d) && d[g.start].words[0] == 0 && MAXOPBLOCKS < g.size && n <= |ops|
    requires |es| == |ops| + 1 && Sizes(es) && |es[0]| == |d| && Placed(g, |d|, ops)
    ensures Going(g, d, es, ops, run, steps) && Idle(run[|steps|], n)
  {
    if n == 0 {
      run, steps := [State(d, d, d, [], 0, map[], 0, [], Active, [], map[])], [];
    } else {
      run, steps := CanPerform(g, d, es, ops, n - 1);
      hide Going;
      run, steps := Extend(g, d, es, ops, run, steps, Begin);
      run, steps := LogAll(g, d, es, ops, run, steps, n - 1, {});
      run, steps := Extend(g, d, es, ops, run, steps, End(n - 1));
      run, steps := CommitAll(g, d, es, ops, run, steps, n, 0);
    }
  }

  /** So filewrite has a run that performs all its operations, and after it the disk holds its last image. */
  lemma WriteCompletes(g: Layout, d: B.Disk, m0: Img, start: nat, bmapstart: nat, inodestart: nat,
                       i: nat, off: nat, src: seq<Byte>, total: nat, snaps: seq<Img>, ops: seq<set<nat>>)
      returns (run: seq<State>, steps: seq<Step>)
    requires Reported(m0, start, bmapstart, inodestart, i, off, src, total, snaps, ops)
    requires LaidOut(g, m0, start, bmapstart, inodestart) && HomeEqual(g, Enc(m0, start, bmapstart), d)
    requires Fits(g, d) && d[g.start].words[0] == 0 && MAXOPBLOCKS < g.size
    ensures Run(g, d, run, steps) && Performs(Encodings(snaps, start, bmapstart), ops, run, steps)
    ensures var s := run[|steps|]; s.nextOp == |ops| && Returned(s) && Recoverable(g, s.disk)
    ensures Represents(Recover(g, run[|steps|].disk), snaps[|ops|], start, bmapstart, inodestart)
  {
    hide Holding, Covered, Represents, Reads, Recover, Recoverable, Placed, LaidOut;
    var es := Encodings(snaps, start, bmapstart);
    OpsPlaced(g, m0, start, bmapstart, inodestart, snaps, ops);
    ChunksLocal(m0, start, bmapstart, inodestart, snaps, ops);
    run, steps := CanPerform(g, d, es, ops, |ops|);
    var k := WriteSurvives(g, d, m0, start, bmapstart, inodestart, i, off, src, total, snaps, ops, run, steps, |steps|);
    assert k == |ops|;
  }
}
