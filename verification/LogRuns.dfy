/** The redo log over whole runs: every interleaving of operations, commits, crashes and recoveries. */
module LogRuns {
  import opened Common
  import opened Blocks
  import opened LogSpec
  import Log

  /**
   One step is one segment of begin_op, log_write or end_op that runs under log.lock, or one block
   write of commit or of recovery, or a crash. `written` records what every operation ever logged;
   `groups` lists the transactions whose header reached the disk.
   */

  datatype Write = Write(op: nat, block: nat, data: Block)

  /** Everything one operation ever logged, and how many groups were durable when it began. */
  datatype Record = Record(began: nat, writes: seq<Write>)

  datatype Phase =
    | Active
    | Committing(k: nat)   // k block writes of commit are done
    | Down                 // crashed; memory is lost
    | Recovering(k: nat)   // k blocks are installed again

  datatype State = State(
    disk: Disk,
    base: Disk,                          // the disk when the commit or the recovery began
    view: Disk,                          // the blocks as the buffer cache shows them
    lh: seq<nat>,
    outstanding: int,
    open: map<nat, set<nat>>,            // the operations behind that count and the blocks each has logged
    nextOp: nat,
    group: seq<Write>,                   // what was logged since the last commit
    phase: Phase,
    groups: seq<seq<Write>>,
    written: map<nat, Record>)

  datatype Step =
    | Begin
    | LogWrite(op: nat, block: nat, data: Block)
    | End(op: nat)
    | CommitWrite
    | CommitDone
    | Crash
    | Reboot
    | RecoverWrite

  /** The block writes of one commit. */
  function Writes(n: nat): nat { if n == 0 then 0 else 2 * n + 2 }

  /** What the callers of the log promise: an open operation and a home block. */
  predicate Allowed(g: Layout, s: State, op: nat, block: nat)
  {
    op in s.open && op in s.written && block < |s.disk| && !InLog(g, block)
  }

  ghost predicate Enabled(g: Layout, s: State, step: Step)
  {
    match step
    case Begin => s.phase != Down && !s.phase.Recovering? && Log.Admits(|s.lh|, s.outstanding, s.phase.Committing?)
    case LogWrite(op, block, data) =>
      Allowed(g, s, op, block) && |s.view| == |s.disk| && !Log.LogWritePanics(|s.lh|, g.size, s.outstanding)
    case End(op) => op in s.open && !s.phase.Committing?
    case CommitWrite => s.phase.Committing? && s.phase.k < Writes(|s.lh|) && Loggable(g, s.base, s.lh) && |s.view| == |s.base|
    case CommitDone => s.phase.Committing? && s.phase.k == Writes(|s.lh|)
    case Crash => true
    case Reboot => s.phase == Down
    case RecoverWrite => s.phase.Recovering? && Recoverable(g, s.base) && s.phase.k <= s.base[g.start].words[0]
  }

  /** One more operation is open. */
  function Started(s: State): State
  {
    s.(outstanding := s.outstanding + 1, open := s.open[s.nextOp := {}], nextOp := s.nextOp + 1,
       written := s.written[s.nextOp := Record(|s.groups|, [])])
  }

  ghost function Do(g: Layout, s: State, step: Step): State
    requires Enabled(g, s, step)
  {
    match step
    case Begin => Started(s)
    case LogWrite(op, block, data) =>
      var w := Write(op, block, data);
      s.(view := s.view[block := data], lh := Log.Absorb(s.lh, block), group := s.group + [w],
         open := s.open[op := s.open[op] + {block}],
         written := s.written[op := s.written[op].(writes := s.written[op].writes + [w])])
    case End(op) =>
      var s' := s.(outstanding := s.outstanding - 1, open := s.open - {op});
      if s'.outstanding == 0 then s'.(phase := Committing(0), base := s.disk) else s'
    case CommitWrite =>
      var k := s.phase.k + 1;
      s.(disk := CommitDisk(g, s.base, s.view, s.lh, k), phase := Committing(k),
         groups := if k == |s.lh| + 1 then s.groups + [s.group] else s.groups)
    case CommitDone => s.(lh := [], group := [], phase := Active)
    case Crash => s.(phase := Down, view := [], lh := [], outstanding := 0, open := map[], group := [])
    case Reboot => s.(phase := Recovering(0), base := s.disk)
    case RecoverWrite =>
      if s.phase.k < s.base[g.start].words[0]
      then s.(disk := RecoverPartly(g, s.base, s.phase.k + 1), phase := Recovering(s.phase.k + 1))
      else var d := Recover(g, s.base); s.(disk := d, view := d, phase := Active)
  }

  ghost predicate Init(g: Layout, d: Disk, s: State)
  {
    && Fits(g, d) && d[g.start].words[0] == 0
    && s == State(d, d, d, [], 0, map[], 0, [], Active, [], map[])
  }

  /** `run[i]` steps to `run[i + 1]` by `steps[i]`. */
  ghost predicate Run(g: Layout, d: Disk, run: seq<State>, steps: seq<Step>)
  {
    && |run| == |steps| + 1 && Init(g, d, run[0])
    && forall i :: 0 <= i < |steps| ==> Enabled(g, run[i], steps[i]) && run[i + 1] == Do(g, run[i], steps[i])
  }

  /** The operation that logs has logged at most MAXOPBLOCKS blocks then. */
  predicate Within(s: State, step: Step)
  {
    step.LogWrite? && step.op in s.open ==> |s.open[step.op] + {step.block}| <= MAXOPBLOCKS
  }

  /** No operation of the run logs more than MAXOPBLOCKS blocks. */
  ghost predicate Budgeted(run: seq<State>, steps: seq<Step>)
  {
    |run| == |steps| + 1 && forall i :: 0 <= i < |steps| ==> Within(run[i], steps[i])
  }

  // ---------- what the groups mean ----------

  function Perform(d: Disk, ws: seq<Write>): (r: Disk)
    ensures |r| == |d|
  {
    if ws == [] then d
    else
      var e, w := Perform(d, ws[..|ws| - 1]), ws[|ws| - 1];
      if w.block < |d| then e[w.block := w.data] else e
  }

  function PerformAll(d: Disk, groups: seq<seq<Write>>): (r: Disk)
    ensures |r| == |d|
  {
    if groups == [] then d else Perform(PerformAll(d, groups[..|groups| - 1]), groups[|groups| - 1])
  }

  /** What one operation contributes to a group, in order. */
  function OpWrites(ws: seq<Write>, op: nat): seq<Write>
  {
    if ws == [] then []
    else
      var rest, w := OpWrites(ws[..|ws| - 1], op), ws[|ws| - 1];
      if w.op == op then rest + [w] else rest
  }

  // ---------- the disk ----------

  /** The cache shows the durable state `e` with the current group on top; only logged blocks differ. */
  ghost predicate Overlay(g: Layout, e: Disk, view: Disk, lh: seq<nat>, group: seq<Write>)
  {
    && |view| == |e| && HomeEqual(g, Perform(e, group), view)
    && forall b :: 0 <= b < |e| && !InLog(g, b) && b !in lh ==> view[b] == e[b]
  }

  /** The groups that were durable when the current commit began. */
  ghost function Earlier(s: State): seq<seq<Write>>
  {
    if s.phase.Committing? && s.phase.k > |s.lh| > 0 && s.groups != [] then s.groups[..|s.groups| - 1] else s.groups
  }

  ghost predicate MemoryOk(g: Layout, e: Disk, disk: Disk, s: State)
  {
    && Fits(g, disk) && disk[g.start].words[0] == 0
    && Loggable(g, disk, s.lh) && HomeEqual(g, e, disk)
    && Overlay(g, e, s.view, s.lh, s.group)
  }

  ghost predicate MemoryLost(s: State) { s.open == map[] && s.lh == [] && s.group == [] }

  ghost predicate PhaseOk(g: Layout, d: Disk, s: State)
  {
    match s.phase
    case Active => MemoryOk(g, PerformAll(d, s.groups), s.disk, s)
    case Committing(k) =>
      && s.open == map[] && k <= Writes(|s.lh|)
      && MemoryOk(g, PerformAll(d, Earlier(s)), s.base, s)
      && s.disk == CommitDisk(g, s.base, s.view, s.lh, k)
      && (k > |s.lh| > 0 ==> s.groups != [] && s.groups[|s.groups| - 1] == s.group)
    case Down => MemoryLost(s)
    case Recovering(k) =>
      && MemoryLost(s) && Fits(g, s.base) && Recoverable(g, s.base) && k <= s.base[g.start].words[0]
      && s.disk == RecoverPartly(g, s.base, k)
  }

  /** The disk recovers to the effect of the durable groups. */
  ghost predicate Durable(g: Layout, d: Disk, s: State)
  {
    Recoverable(g, s.disk) && HomeEqual(g, PerformAll(d, s.groups), Recover(g, s.disk))
  }

  lemma LogWriteOverlay(g: Layout, e: Disk, view: Disk, lh: seq<nat>, group: seq<Write>, w: Write)
    requires Overlay(g, e, view, lh, group) && w.block < |e|
    ensures Overlay(g, e, view[w.block := w.data], Log.Absorb(lh, w.block), group + [w])
  {
    assert (group + [w])[..|group|] == group;
  }

  lemma LogWriteKeepsDisk(g: Layout, d: Disk, s: State, step: Step)
    requires step.LogWrite? && Enabled(g, s, step) && s.phase == Active
    requires PhaseOk(g, d, s) && Durable(g, d, s)
    ensures PhaseOk(g, d, Do(g, s, step)) && Durable(g, d, Do(g, s, step))
  {
    var e := PerformAll(d, s.groups);
    LogWriteOverlay(g, e, s.view, s.lh, s.group, Write(step.op, step.block, step.data));
    Log.AbsorbLoggable(g, s.disk, s.lh, step.block);
    hide Loggable, Overlay, HomeEqual, Recoverable, Recover;
  }

  /** A commit write before, at, or after the header. */
  lemma CommitWriteKeepsDisk(g: Layout, d: Disk, s: State)
    requires Enabled(g, s, CommitWrite) && PhaseOk(g, d, s) && Durable(g, d, s)
    ensures PhaseOk(g, d, Do(g, s, CommitWrite)) && Durable(g, d, Do(g, s, CommitWrite))
  {
    hide Loggable, Recoverable, Recover, HomeEqual, Overlay, Updated, CommitDisk, Perform, PerformAll;
    var s' := Do(g, s, CommitWrite);
    var e, k := PerformAll(d, Earlier(s)), s.phase.k + 1;
    CommitCrashAtomic(g, s.base, s.view, s.lh, k);
    assert Earlier(s') == Earlier(s) by {
      if k == |s.lh| + 1 {
        assert s'.groups[..|s.groups|] == s.groups;
      }
    }
    if k <= |s.lh| {
      HomeTransitive(g, e, s.base, Recover(g, s'.disk));
    } else {
      OverlayInstalls(g, e, s.base, s.view, s.lh, s.group, Recover(g, s'.disk));
      assert s'.groups == Earlier(s) + [s.group];
      PerformAllSnoc(d, Earlier(s), s.group);
    }
  }

  lemma PerformAllSnoc(d: Disk, groups: seq<seq<Write>>, group: seq<Write>)
    ensures PerformAll(d, groups + [group]) == Perform(PerformAll(d, groups), group)
  {
    assert (groups + [group])[..|groups|] == groups;
  }

  lemma HomeTransitive(g: Layout, a: Disk, b: Disk, c: Disk)
    requires HomeEqual(g, a, b) && HomeEqual(g, b, c)
    ensures HomeEqual(g, a, c)
  {
  }

  /** Installing the logged blocks over the durable state performs the group. */
  lemma OverlayInstalls(g: Layout, e: Disk, base: Disk, view: Disk, lh: seq<nat>, group: seq<Write>, r: Disk)
    requires HomeEqual(g, e, base) && Overlay(g, e, view, lh, group) && Updated(g, base, view, lh, r)
    ensures HomeEqual(g, Perform(e, group), r) && HomeEqual(g, view, r)
  {
  }

  lemma CommitDoneKeepsDisk(g: Layout, d: Disk, s: State)
    requires Enabled(g, s, CommitDone) && PhaseOk(g, d, s) && Durable(g, d, s)
    ensures PhaseOk(g, d, Do(g, s, CommitDone)) && Durable(g, d, Do(g, s, CommitDone))
  {
    var e, e' := PerformAll(d, Earlier(s)), PerformAll(d, s.groups);
    MemorySized(g, e, s.base, s);
    if |s.lh| == 0 {
      NothingLogged(g, e, s.view, s.group);
    } else {
      assert s.groups == Earlier(s) + [s.group];
      PerformAllSnoc(d, Earlier(s), s.group);
      CommitClears(g, s.base, s.view, s.lh);
      OverlayShown(g, e, s.view, s.lh, s.group);
    }
    hide Loggable, Recoverable, Recover, HomeEqual, Overlay, CommitDisk, Perform, PerformAll;
    assert s.disk[g.start].words[0] == 0;
    EmptyHeadRecovers(g, s.disk);
    HomeSymmetric(g, s.disk, Recover(g, s.disk));
    HomeTransitive(g, e', Recover(g, s.disk), s.disk);
    FreshOverlay(g, e', s.view);
  }

  lemma MemorySized(g: Layout, e: Disk, disk: Disk, s: State)
    requires MemoryOk(g, e, disk, s)
    ensures |s.view| == |e| == |disk|
  {
  }

  lemma NothingLogged(g: Layout, e: Disk, view: Disk, group: seq<Write>)
    requires Overlay(g, e, view, [], group)
    ensures HomeEqual(g, e, view)
  {
  }

  lemma OverlayShown(g: Layout, e: Disk, view: Disk, lh: seq<nat>, group: seq<Write>)
    requires Overlay(g, e, view, lh, group)
    ensures HomeEqual(g, Perform(e, group), view)
  {
  }

  lemma FreshOverlay(g: Layout, e: Disk, view: Disk)
    requires HomeEqual(g, e, view)
    ensures Overlay(g, e, view, [], [])
  {
  }

  lemma HomeSymmetric(g: Layout, a: Disk, b: Disk)
    requires HomeEqual(g, a, b)
    ensures HomeEqual(g, b, a)
  {
  }

  lemma RecoverWriteKeepsDisk(g: Layout, d: Disk, s: State)
    requires Enabled(g, s, RecoverWrite) && PhaseOk(g, d, s) && Durable(g, d, s)
    ensures PhaseOk(g, d, Do(g, s, RecoverWrite)) && Durable(g, d, Do(g, s, RecoverWrite))
  {
    hide Loggable, Recoverable, Recover, RecoverPartly, HomeEqual, Overlay, Perform, PerformAll;
    var k := s.phase.k;
    RecoverAfterCrash(g, s.base, k);
    if k < s.base[g.start].words[0] {
      RecoverAfterCrash(g, s.base, k + 1);
    } else {
      var e := Recover(g, s.base);
      RecoverIdempotent(g, s.base);
      Log.RecoveryEnds(g, s.base);
      Log.LogFitsDisk(g, e, []);
      FreshOverlay(g, PerformAll(d, s.groups), e);
    }
  }

  lemma EndKeepsDisk(g: Layout, d: Disk, s: State, op: nat)
    requires Enabled(g, s, End(op)) && PhaseOk(g, d, s) && Durable(g, d, s) && Counted(s)
    ensures PhaseOk(g, d, Do(g, s, End(op))) && Durable(g, d, Do(g, s, End(op)))
  {
    assert s.open != map[];
    MemorySized(g, PerformAll(d, s.groups), s.disk, s);
    EndCounts(s, op);
    hide Loggable, Recoverable, Recover, HomeEqual, Overlay, Perform, PerformAll, Counted;
  }

  lemma StepKeepsDisk(g: Layout, d: Disk, s: State, step: Step)
    requires Enabled(g, s, step) && PhaseOk(g, d, s) && Durable(g, d, s) && Counted(s)
    ensures PhaseOk(g, d, Do(g, s, step)) && Durable(g, d, Do(g, s, step))
  {
    match step
    case LogWrite(op, _, _) =>
      assert op in s.open;
      LogWriteKeepsDisk(g, d, s, step);
    case End(op) => EndKeepsDisk(g, d, s, op);
    case CommitWrite => CommitWriteKeepsDisk(g, d, s);
    case CommitDone => CommitDoneKeepsDisk(g, d, s);
    case RecoverWrite => RecoverWriteKeepsDisk(g, d, s);
    case Reboot => assert RecoverPartly(g, s.disk, 0) == s.disk;
    case Begin =>
    case Crash =>
  }

  // ---------- whole operations ----------

  lemma OpWritesSnoc(ws: seq<Write>, w: Write, op: nat)
    ensures OpWrites(ws + [w], op) == if w.op == op then OpWrites(ws, op) + [w] else OpWrites(ws, op)
    ensures Wrote(ws + [w], op) <==> Wrote(ws, op) || w.op == op
  {
    assert (ws + [w])[..|ws|] == ws;
  }

  predicate Wrote(group: seq<Write>, op: nat) { OpWrites(group, op) != [] }

  /** The operation began while group `i` was being filled, and all it ever wrote is in `group`. */
  ghost predicate WholeIn(s: State, group: seq<Write>, i: nat, op: nat)
  {
    op in s.written && s.written[op] == Record(i, OpWrites(group, op))
  }

  /** A durable group holds whole, finished operations. */
  ghost predicate GroupsWhole(s: State)
  {
    forall i: nat, op: nat {:trigger Wrote(s.groups[i], op)} :: i < |s.groups| && Wrote(s.groups[i], op) ==>
      op !in s.open && WholeIn(s, s.groups[i], i, op)
  }

  /** The operations of the current group, still open or not, have written only there. */
  ghost predicate GroupWhole(s: State)
  {
    && (forall op :: op in s.open || op in s.written ==> op < s.nextOp)
    && (forall op :: op in s.open ==> WholeIn(s, s.group, |Earlier(s)|, op))
    && (forall op: nat {:trigger Wrote(s.group, op)} :: Wrote(s.group, op) ==> WholeIn(s, s.group, |Earlier(s)|, op))
  }

  ghost predicate Whole(s: State) { GroupsWhole(s) && GroupWhole(s) }

  /** No operation is split over two durable groups. */
  lemma NoOpInTwoGroups(s: State, i: nat, j: nat, op: nat)
    requires GroupsWhole(s) && i < j < |s.groups| && Wrote(s.groups[i], op)
    ensures !Wrote(s.groups[j], op)
  {
    hide OpWrites, Wrote;
    assert WholeIn(s, s.groups[i], i, op);
    assert Wrote(s.groups[j], op) ==> WholeIn(s, s.groups[j], j, op);
  }

  lemma LogWriteKeepsWhole(g: Layout, s: State, step: Step)
    requires step.LogWrite? && Enabled(g, s, step) && s.phase == Active && Whole(s)
    ensures Whole(Do(g, s, step))
  {
    hide OpWrites, Wrote;
    var w, s' := Write(step.op, step.block, step.data), Do(g, s, step);
    forall i: nat, op: nat | i < |s'.groups| && Wrote(s'.groups[i], op)
      ensures op !in s'.open && WholeIn(s', s'.groups[i], i, op)
    {
      assert WholeIn(s, s.groups[i], i, op);
    }
    forall op: nat | op in s'.open || Wrote(s'.group, op)
      ensures WholeIn(s', s'.group, |Earlier(s')|, op)
    {
      OpWritesSnoc(s.group, w, op);
      assert WholeIn(s, s.group, |Earlier(s)|, op);
    }
  }

  lemma CommitWriteKeepsWhole(g: Layout, s: State)
    requires Enabled(g, s, CommitWrite) && s.open == map[] && Whole(s)
    requires s.phase.k > |s.lh| > 0 ==> s.groups != [] && s.groups[|s.groups| - 1] == s.group
    ensures Whole(Do(g, s, CommitWrite))
  {
    hide OpWrites, CommitDisk, Loggable;
    var s' := Do(g, s, CommitWrite);
    assert Earlier(s') == Earlier(s);
    forall i: nat, op: nat | i < |s'.groups| && Wrote(s'.groups[i], op)
      ensures WholeIn(s', s'.groups[i], i, op)
    {
      assert WholeIn(s, s'.groups[i], i, op);
    }
    forall op: nat | Wrote(s'.group, op) ensures WholeIn(s', s'.group, |Earlier(s')|, op) {
      assert WholeIn(s, s.group, |Earlier(s)|, op);
    }
  }

  /** The other steps write nothing: operations begin, end, or are forgotten. */
  lemma QuietStepKeepsWhole(g: Layout, s: State, step: Step)
    requires Enabled(g, s, step) && Whole(s) && !step.LogWrite? && !step.CommitWrite?
    requires step.Begin? || step.End? ==> s.phase == Active
    requires step.CommitDone? || step.Reboot? || step.RecoverWrite? ==> s.open == map[]
    requires step.Reboot? || step.RecoverWrite? ==> s.group == []
    requires step.Begin? ==> !Wrote(s.group, s.nextOp)
    ensures Whole(Do(g, s, step))
  {
    hide RecoverPartly, Recover, Recoverable;
    var s' := Do(g, s, step);
    forall i: nat, op: nat | i < |s'.groups| && Wrote(s'.groups[i], op)
      ensures op !in s'.open && WholeIn(s', s'.groups[i], i, op)
    {
      assert WholeIn(s, s.groups[i], i, op);
    }
    forall op: nat | op in s'.open || Wrote(s'.group, op)
      ensures WholeIn(s', s'.group, |Earlier(s')|, op)
    {
      assert op in s.open || Wrote(s.group, op) ==> WholeIn(s, s.group, |Earlier(s)|, op);
    }
  }

  lemma StepKeepsWhole(g: Layout, d: Disk, s: State, step: Step)
    requires Enabled(g, s, step) && PhaseOk(g, d, s) && Whole(s)
    ensures Whole(Do(g, s, step))
  {
    hide MemoryOk, Recoverable, CommitDisk, RecoverPartly, OpWrites;
    match step
    case LogWrite(op, _, _) =>
      assert op in s.open;
      LogWriteKeepsWhole(g, s, step);
    case CommitWrite => CommitWriteKeepsWhole(g, s);
    case Begin =>
      QuietStepKeepsWhole(g, s, step);
    case End(op) =>
      assert op in s.open;
      QuietStepKeepsWhole(g, s, step);
    case CommitDone => QuietStepKeepsWhole(g, s, step);
    case Crash => QuietStepKeepsWhole(g, s, step);
    case Reboot => QuietStepKeepsWhole(g, s, step);
    case RecoverWrite => QuietStepKeepsWhole(g, s, step);
  }

  // ---------- counting and the transaction budget ----------

  function Left(open: map<nat, set<nat>>, op: nat): int
  {
    if op in open then MAXOPBLOCKS - |open[op]| else 0
  }

  /** What the outstanding operations numbered below `n` may still add to the log. */
  function Slack(open: map<nat, set<nat>>, n: nat): int
  {
    if n == 0 then 0 else Slack(open, n - 1) + Left(open, n - 1)
  }

  /** How many operations numbered below `n` are outstanding. */
  function Count(open: map<nat, set<nat>>, n: nat): nat
  {
    if n == 0 then 0 else Count(open, n - 1) + if n - 1 in open then 1 else 0
  }

  ghost predicate Counted(s: State)
  {
    s.outstanding == Count(s.open, s.nextOp) && forall op :: op in s.open ==> op < s.nextOp
  }

  ghost predicate BudgetOk(s: State)
  {
    && (forall op :: op in s.open ==> |s.open[op]| <= MAXOPBLOCKS)
    && (forall op, b :: op in s.open && b in s.open[op] ==> b in s.lh)
    && |s.lh| + Slack(s.open, s.nextOp) <= LOGSIZE
  }

  /** Two tables that differ in one operation at most. */
  ghost predicate SameBut(open: map<nat, set<nat>>, open': map<nat, set<nat>>, op: nat)
  {
    forall p :: p != op ==> (p in open <==> p in open') && (p in open ==> open[p] == open'[p])
  }

  lemma {:induction false} SlackAt(open: map<nat, set<nat>>, open': map<nat, set<nat>>, n: nat, op: nat)
    requires SameBut(open, open', op)
    ensures Slack(open', n) - Slack(open, n) == if op < n then Left(open', op) - Left(open, op) else 0
    ensures Count(open', n) - Count(open, n) ==
            if op < n then (if op in open' then 1 else 0) - (if op in open then 1 else 0) else 0
  {
    if n > 0 {
      SlackAt(open, open', n - 1, op);
    }
  }

  lemma {:induction false} SlackBounds(open: map<nat, set<nat>>, n: nat)
    requires forall op :: op in open ==> |open[op]| <= MAXOPBLOCKS
    ensures 0 <= Slack(open, n) <= MAXOPBLOCKS * Count(open, n)
  {
    if n > 0 {
      SlackBounds(open, n - 1);
    }
  }

  lemma {:induction false} CountZero(open: map<nat, set<nat>>, n: nat, op: nat)
    requires op in open && op < n
    ensures Count(open, n) > 0
  {
    if op < n - 1 {
      CountZero(open, n - 1, op);
    }
  }

  /** end_op's counter reaches zero exactly when no operation is left. */
  lemma EndCounts(s: State, op: nat)
    requires op in s.open && Counted(s)
    ensures s.outstanding - 1 == Count(s.open - {op}, s.nextOp)
    ensures s.outstanding == 1 <==> s.open - {op} == map[]
  {
    var open' := s.open - {op};
    SlackAt(s.open, open', s.nextOp, op);
    if open' != map[] {
      var p :| p in open';
      CountZero(open', s.nextOp, p);
    } else {
      NoneCounts(s.nextOp);
    }
  }

  lemma NoneCounts(n: nat)
    ensures Count(map[], n) == 0 && Slack(map[], n) == 0
  {
  }

  lemma StepKeepsCount(g: Layout, s: State, step: Step)
    requires Enabled(g, s, step) && Counted(s)
    ensures Counted(Do(g, s, step))
  {
    hide Recoverable, CommitDisk, RecoverPartly, Recover, Loggable;
    match step
    case Begin => SlackAt(s.open, s.open[s.nextOp := {}], s.nextOp + 1, s.nextOp);
    case LogWrite(op, block, _) => SlackAt(s.open, s.open[op := s.open[op] + {block}], s.nextOp, op);
    case End(op) => EndCounts(s, op);
    case Crash => NoneCounts(s.nextOp);
    case _ =>
  }

  lemma LogWriteKeepsBudget(g: Layout, s: State, step: Step)
    requires step.LogWrite? && Enabled(g, s, step) && Within(s, step) && BudgetOk(s) && Counted(s)
    ensures BudgetOk(Do(g, s, step))
  {
    var open' := s.open[step.op := s.open[step.op] + {step.block}];
    SlackAt(s.open, open', s.nextOp, step.op);
    assert step.block !in s.open[step.op] ==> |open'[step.op]| == |s.open[step.op]| + 1;
    assert step.block in s.open[step.op] ==> open'[step.op] == s.open[step.op];
  }

  lemma StepKeepsBudget(g: Layout, d: Disk, s: State, step: Step)
    requires Enabled(g, s, step) && Within(s, step) && PhaseOk(g, d, s) && BudgetOk(s) && Counted(s)
    ensures BudgetOk(Do(g, s, step))
  {
    hide MemoryOk, Recoverable, CommitDisk, RecoverPartly, Recover, Loggable;
    match step
    case Begin =>
      SlackBounds(s.open, s.nextOp);
      SlackAt(s.open, s.open[s.nextOp := {}], s.nextOp + 1, s.nextOp);
    case LogWrite(_, _, _) => LogWriteKeepsBudget(g, s, step);
    case End(op) => SlackAt(s.open, s.open - {op}, s.nextOp, op);
    case CommitDone => NoneCounts(s.nextOp);
    case Crash => NoneCounts(s.nextOp);
    case _ =>
  }

  lemma RoomInState(s: State, op: nat)
    requires BudgetOk(s) && Counted(s) && op in s.open && |s.open[op]| < MAXOPBLOCKS
    ensures |s.lh| < LOGSIZE && s.outstanding > 0
  {
    var rest := s.open - {op};
    SlackAt(rest, s.open, s.nextOp, op);
    SlackBounds(rest, s.nextOp);
    CountZero(s.open, s.nextOp, op);
  }

  // ---------- whole runs ----------

  ghost predicate Inv(g: Layout, d: Disk, s: State)
  {
    PhaseOk(g, d, s) && Durable(g, d, s) && Whole(s) && Counted(s)
  }

  lemma {:induction false} RunInv(g: Layout, d: Disk, run: seq<State>, steps: seq<Step>, i: nat)
    requires Run(g, d, run, steps) && i < |run|
    ensures Inv(g, d, run[i])
  {
    if i == 0 {
      EmptyHeadRecovers(g, d);
    } else {
      RunInv(g, d, run, steps, i - 1);
      hide PhaseOk, Durable, Whole, Counted;
      StepKeepsCount(g, run[i - 1], steps[i - 1]);
      StepKeepsDisk(g, d, run[i - 1], steps[i - 1]);
      StepKeepsWhole(g, d, run[i - 1], steps[i - 1]);
    }
  }

  lemma {:induction false} RunBudget(g: Layout, d: Disk, run: seq<State>, steps: seq<Step>, i: nat)
    requires Run(g, d, run, steps) && Budgeted(run, steps) && i < |run|
    ensures BudgetOk(run[i])
  {
    hide PhaseOk, Durable, Whole, Counted, Within;
    if i > 0 {
      RunBudget(g, d, run, steps, i - 1);
      RunInv(g, d, run, steps, i - 1);
      StepKeepsBudget(g, d, run[i - 1], steps[i - 1]);
    }
  }

  /** In runs within the budget, an operation that has logged fewer than MAXOPBLOCKS blocks finds room in the header. */
  lemma RoomForOperation(g: Layout, d: Disk, run: seq<State>, steps: seq<Step>, i: nat, op: nat)
    requires Run(g, d, run, steps) && Budgeted(run, steps) && i < |run| && op in run[i].open && |run[i].open[op]| < MAXOPBLOCKS
    ensures |run[i].lh| < LOGSIZE && run[i].outstanding > 0
  {
    RunInv(g, d, run, steps, i);
    RunBudget(g, d, run, steps, i);
    hide PhaseOk, Durable, Whole, BudgetOk, Counted;
    RoomInState(run[i], op);
  }

  /**
   Group commit. At every moment of every run, a crash followed by recovery leaves the home
   blocks as the durable groups, performed in order, make them; every durable group consists
   of whole operations that have ended; and no durable group is ever lost.
   */
  lemma GroupCommit(g: Layout, d: Disk, run: seq<State>, steps: seq<Step>, i: nat, j: nat)
    requires Run(g, d, run, steps) && i <= j < |run|
    ensures Recoverable(g, run[j].disk)
    ensures HomeEqual(g, PerformAll(d, run[j].groups), Recover(g, run[j].disk))
    ensures GroupsWhole(run[j])
    ensures run[i].groups <= run[j].groups
  {
    hide OpWrites, Perform, Recover, Recoverable, PhaseOk, HomeEqual, GroupsWhole, GroupWhole;
    RunInv(g, d, run, steps, j);
    GroupsGrow(g, d, run, steps, i, j);
  }

  lemma {:induction false} GroupsGrow(g: Layout, d: Disk, run: seq<State>, steps: seq<Step>, i: nat, j: nat)
    requires Run(g, d, run, steps) && i <= j < |run|
    ensures run[i].groups <= run[j].groups
    decreases j
  {
    hide Recover, Recoverable, RecoverPartly, CommitDisk, Loggable;
    if i < j {
      GroupsGrow(g, d, run, steps, i, j - 1);
      assert run[j - 1 + 1] == Do(g, run[j - 1], steps[j - 1]);
    }
  }

  /** While a commit or a recovery runs no operation is open, so nothing can be logged and end_op's panic cannot happen. */
  lemma NoLogWriteDuringCommit(g: Layout, d: Disk, run: seq<State>, steps: seq<Step>, i: nat)
    requires Run(g, d, run, steps) && i < |run| && run[i].open != map[]
    ensures run[i].phase == Active && Distinct(run[i].lh)
  {
    RunInv(g, d, run, steps, i);
  }

  // ---------- when log_write panics ----------

  /** An operation within its budget, about to log, meets one of log_write's panics. */
  ghost predicate BudgetedPanic(g: Layout, s: State, op: nat, block: nat)
  {
    && Allowed(g, s, op, block) && |s.open[op]| < MAXOPBLOCKS
    && Log.LogWritePanics(|s.lh|, g.size, s.outstanding)
  }

  lemma BudgetedPanicNeedsSmallLog(g: Layout, d: Disk, run: seq<State>, steps: seq<Step>, i: nat, op: nat, block: nat)
    requires Run(g, d, run, steps) && Budgeted(run, steps) && i < |run| && BudgetedPanic(g, run[i], op, block)
    ensures g.size <= LOGSIZE
  {
    RoomForOperation(g, d, run, steps, i, op);
  }

  /** Three operations begin, then log home blocks one after the other, ten each. */
  function FillStep(g: Layout, data: Block, j: nat): Step
  {
    if j < 3 then Begin else LogWrite((j - 3) / MAXOPBLOCKS, g.start + g.size + j - 3, data)
  }

  /** How many of the first `j` steps are log writes of operation `op`. */
  function FillCount(j: nat, op: nat): nat
  {
    if j - 3 <= MAXOPBLOCKS * op then 0
    else if j - 3 >= MAXOPBLOCKS * op + MAXOPBLOCKS then MAXOPBLOCKS
    else j - 3 - MAXOPBLOCKS * op
  }

  ghost predicate Filled(g: Layout, d: Disk, s: State, j: nat)
  {
    && s.phase == Active && s.disk == d && |s.view| == |d|
    && s.nextOp == s.outstanding == (if j < 3 then j else 3)
    && s.lh == seq(if j < 3 then 0 else j - 3, i => g.start + g.size + i)
    && (forall op :: op in s.open <==> 0 <= op < s.nextOp)
    && (forall op :: 0 <= op < s.nextOp ==> op in s.written)
    && (forall op :: 0 <= op < s.nextOp ==> |s.open[op]| == FillCount(j, op))
    && (forall op, b :: op in s.open && b in s.open[op] ==> b in s.lh)
  }

  lemma FillEnabled(g: Layout, d: Disk, data: Block, s: State, j: nat)
    requires Fits(g, d) && Filled(g, d, s, j) && g.start + g.size + LOGSIZE <= |d|
    requires j < 3 + LOGSIZE && (j >= 3 ==> j - 3 + 1 < g.size)
    ensures Enabled(g, s, FillStep(g, data, j)) && Within(s, FillStep(g, data, j))
  {
    var step := FillStep(g, data, j);
    if j >= 3 {
      assert step.op < 3 && j - 3 < MAXOPBLOCKS * step.op + MAXOPBLOCKS;
    }
  }

  lemma FillOne(g: Layout, d: Disk, data: Block, s: State, j: nat)
    requires Fits(g, d) && Filled(g, d, s, j) && g.start + g.size + LOGSIZE <= |d|
    requires j < 3 + LOGSIZE && (j >= 3 ==> j - 3 + 1 < g.size)
    ensures Enabled(g, s, FillStep(g, data, j)) && Filled(g, d, Do(g, s, FillStep(g, data, j)), j + 1)
    ensures Within(s, FillStep(g, data, j))
  {
    hide Enabled, Within, Fits, Filled, Do;
    FillEnabled(g, d, data, s, j);
    if j < 3 {
      FillBegins(g, d, s, j);
    } else {
      FillWrites(g, d, data, s, j, (j - 3) / MAXOPBLOCKS);
    }
  }

  lemma FillBegins(g: Layout, d: Disk, s: State, j: nat)
    requires Filled(g, d, s, j) && j < 3
    ensures Filled(g, d, Do(g, s, Begin), j + 1)
  {
  }

  lemma FillWrites(g: Layout, d: Disk, data: Block, s: State, j: nat, op: nat)
    requires Filled(g, d, s, j) && 3 <= j < 3 + LOGSIZE && Enabled(g, s, LogWrite(op, g.start + g.size + j - 3, data))
    requires op < 3 && MAXOPBLOCKS * op <= j - 3 < MAXOPBLOCKS * op + MAXOPBLOCKS
    ensures Filled(g, d, Do(g, s, LogWrite(op, g.start + g.size + j - 3, data)), j + 1)
  {
    hide FillCount;
    assert g.start + g.size + j - 3 !in s.lh;
    forall o: nat ensures FillCount(j + 1, o) == FillCount(j, o) + if o == op then 1 else 0 {
      FillCountNext(j, op, o);
    }
  }

  lemma FillCountNext(j: nat, op: nat, o: nat)
    requires MAXOPBLOCKS * op <= j - 3 < MAXOPBLOCKS * op + MAXOPBLOCKS
    ensures FillCount(j + 1, o) == FillCount(j, o) + if o == op then 1 else 0
  {
  }

  lemma RunSnoc(g: Layout, d: Disk, run: seq<State>, steps: seq<Step>, step: Step)
    requires Run(g, d, run, steps) && Enabled(g, run[|steps|], step) && Budgeted(run, steps) && Within(run[|steps|], step)
    ensures Run(g, d, run + [Do(g, run[|steps|], step)], steps + [step])
    ensures Budgeted(run + [Do(g, run[|steps|], step)], steps + [step])
  {
    hide Enabled, Do, Within;
    var run', steps' := run + [Do(g, run[|steps|], step)], steps + [step];
    forall i | 0 <= i < |steps'| ensures Enabled(g, run'[i], steps'[i]) && run'[i + 1] == Do(g, run'[i], steps'[i]) {
      if i < |steps| {
        assert run'[i] == run[i] && run'[i + 1] == run[i + 1] && steps'[i] == steps[i];
      }
    }
  }

  lemma {:induction false} FillReached(g: Layout, d: Disk, data: Block, j: nat) returns (run: seq<State>, steps: seq<Step>)
    requires Fits(g, d) && d[g.start].words[0] == 0 && g.start + g.size + LOGSIZE <= |d|
    requires j <= 3 + LOGSIZE && (j > 3 ==> j - 3 < g.size)
    ensures |steps| == j && Run(g, d, run, steps) && Budgeted(run, steps) && Filled(g, d, run[j], j)
  {
    if j == 0 {
      run, steps := [State(d, d, d, [], 0, map[], 0, [], Active, [], map[])], [];
    } else {
      run, steps := FillReached(g, d, data, j - 1);
      var step := FillStep(g, data, j - 1);
      FillOne(g, d, data, run[j - 1], j - 1);
      hide Enabled, Do, Filled, Within;
      RunSnoc(g, d, run, steps, step);
      run, steps := run + [Do(g, run[j - 1], step)], steps + [step];
    }
  }

  ghost predicate SomeRunPanics(g: Layout, d: Disk)
  {
    exists run, steps, i: nat, op: nat, block: nat ::
      Run(g, d, run, steps) && Budgeted(run, steps) && i < |run| && BudgetedPanic(g, run[i], op, block)
  }

  /**
   The reservation of begin_op protects every operation from log_write's panics exactly when
   the log area has more than LOGSIZE blocks. The file system image is built with LOGSIZE.
   */
  lemma ReservationProtects(g: Layout, d: Disk)
    requires Fits(g, d) && d[g.start].words[0] == 0 && g.start + g.size + LOGSIZE <= |d|
    ensures SomeRunPanics(g, d) <==> g.size <= LOGSIZE
  {
    if g.size <= LOGSIZE {
      var n := g.size - 1;
      var run, steps := FillReached(g, d, d[0], 3 + n);
      var s, op, block := run[3 + n], n / MAXOPBLOCKS, g.start + g.size + n;
      assert |s.open[op]| < MAXOPBLOCKS;
      assert BudgetedPanic(g, s, op, block);
    } else if SomeRunPanics(g, d) {
      var run, steps, i: nat, op: nat, block: nat :|
        Run(g, d, run, steps) && Budgeted(run, steps) && i < |run| && BudgetedPanic(g, run[i], op, block);
      BudgetedPanicNeedsSmallLog(g, d, run, steps, i, op, block);
    }
  }

  /**
   log_write checks for room before it looks for the block, so with a full header even a block
   that is listed already cannot be logged again, however large the log area is.
   */
  lemma RelogPanics(g: Layout, d: Disk) returns (run: seq<State>, steps: seq<Step>)
    requires Fits(g, d) && d[g.start].words[0] == 0 && g.start + g.size + LOGSIZE <= |d| && g.size > LOGSIZE
    ensures Run(g, d, run, steps) && Budgeted(run, steps)
    ensures var s := run[|steps|];
            0 in s.open && g.start + g.size in s.lh && Log.LogWritePanics(|s.lh|, g.size, s.outstanding)
  {
    run, steps := FillReached(g, d, d[0], 3 + LOGSIZE);
    assert run[|steps|].lh[0] == g.start + g.size;
  }

  // ---------- recovery comes to an end ----------

  lemma RunOn(g: Layout, d: Disk, run: seq<State>, steps: seq<Step>, step: Step)
    requires Run(g, d, run, steps) && Enabled(g, run[|steps|], step)
    ensures Run(g, d, run + [Do(g, run[|steps|], step)], steps + [step])
  {
    hide Enabled, Do;
    var run', steps' := run + [Do(g, run[|steps|], step)], steps + [step];
    forall i | 0 <= i < |steps'| ensures Enabled(g, run'[i], steps'[i]) && run'[i + 1] == Do(g, run'[i], steps'[i]) {
      if i < |steps| {
        assert run'[i] == run[i] && run'[i + 1] == run[i + 1] && steps'[i] == steps[i];
      }
    }
  }

  /** Up again: nothing is open or logged, and cache and disk agree. */
  predicate Restarted(s: State, disk: Disk)
  {
    s.phase == Active && s.open == map[] && s.outstanding == 0 && s.lh == [] && s.view == s.disk == disk
  }

  /** Recovery of the disk `base` after `k` of its blocks. */
  predicate InRecovery(s: State, base: Disk, k: nat)
  {
    s.phase == Recovering(k) && s.base == base && s.open == map[] && s.outstanding == 0 && s.lh == []
  }

  lemma {:induction false} RecoveryGoesOn(g: Layout, d: Disk, run: seq<State>, steps: seq<Step>, base: Disk, k: nat)
      returns (run': seq<State>, steps': seq<Step>)
    requires Run(g, d, run, steps) && InRecovery(run[|steps|], base, k) && Recoverable(g, base) && k <= base[g.start].words[0]
    ensures Run(g, d, run', steps') && run <= run' && Restarted(run'[|steps'|], Recover(g, base))
    decreases base[g.start].words[0] - k
  {
    hide Recover, RecoverPartly;
    var s := run[|steps|];
    var s' := Do(g, s, RecoverWrite);
    RunOn(g, d, run, steps, RecoverWrite);
    run', steps' := run + [s'], steps + [RecoverWrite];
    if k < base[g.start].words[0] {
      run', steps' := RecoveryGoesOn(g, d, run', steps', base, k + 1);
    }
  }

  /** From every moment of every run: a crash, a reboot and a recovery that ends, with the disk that recovery is said to give. */
  lemma CrashRecovers(g: Layout, d: Disk, run: seq<State>, steps: seq<Step>) returns (run': seq<State>, steps': seq<Step>)
    requires Run(g, d, run, steps)
    ensures Run(g, d, run', steps') && run <= run' && |steps'| > |steps| && run'[|run|].phase == Down
    ensures Recoverable(g, run[|steps|].disk) && Restarted(run'[|steps'|], Recover(g, run[|steps|].disk))
  {
    RunInv(g, d, run, steps, |steps|);
    hide Recover, Recoverable, PhaseOk, Whole, Counted;
    var s := run[|steps|];
    RunOn(g, d, run, steps, Crash);
    run', steps' := run + [Do(g, s, Crash)], steps + [Crash];
    RunOn(g, d, run', steps', Reboot);
    run', steps' := run' + [Do(g, run'[|steps'|], Reboot)], steps' + [Reboot];
    ghost var before := run';
    HeadCount(g, s.disk);
    run', steps' := RecoveryGoesOn(g, d, run', steps', s.disk, 0);
    assert run'[|run|] == before[|run|];
  }

  lemma HeadCount(g: Layout, d: Disk)
    requires Recoverable(g, d)
    ensures Fits(g, d)
  {
  }
}
