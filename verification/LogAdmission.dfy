/** What the reservation of begin_op (fs/sfs/log.c:125-141) is for: when it is safe to let one more operation start. */
module LogAdmission {
  import opened Common
  import opened Blocks
  import opened LogSpec
  import opened LogRuns
  import Log

  /** A run from any state, in which no operation logs more than MAXOPBLOCKS blocks. */
  ghost predicate Goes(g: Layout, s: State, run: seq<State>, steps: seq<Step>)
  {
    && |run| == |steps| + 1 && run[0] == s
    && forall i :: 0 <= i < |steps| ==> Enabled(g, run[i], steps[i]) && Within(run[i], steps[i]) && run[i + 1] == Do(g, run[i], steps[i])
  }

  /** An operation that has logged fewer than MAXOPBLOCKS blocks wants to log another and the header is full. */
  ghost predicate NoRoom(g: Layout, s: State, op: nat, block: nat)
  {
    Allowed(g, s, op, block) && |s.open[op]| < MAXOPBLOCKS && |s.lh| >= LOGSIZE
  }

  /** What can follow from a state leads to such an operation. */
  ghost predicate Overflows(g: Layout, s: State)
  {
    exists run, steps, op: nat, block: nat :: Goes(g, s, run, steps) && NoRoom(g, run[|steps|], op, block)
  }

  ghost predicate Steady(g: Layout, d: Disk, s: State)
  {
    PhaseOk(g, d, s) && Durable(g, d, s) && Counted(s) && BudgetOk(s)
  }

  lemma {:induction false} GoesSteady(g: Layout, d: Disk, s: State, run: seq<State>, steps: seq<Step>, i: nat)
    requires Goes(g, s, run, steps) && Steady(g, d, s) && i < |run|
    ensures Steady(g, d, run[i])
  {
    if i > 0 {
      GoesSteady(g, d, s, run, steps, i - 1);
      hide PhaseOk, Durable, Counted, BudgetOk;
      StepKeepsCount(g, run[i - 1], steps[i - 1]);
      StepKeepsDisk(g, d, run[i - 1], steps[i - 1]);
      StepKeepsBudget(g, d, run[i - 1], steps[i - 1]);
    }
  }

  lemma SteadyIsSafe(g: Layout, d: Disk, s: State)
    requires Steady(g, d, s)
    ensures !Overflows(g, s)
  {
    hide Steady, Enabled, Do, Within;
    if Overflows(g, s) {
      var run, steps, op: nat, block: nat :| Goes(g, s, run, steps) && NoRoom(g, run[|steps|], op, block);
      LastSteady(g, d, s, run, steps);
      NoRoomIsUnsteady(g, d, run[|steps|], op, block);
    }
  }

  lemma LastSteady(g: Layout, d: Disk, s: State, run: seq<State>, steps: seq<Step>)
    requires Goes(g, s, run, steps) && Steady(g, d, s)
    ensures |run| == |steps| + 1 && Steady(g, d, run[|steps|])
  {
    GoesSteady(g, d, s, run, steps, |steps|);
  }

  lemma NoRoomIsUnsteady(g: Layout, d: Disk, s: State, op: nat, block: nat)
    requires Steady(g, d, s)
    ensures !NoRoom(g, s, op, block)
  {
    hide PhaseOk, Durable, BudgetOk, Counted;
    if NoRoom(g, s, op, block) {
      RoomInState(s, op);
    }
  }

  // ---------- the way to a full header ----------

  /** Open operations and the header, while they log block after block. */
  ghost predicate Crowded(g: Layout, s: State)
  {
    && Counted(s) && |s.view| == |s.disk| && g.start + g.size + LOGSIZE < |s.disk|
    && (forall op :: op in s.open ==> op in s.written && |s.open[op]| <= MAXOPBLOCKS)
    && (forall op, b :: op in s.open && b in s.open[op] ==> b in s.lh)
    && |s.lh| <= LOGSIZE < |s.lh| + Slack(s.open, s.nextOp)
  }

  lemma {:induction false} SomeoneLeft(open: map<nat, set<nat>>, n: nat) returns (op: nat)
    requires Slack(open, n) > 0
    ensures op in open && op < n && |open[op]| < MAXOPBLOCKS
  {
    if Left(open, n - 1) > 0 {
      op := n - 1;
    } else {
      op := SomeoneLeft(open, n - 1);
    }
  }

  function Members(lh: seq<nat>): set<nat> { set x | x in lh }

  function Range(from: nat, n: nat): set<nat> { if n == 0 then {} else Range(from, n - 1) + {from + n - 1} }

  lemma {:induction false} CountRange(from: nat, n: nat)
    ensures |Range(from, n)| == n && forall b :: b in Range(from, n) ==> from <= b < from + n
  {
    if n > 0 {
      CountRange(from, n - 1);
      assert from + n - 1 !in Range(from, n - 1);
    }
  }

  /** More blocks than the list has: one of them is not listed. */
  lemma Unlisted(lh: seq<nat>, from: nat, n: nat) returns (b: nat)
    requires |lh| < n
    ensures from <= b < from + n && b !in lh
  {
    CountRange(from, n);
    CountMembers(lh);
    if Range(from, n) <= Members(lh) {
      SubsetSize(Range(from, n), Members(lh));
    }
    b :| b in Range(from, n) && b !in Members(lh);
  }

  lemma {:induction false} CountMembers(lh: seq<nat>)
    ensures |Members(lh)| <= |lh|
  {
    if lh == [] {
      assert Members(lh) == {};
    } else {
      var init, last := lh[..|lh| - 1], lh[|lh| - 1];
      CountMembers(init);
      assert lh == init + [last];
      assert Members(lh) == Members(init) + {last};
    }
  }

  /** One block more: the header grows, and what is left to log shrinks as much. */
  lemma CrowdedStep(g: Layout, s: State, op: nat, b: nat)
    requires Crowded(g, s) && |s.lh| < LOGSIZE < g.size && op in s.open && |s.open[op]| < MAXOPBLOCKS
    requires g.start + g.size <= b < |s.disk| && b !in s.lh
    ensures var step := LogWrite(op, b, s.view[b]);
            Enabled(g, s, step) && Within(s, step) && Crowded(g, Do(g, s, step)) && |Do(g, s, step).lh| == |s.lh| + 1
  {
    var step := LogWrite(op, b, s.view[b]);
    var open' := s.open[op := s.open[op] + {b}];
    SlackAt(s.open, open', s.nextOp, op);
    CountZero(s.open, s.nextOp, op);
    assert |open'[op]| == |s.open[op]| + 1;
  }

  lemma {:induction false} CrowdedOverflows(g: Layout, s: State) returns (run: seq<State>, steps: seq<Step>, op: nat, block: nat)
    requires Crowded(g, s) && g.size > LOGSIZE
    ensures Goes(g, s, run, steps) && NoRoom(g, run[|steps|], op, block)
    decreases LOGSIZE - |s.lh|
  {
    op := SomeoneLeft(s.open, s.nextOp);
    if |s.lh| == LOGSIZE {
      run, steps, block := [s], [], g.start + g.size;
    } else {
      var b := Unlisted(s.lh, g.start + g.size, LOGSIZE + 1);
      CrowdedStep(g, s, op, b);
      hide Crowded, Enabled, Do, Within, NoRoom;
      var step := LogWrite(op, b, s.view[b]);
      run, steps, op, block := CrowdedOverflows(g, Do(g, s, step));
      GoesCons(g, s, step, run, steps);
      run, steps := [s] + run, [step] + steps;
    }
  }

  lemma GoesCons(g: Layout, s: State, step: Step, run: seq<State>, steps: seq<Step>)
    requires Enabled(g, s, step) && Within(s, step) && Goes(g, Do(g, s, step), run, steps)
    ensures Goes(g, s, [s] + run, [step] + steps) && ([s] + run)[|steps| + 1] == run[|steps|]
  {
    hide Enabled, Within, Do;
    var run', steps' := [s] + run, [step] + steps;
    forall i | 0 <= i < |steps'| ensures Enabled(g, run'[i], steps'[i]) && Within(run'[i], steps'[i]) && run'[i + 1] == Do(g, run'[i], steps'[i]) {
      if i > 0 {
        assert run'[i] == run[i - 1] && steps'[i] == steps[i - 1] && run'[i + 1] == run[i];
      }
    }
  }

  // ---------- when one more operation is safe ----------

  lemma StartedSlack(s: State)
    requires Counted(s)
    ensures Counted(Started(s)) && Slack(Started(s).open, Started(s).nextOp) == Slack(s.open, s.nextOp) + MAXOPBLOCKS
  {
    SlackAt(s.open, s.open[s.nextOp := {}], s.nextOp + 1, s.nextOp);
  }

  lemma StartedSteady(g: Layout, d: Disk, s: State)
    requires Steady(g, d, s) && s.phase == Active && |s.lh| + Slack(s.open, s.nextOp) + MAXOPBLOCKS <= LOGSIZE
    ensures Steady(g, d, Started(s))
  {
    hide Slack, Count;
    StartedSlack(s);
  }

  lemma StartedCrowded(g: Layout, d: Disk, s: State)
    requires Steady(g, d, s) && Whole(s) && s.phase == Active && |s.lh| + Slack(s.open, s.nextOp) + MAXOPBLOCKS > LOGSIZE
    requires g.start + g.size + LOGSIZE < |s.disk|
    ensures Crowded(g, Started(s))
  {
    MemorySized(g, PerformAll(d, s.groups), s.disk, s);
    SlackBounds(s.open, s.nextOp);
    hide Slack, Count, PhaseOk, Durable;
    StartedSlack(s);
  }

  lemma {:induction false} NothingLogged(open: map<nat, set<nat>>, n: nat)
    requires forall op :: op in open ==> open[op] == {}
    ensures Slack(open, n) == MAXOPBLOCKS * Count(open, n)
  {
    if n > 0 {
      NothingLogged(open, n - 1);
    }
  }

  /**
   Letting one more operation start is safe, whatever happens then, exactly when the header has room for the blocks
   that the open operations may still log and MAXOPBLOCKS more. begin_op admits only then. It counts MAXOPBLOCKS for
   every open operation, whatever that has logged, so it refuses exactly the unsafe starts as long as none has logged.
   */
  lemma AdmissionExactly(g: Layout, d: Disk, run: seq<State>, steps: seq<Step>, i: nat)
    requires Run(g, d, run, steps) && Budgeted(run, steps) && i < |run| && run[i].phase == Active
    requires g.size > LOGSIZE && g.start + g.size + LOGSIZE < |run[i].disk|
    ensures var s := run[i]; Overflows(g, Started(s)) <==> |s.lh| + Slack(s.open, s.nextOp) + MAXOPBLOCKS > LOGSIZE
    ensures var s := run[i]; Log.Admits(|s.lh|, s.outstanding, false) ==> !Overflows(g, Started(s))
    ensures var s := run[i]; (forall op :: op in s.open ==> s.open[op] == {}) ==>
              (Overflows(g, Started(s)) <==> !Log.Admits(|s.lh|, s.outstanding, false))
  {
    var s := run[i];
    RunInv(g, d, run, steps, i);
    RunBudget(g, d, run, steps, i);
    SlackBounds(s.open, s.nextOp);
    hide Slack, Count, Whole, PhaseOk, Durable, Overflows;
    if |s.lh| + Slack(s.open, s.nextOp) + MAXOPBLOCKS <= LOGSIZE {
      StartedSteady(g, d, s);
      SteadyIsSafe(g, d, Started(s));
    } else {
      StartedCrowded(g, d, s);
      CrowdedMeets(g, Started(s));
    }
    if forall op :: op in s.open ==> s.open[op] == {} {
      NothingLogged(s.open, s.nextOp);
    }
  }

  lemma CrowdedMeets(g: Layout, s: State)
    requires Crowded(g, s) && g.size > LOGSIZE
    ensures Overflows(g, s)
  {
    hide Crowded, Goes, NoRoom;
    var run, steps, op, block := CrowdedOverflows(g, s);
  }

  /**
   Beyond that it refuses more than it must: with one operation open that has logged one of eleven blocks, a
   second one would fit, whatever both log, and has to wait.
   */
  lemma RefusesTooMuch(g: Layout, d: Disk) returns (run: seq<State>, steps: seq<Step>)
    requires Fits(g, d) && d[g.start].words[0] == 0 && g.start + g.size + LOGSIZE < |d| && g.size > LOGSIZE
    ensures Run(g, d, run, steps) && Budgeted(run, steps)
    ensures var s := run[|steps|];
            s.phase == Active && !Log.Admits(|s.lh|, s.outstanding, false) && !Overflows(g, Started(s))
  {
    run, steps := FillReached(g, d, d[0], 14);
    var s := run[14];
    RunInv(g, d, run, steps, 14);
    FilledEnds(g, d, s);
    hide Enabled, Do, Within, Filled, Inv, Overflows, Slack;
    var s1 := Do(g, s, End(0));
    RunSnoc(g, d, run, steps, End(0));
    run, steps := run + [s1], steps + [End(0)];
    RunSnoc(g, d, run, steps, End(2));
    run, steps := run + [Do(g, s1, End(2))], steps + [End(2)];
    AdmissionExactly(g, d, run, steps, 16);
  }

  /** Eleven blocks logged by three operations: two of them end. */
  lemma FilledEnds(g: Layout, d: Disk, s: State)
    requires Filled(g, d, s, 14)
    ensures Enabled(g, s, End(0)) && Within(s, End(0)) && Enabled(g, Do(g, s, End(0)), End(2)) && Within(Do(g, s, End(0)), End(2))
    ensures var e := Do(g, Do(g, s, End(0)), End(2));
            e.phase == Active && e.disk == d && |e.lh| == 11 && e.outstanding == 1 && Slack(e.open, e.nextOp) == 9
  {
    var e := Do(g, Do(g, s, End(0)), End(2));
    assert |s.open[1]| == 1;
    assert e.open == map[1 := s.open[1]] && e.nextOp == 3;
    assert Slack(e.open, 0) == 0 && Slack(e.open, 1) == 0 && Slack(e.open, 2) == 9 && Slack(e.open, 3) == 9;
  }
}
