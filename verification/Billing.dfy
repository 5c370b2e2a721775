/** The stored cost of a task is the sum of exactly the runs whose result reached the store. */
module Billing {
  import opened Text
  import opened Options
  import opened ClaudeOutput
  import opened Cost
  import opened Tasks
  import opened Protocol
  import opened Lifecycle

  datatype Bill = Bill(op: int, cr: ClaudeResult)

  ghost predicate HasBill(bills: seq<Bill>, k: int) {
    exists i :: 0 <= i < |bills| && bills[i].op == k
  }

  /** The runs that committed at least one write after their cost was added, each once, in the
      order of their first such write. */
  ghost function Bills(commits: seq<Commit>): seq<Bill> {
    if commits == [] then []
    else
      var before := Bills(commits[..|commits| - 1]);
      var c := commits[|commits| - 1];
      if c.billed.Some? && !HasBill(before, c.op) then before + [Bill(c.op, c.billed.value)] else before
  }

  ghost function Results(bills: seq<Bill>): seq<ClaudeResult> {
    seq(|bills|, i requires 0 <= i < |bills| => bills[i].cr)
  }

  ghost function Owed(commits: seq<Commit>): Option<Costs> {
    Billed(Results(Bills(commits)))
  }

  predicate BeforeRun(stage: Stage) {
    stage.Claiming? || stage.Starting? || stage.PostingStart? || stage.AwaitingSandbox? || stage.SavingPod?
    || stage.FetchingToken? || stage.Executing? || stage.Resuming?
  }

  /** How the cost in a writer's copy relates to the committed cost `base` that it is based on:
      `billed` tells whether its run is billed now, `billedThen` whether it was in that version. */
  ghost predicate CostView(op: Op, base: Option<Costs>, billed: bool, billedThen: bool) {
    && (op.ran.None? ==> !billed)
    && (BeforeRun(op.stage) ==> op.ran.None?)
    && (!op.stage.Finished? ==>
          op.st.costReport ==
            if op.ran.None? || billedThen then base else Some(Accumulate(base, op.ran.value)))
  }

  ghost predicate CostOk(ts: TaskState, k: nat)
    requires k < |ts.ops| && ts.ops[k].version < |ts.hist| == |ts.commits|
  {
    var v := ts.ops[k].version;
    CostView(ts.ops[k], ts.hist[v].costReport, HasBill(Bills(ts.commits), k), HasBill(Bills(ts.commits[..v + 1]), k))
  }

  /** Every committed version holds what was owed then. */
  ghost predicate HistoryOk(hist: seq<Status>, commits: seq<Commit>) {
    && |hist| == |commits| > 0
    && (forall i :: 0 <= i < |hist| ==> hist[i].costReport == Owed(commits[..i + 1]))
  }

  /** Every bill carries the result of its writer's run. */
  ghost predicate BillsOk(bills: seq<Bill>, ops: seq<Op>) {
    forall i :: 0 <= i < |bills| ==> 0 <= bills[i].op < |ops| && ops[bills[i].op].ran == Some(bills[i].cr)
  }

  ghost predicate BillInv(ts: TaskState) {
    && HistoryOk(ts.hist, ts.commits)
    && (forall k :: 0 <= k < |ts.ops| ==> ts.ops[k].version < |ts.hist| && CostOk(ts, k))
    && BillsOk(Bills(ts.commits), ts.ops)
  }

  lemma {:induction false} BillsGrow(commits: seq<Commit>, n: nat)
    requires n <= |commits|
    ensures Bills(commits[..n]) <= Bills(commits)
  {
    if n < |commits| {
      BillsGrow(commits[..|commits| - 1], n);
      assert commits[..|commits| - 1][..n] == commits[..n];
    } else {
      assert commits[..n] == commits;
    }
  }

  ghost predicate Distinct(bills: seq<Bill>) {
    forall i, j :: 0 <= i < j < |bills| ==> bills[i].op != bills[j].op
  }

  lemma {:induction false} BillsDistinct(commits: seq<Commit>)
    ensures Distinct(Bills(commits))
  {
    if commits != [] {
      var before, bills := Bills(commits[..|commits| - 1]), Bills(commits);
      BillsDistinct(commits[..|commits| - 1]);
      assert forall i :: 0 <= i < |before| ==> bills[i] == before[i] && HasBill(before, before[i].op);
    }
  }

  /** A run is billed exactly when it committed a write after its cost was added. */
  lemma {:induction false} BilledIffCommitted(commits: seq<Commit>, k: int)
    ensures HasBill(Bills(commits), k) <==>
            exists i :: 0 <= i < |commits| && commits[i].op == k && commits[i].billed.Some?
  {
    if commits != [] {
      var n := |commits| - 1;
      var init, c := commits[..n], commits[n];
      BilledIffCommitted(init, k);
      var before, after := Bills(init), Bills(commits);
      assert forall i :: 0 <= i < n ==> commits[i] == init[i];
      if c.billed.Some? && !HasBill(before, c.op) {
        assert after[|before|].op == c.op;
      }
      assert forall i :: 0 <= i < |before| ==> after[i] == before[i];
    }
  }

  lemma BillsAppend(commits: seq<Commit>, c: Commit)
    ensures Bills(commits + [c]) ==
            if c.billed.Some? && !HasBill(Bills(commits), c.op)
            then Bills(commits) + [Bill(c.op, c.billed.value)] else Bills(commits)
  {
    hide HasBill;
    assert (commits + [c])[..|commits|] == commits;
  }

  lemma OneMoreBilled(bills: seq<Bill>, b: Bill)
    ensures Billed(Results(bills + [b])) == Some(Accumulate(Billed(Results(bills)), b.cr))
  {
    hide Accumulate;
    var rs := Results(bills + [b]);
    assert rs[..|rs| - 1] == Results(bills);
  }

  /** One more commit. */
  lemma BillsStep(commits: seq<Commit>, c: Commit)
    ensures Bills(commits + [c]) ==
            if c.billed.Some? && !HasBill(Bills(commits), c.op)
            then Bills(commits) + [Bill(c.op, c.billed.value)] else Bills(commits)
    ensures Owed(commits + [c]) ==
            if c.billed.Some? && !HasBill(Bills(commits), c.op)
            then Some(Accumulate(Owed(commits), c.billed.value)) else Owed(commits)
  {
    hide Accumulate, Bills, HasBill, Billed, Results;
    BillsAppend(commits, c);
    if c.billed.Some? && !HasBill(Bills(commits), c.op) {
      OneMoreBilled(Bills(commits), Bill(c.op, c.billed.value));
    }
  }

  /** Storing the copy of writer `k` bills its run if that has not happened yet. */
  lemma AppendKeepsCosts(ts: TaskState, k: nat)
    requires HistoryOk(ts.hist, ts.commits) && k < |ts.ops|
    requires ts.ops[k].version + 1 == |ts.hist| && !ts.ops[k].stage.Finished? && CostOk(ts, k)
    ensures ts.ops[k].st.costReport == Owed(ts.commits + [Commit(k, ts.ops[k].ran)])
  {
    hide Accumulate, Owed, Bills, HasBill, BeforeRun;
    var op := ts.ops[k];
    assert ts.commits[..|ts.hist|] == ts.commits;
    assert ts.hist[op.version].costReport == Owed(ts.commits[..op.version + 1]);
    BillsStep(ts.commits, Commit(k, op.ran));
  }

  /** A commit of another writer does not change whether `j` is billed. */
  lemma OtherNotBilled(commits: seq<Commit>, c: Commit, j: int)
    requires c.op != j
    ensures HasBill(Bills(commits + [c]), j) == HasBill(Bills(commits), j)
  {
    BillsStep(commits, c);
    var before, after := Bills(commits), Bills(commits + [c]);
    hide Bills;
    assert forall i :: 0 <= i < |before| ==> after[i] == before[i];
  }

  /** Other writers are not affected by a commit of `c`. */
  lemma OthersKeepCosts(ts: TaskState, ts': TaskState, c: Commit, j: nat)
    requires BillInv(ts) && j < |ts.ops| == |ts'.ops| && ts'.ops[j] == ts.ops[j]
    requires |ts.hist| == |ts.commits|
    requires ts'.commits == ts.commits + [c] && |ts'.hist| == |ts'.commits| && ts.hist <= ts'.hist
    requires c.op != j
    ensures CostOk(ts', j)
  {
    hide CostView, Bills, HasBill, Owed;
    var v := ts.ops[j].version;
    assert CostOk(ts, j);
    assert ts'.commits[..v + 1] == ts.commits[..v + 1];
    OtherNotBilled(ts.commits, c, j);
  }

  lemma NowBilled(commits: seq<Commit>, k: int, ran: Option<ClaudeResult>)
    ensures ran.Some? ==> HasBill(Bills(commits + [Commit(k, ran)]), k)
    ensures ran.None? ==> Bills(commits + [Commit(k, ran)]) == Bills(commits)
  {
    BillsStep(commits, Commit(k, ran));
    var bills := Bills(commits + [Commit(k, ran)]);
    if ran.Some? && !HasBill(Bills(commits), k) {
      assert bills[|bills| - 1].op == k;
    }
  }

  /** The writer's own view after its commit. */
  lemma OwnCosts(ts: TaskState, k: nat, op': Op, ts': TaskState)
    requires |ts.hist| == |ts.commits| && k < |ts.ops| && !ts.ops[k].stage.Finished?
    requires var op := ts.ops[k];
             && op.version + 1 == |ts.hist|
             && CostOk(ts, k)
             && ts' == ts.(hist := ts.hist + [op.st], commits := ts.commits + [Commit(k, op.ran)],
                ops := ts.ops[k := op'])
             && op'.ran == op.ran && op'.st.costReport == op.st.costReport
             && (op'.version == op.version || op'.version == |ts.hist|)
             && (BeforeRun(op'.stage) ==> BeforeRun(op.stage))
    ensures CostOk(ts', k)
  {
    var op := ts.ops[k];
    hide Accumulate, Bills, HasBill, Owed, BeforeRun;
    NowBilled(ts.commits, k, op.ran);
    var all := ts'.commits;
    assert ts.commits[..|ts.hist|] == ts.commits;
    assert all[..|ts.hist|] == ts.commits && all[..|ts.hist| + 1] == all;
    assert ts'.hist[op.version] == ts.hist[op.version] && ts'.hist[|ts.hist|] == op.st;
    OwnView(op, op', ts.hist[op.version].costReport, HasBill(Bills(ts.commits), k), HasBill(Bills(all), k));
    hide CostView;
  }

  /** `CostView` on the two versions that a writer can be based on after its commit. */
  lemma OwnView(op: Op, op': Op, base: Option<Costs>, before: bool, after: bool)
    requires CostView(op, base, before, before) && !op.stage.Finished?
    requires op'.ran == op.ran && op'.st.costReport == op.st.costReport
    requires BeforeRun(op'.stage) ==> BeforeRun(op.stage)
    requires if op.ran.Some? then after else after == before
    ensures CostView(op', base, after, before) && CostView(op', op.st.costReport, after, after)
  {
    hide BeforeRun;
  }

  /** The parts of a writer that the write itself leaves alone. */
  lemma AfterWriteCosts(spec: Spec, op: Op, ok: bool, now: int)
    requires IsWrite(op.stage)
    ensures var op' := AfterWrite(spec, op, ok, now);
            && op'.ran == op.ran && op'.st.costReport == op.st.costReport
            && (BeforeRun(op'.stage) ==> BeforeRun(op.stage))
  {
    hide SplitRepository, MaxRounds;
  }

  lemma AfterCallCosts(spec: Spec, op: Op, r: Response, now: int)
    requires Fits(spec, op, r) && !IsWrite(op.stage)
    ensures var op' := AfterCall(spec, op, r, now);
            && op'.version == op.version
            && (r.Ran? ==> op.stage.Executing? && op'.ran == Some(r.cr) && !BeforeRun(op'.stage)
                           && op'.st.costReport == Some(Accumulate(op.st.costReport, r.cr)))
            && (!r.Ran? ==> op'.ran == op.ran && op'.st.costReport == op.st.costReport
                            && (BeforeRun(op'.stage) ==> BeforeRun(op.stage)))
  {
    hide SplitRepository, ClaimNameOf, Accumulate, Markers.Clarification, Markers.PullRequestURL, Contains;
  }

  lemma StoringKeepsBills(ts: TaskState, k: nat, op': Op)
    requires BillInv(ts) && k < |ts.ops| && !ts.ops[k].stage.Finished?
    requires var op := ts.ops[k];
             && op.version + 1 == |ts.hist|
             && op'.ran == op.ran && op'.st.costReport == op.st.costReport
             && (op'.version == op.version || op'.version == |ts.hist|)
             && (BeforeRun(op'.stage) ==> BeforeRun(op.stage))
    ensures var op := ts.ops[k];
            BillInv(ts.(hist := ts.hist + [op.st], commits := ts.commits + [Commit(k, op.ran)],
                ops := ts.ops[k := op']))
  {
    hide Accumulate, Bills, Owed, CostOk, HistoryOk, BillsOk, BeforeRun, HasBill;
    var op := ts.ops[k];
    var c := Commit(k, op.ran);
    var ts' := ts.(hist := ts.hist + [op.st], commits := ts.commits + [c], ops := ts.ops[k := op']);
    SameLength(ts);
    AppendKeepsCosts(ts, k);
    HistoryStored(ts.hist, ts.commits, op.st, c);
    BillsStored(ts.commits, ts.ops, k, op');
    OwnCosts(ts, k, op', ts');
    forall j | 0 <= j < |ts.ops| ensures ts'.ops[j].version < |ts'.hist| == |ts'.commits| && CostOk(ts', j) {
      if j != k {
        OthersKeepCosts(ts, ts', c, j);
      }
    }
  }

  lemma SameLength(ts: TaskState)
    requires BillInv(ts)
    ensures |ts.hist| == |ts.commits| > 0
  {
  }

  lemma HistoryStored(hist: seq<Status>, commits: seq<Commit>, st: Status, c: Commit)
    requires HistoryOk(hist, commits) && st.costReport == Owed(commits + [c])
    ensures HistoryOk(hist + [st], commits + [c])
  {
    hide Owed;
    var hist', commits' := hist + [st], commits + [c];
    forall i | 0 <= i < |hist'| ensures hist'[i].costReport == Owed(commits'[..i + 1]) {
      assert commits'[..i + 1] == if i < |hist| then commits[..i + 1] else commits';
    }
  }

  lemma BillsStored(commits: seq<Commit>, ops: seq<Op>, k: nat, op': Op)
    requires BillsOk(Bills(commits), ops) && k < |ops| && op'.ran == ops[k].ran
    ensures BillsOk(Bills(commits + [Commit(k, op'.ran)]), ops[k := op'])
  {
    BillsStep(commits, Commit(k, op'.ran));
    hide Bills, Owed;
  }

  /** Replacing a writer by one with the same version and cost. */
  lemma ReplacingKeepsBills(ts: TaskState, k: nat, op': Op)
    requires BillInv(ts) && k < |ts.ops|
    requires var op := ts.ops[k];
             && op'.version == op.version && op'.ran == op.ran
             && (!op'.stage.Finished? ==> !op.stage.Finished? && op'.st.costReport == op.st.costReport)
             && (BeforeRun(op'.stage) ==> BeforeRun(op.stage))
    ensures BillInv(ts.(ops := ts.ops[k := op']))
  {
    hide Accumulate, Bills, Owed, HasBill, BeforeRun;
    assert CostOk(ts, k);
    assert CostOk(ts.(ops := ts.ops[k := op']), k);
    ReplacedWriter(ts, k, op');
  }

  /** Only the replaced writer and its run need a look. */
  lemma ReplacedWriter(ts: TaskState, k: nat, op': Op)
    requires BillInv(ts) && k < |ts.ops| && op'.version == ts.ops[k].version
    requires ts.ops[k].ran.None? || op'.ran == ts.ops[k].ran
    requires CostOk(ts.(ops := ts.ops[k := op']), k)
    ensures BillInv(ts.(ops := ts.ops[k := op']))
  {
    hide CostView, Bills, Owed, HasBill, HistoryOk, BillsOk;
    SameLength(ts);
    BillsReplaced(Bills(ts.commits), ts.ops, k, op');
    var ts' := ts.(ops := ts.ops[k := op']);
    forall j | 0 <= j < |ts.ops| ensures ts'.ops[j].version < |ts'.hist| && CostOk(ts', j) {
      assert CostOk(ts, j);
    }
  }

  lemma BillsReplaced(bills: seq<Bill>, ops: seq<Op>, k: nat, op': Op)
    requires BillsOk(bills, ops) && k < |ops| && (ops[k].ran.None? || op'.ran == ops[k].ran)
    ensures BillsOk(bills, ops[k := op'])
  {
  }

  lemma WriteKeepsBills(ts: TaskState, k: nat, outcome: Outcome, now: int)
    requires BillInv(ts) && k < |ts.ops| && IsWrite(ts.ops[k].stage)
    requires Applies(outcome) ==> ts.ops[k].version + 1 == |ts.hist|
    ensures BillInv(StepWrite(ts, k, outcome, now))
  {
    var op := ts.ops[k];
    AfterWriteCosts(ts.spec, op, outcome.Stored?, now);
    var op' := StepWrite(ts, k, outcome, now).ops[k];
    assert ts.ops[k].version < |ts.hist|;
    if Applies(outcome) && op.st != ts.hist[|ts.hist| - 1] {
      StoringKeepsBills(ts, k, op');
    } else {
      ReplacingKeepsBills(ts, k, op');
    }
    hide BillInv, AfterWrite;
  }

  /** The result of a run is added once, to the writer's copy. */
  lemma RanKeepsBills(ts: TaskState, k: nat, op': Op, cr: ClaudeResult)
    requires BillInv(ts) && k < |ts.ops|
    requires var op := ts.ops[k];
             && op.stage.Executing? && op'.version == op.version && op'.ran == Some(cr) && !BeforeRun(op'.stage)
             && op'.st.costReport == Some(Accumulate(op.st.costReport, cr))
    ensures BillInv(ts.(ops := ts.ops[k := op']))
  {
    NotBilledBefore(ts, k);
    hide Accumulate, Bills, Owed, HasBill;
    assert CostOk(ts, k);
    assert CostOk(ts.(ops := ts.ops[k := op']), k);
    ReplacedWriter(ts, k, op');
  }

  /** What is not billed now was not billed in any earlier version. */
  lemma NotBilledBefore(ts: TaskState, k: nat)
    requires BillInv(ts) && k < |ts.ops|
    ensures var v := ts.ops[k].version;
            HasBill(Bills(ts.commits[..v + 1]), k) ==> HasBill(Bills(ts.commits), k)
  {
    BillsGrow(ts.commits, ts.ops[k].version + 1);
    var early, late := Bills(ts.commits[..ts.ops[k].version + 1]), Bills(ts.commits);
    hide Bills, CostOk, Owed;
    assert forall i :: 0 <= i < |early| ==> late[i] == early[i];
  }

  lemma CallKeepsBills(ts: TaskState, k: nat, r: Response, now: int)
    requires BillInv(ts) && k < |ts.ops| && Fits(ts.spec, ts.ops[k], r) && !IsWrite(ts.ops[k].stage)
    ensures BillInv(StepCall(ts, k, r, now))
  {
    var op' := AfterCall(ts.spec, ts.ops[k], r, now);
    AfterCallCosts(ts.spec, ts.ops[k], r, now);
    if r.Ran? {
      RanKeepsBills(ts, k, op', r.cr);
    } else {
      ReplacingKeepsBills(ts, k, op');
    }
    LogsDoNotMatter(ts.(ops := ts.ops[k := op']), StepCall(ts, k, r, now));
  }

  lemma LogsDoNotMatter(ts: TaskState, ts': TaskState)
    requires BillInv(ts) && ts' == ts.(execs := ts'.execs, comments := ts'.comments)
    ensures BillInv(ts')
  {
    hide CostView, Bills, Owed, HasBill;
    forall j | 0 <= j < |ts.ops| ensures CostOk(ts', j) {
      assert CostOk(ts, j);
    }
  }

  lemma NewOpCosts(ts: TaskState, a: Action)
    requires (a.Read? || a.Hear?) && Enabled(ts, a)
    ensures var op := NewOp(ts, a);
            op.version == a.version && op.ran == None && op.st.costReport == ts.hist[a.version].costReport
  {
    hide SplitRepository;
  }

  lemma NotYetBilled(ts: TaskState)
    requires BillInv(ts)
    ensures !HasBill(Bills(ts.commits), |ts.ops|)
  {
    hide Bills, Owed, CostOk;
  }

  lemma NewView(op: Op, base: Option<Costs>, billedThen: bool)
    requires op.ran == None && op.st.costReport == base
    ensures CostView(op, base, false, billedThen)
  {
  }

  lemma NewKeepsBills(ts: TaskState, a: Action)
    requires BillInv(ts) && (a.Read? || a.Hear?) && Enabled(ts, a)
    ensures BillInv(ts.(ops := ts.ops + [NewOp(ts, a)]))
  {
    hide NewOp, Accumulate, Bills, Owed, HasBill, CostView;
    var n := |ts.ops|;
    var ts' := ts.(ops := ts.ops + [NewOp(ts, a)]);
    NewOpCosts(ts, a);
    NotYetBilled(ts);
    NewView(NewOp(ts, a), ts.hist[a.version].costReport, HasBill(Bills(ts.commits[..a.version + 1]), n));
    forall j | 0 <= j < |ts'.ops| ensures CostOk(ts', j) {
      assert j < n ==> CostOk(ts, j);
    }
  }

  lemma StepKeepsBills(ts: TaskState, a: Action)
    requires BillInv(ts)
    ensures |ts.hist| > 0 && BillInv(Step(ts, a))
  {
    hide BillInv, StepWrite, StepCall, NewOp, Fits;
    SameLength(ts);
    if Enabled(ts, a) {
      match a
      case Answer(k, r, now) =>
        if IsWrite(ts.ops[k].stage) {
          WritesAreWritten(ts.spec, ts.ops[k], r);
          WriteKeepsBills(ts, k, r.outcome, now);
        } else {
          CallKeepsBills(ts, k, r, now);
        }
      case Crash(k) =>
        ReplacingKeepsBills(ts, k, ts.ops[k].(stage := Finished));
      case _ => NewKeepsBills(ts, a);
    }
  }

  lemma {:induction false} RunKeepsBills(ts: TaskState, acts: seq<Action>)
    requires BillInv(ts)
    ensures BillInv(Run(ts, acts))
  {
    if acts != [] {
      var before := acts[..|acts| - 1];
      RunKeepsBills(ts, before);
      StepKeepsBills(Run(ts, before), acts[|acts| - 1]);
    }
  }

  lemma ReachableBills(ts: TaskState)
    requires Reachable(ts)
    ensures BillInv(ts)
  {
    var ts0, acts :| IsFresh(ts0) && Run(ts0, acts) == ts;
    assert ts0.commits[..1] == ts0.commits;
    assert Bills(ts0.commits) == [];
    assert BillInv(ts0);
    RunKeepsBills(ts0, acts);
  }

  /** The runs billed so far. */
  ghost function BilledRuns(ts: TaskState): seq<ClaudeResult> {
    Results(Bills(ts.commits))
  }

  /** In every reachable state the stored cost is what billing each run that reached the store
      exactly once, in order, adds up to: the integer fields are sums, the estimate is within
      n/20000 dollar of the true sum of n runs. */
  lemma CostExactlyOnce(ts: TaskState)
    requires Reachable(ts)
    ensures var stored, runs := ts.hist[|ts.hist| - 1].costReport, BilledRuns(ts);
            && stored == Billed(runs)
            && (runs != [] ==>
                  && stored.value.inputTokens == Wrap64(Sum(runs, (r: ClaudeResult) => r.inputTokens))
                  && stored.value.outputTokens == Wrap64(Sum(runs, (r: ClaudeResult) => r.outputTokens))
                  && stored.value.cacheReadInputTokens == Wrap64(Sum(runs, (r: ClaudeResult) => r.cacheReadInputTokens))
                  && stored.value.cacheCreationInputTokens
                     == Wrap64(Sum(runs, (r: ClaudeResult) => r.cacheCreationInputTokens))
                  && stored.value.durationMs == Wrap64(Sum(runs, (r: ClaudeResult) => r.durationMs))
                  && Within(Estimate(stored.value.estimatedCost), TrueCost(runs), |runs|))
  {
    ReachableBills(ts);
    assert ts.commits[..|ts.hist|] == ts.commits;
    var runs := BilledRuns(ts);
    hide Billed, Sum, Wrap64, Within, Estimate, TrueCost, Bills;
    if runs != [] {
      BilledTokens(runs);
      DriftBound(runs);
    }
  }

  /** Who is billed: each run once, with its own result, and exactly the runs that committed a
      write after their cost was added. */
  lemma BilledOnce(ts: TaskState)
    requires Reachable(ts)
    ensures var bills := Bills(ts.commits);
            && Distinct(bills)
            && (forall i :: 0 <= i < |bills| ==>
                  0 <= bills[i].op < |ts.ops| && ts.ops[bills[i].op].ran == Some(bills[i].cr))
            && (forall k :: HasBill(bills, k) <==>
                  exists i :: 0 <= i < |ts.commits| && ts.commits[i].op == k && ts.commits[i].billed.Some?)
  {
    ReachableBills(ts);
    BillsDistinct(ts.commits);
    forall k ensures HasBill(Bills(ts.commits), k) <==>
                     exists i :: 0 <= i < |ts.commits| && ts.commits[i].op == k && ts.commits[i].billed.Some? {
      BilledIffCommitted(ts.commits, k);
    }
  }

  // ---------- how many runs are billed ----------

  /** The version `i` takes the task out of the running phase. */
  predicate Leaves(hist: seq<Status>, i: nat)
    requires i < |hist|
  {
    i > 0 && hist[i - 1].phase.Running? && !hist[i].phase.Running?
  }

  /** The writers that took the task out of the running phase. */
  ghost function Leavers(hist: seq<Status>, commits: seq<Commit>): set<int>
    requires |hist| == |commits|
  {
    var n := |hist| - 1;
    if n <= 0 then {}
    else Leavers(hist[..n], commits[..n]) + (if Leaves(hist, n) then {commits[n].op} else {})
  }

  /** How often the task can still leave the running phase. */
  ghost function Departures(spec: Spec, st: Status): int {
    if st.phase.IsTerminal() then 0 else MaxRounds(spec) + 1 - |st.clarifications|
  }

  lemma DeparturesFall(spec: Spec, a: Status, b: Status)
    requires Good(spec, a) && Good(spec, b) && Follows(a, b)
    ensures Departures(spec, b) + (if a.phase.Running? && !b.phase.Running? then 1 else 0) <= Departures(spec, a)
    ensures Departures(spec, b) >= 0
  {
    hide MaxRounds, ClaimNameOf, SplitRepository;
  }

  lemma {:induction false} FewLeavers(spec: Spec, hist: seq<Status>, commits: seq<Commit>)
    requires |hist| == |commits| > 0 && History(spec, hist)
    ensures |Leavers(hist, commits)| + Departures(spec, hist[|hist| - 1]) <= MaxRounds(spec) + 1
  {
    FirstDepartures(spec, hist);
    hide History, Good, Follows, Departures, MaxRounds, Leaves;
    var n := |hist| - 1;
    if n > 0 {
      LeavesIs(hist, n);
      HistoryAt(spec, hist, n);
      FewLeavers(spec, hist[..n], commits[..n]);
      DeparturesFall(spec, hist[n - 1], hist[n]);
    }
  }

  lemma LeavesIs(hist: seq<Status>, n: nat)
    requires 0 < n < |hist|
    ensures Leaves(hist, n) == (hist[n - 1].phase.Running? && !hist[n].phase.Running?)
  {
  }

  lemma FirstDepartures(spec: Spec, hist: seq<Status>)
    requires History(spec, hist)
    ensures hist != [] && Departures(spec, hist[0]) == MaxRounds(spec) + 1
  {
    hide Good, Follows, MaxRounds;
  }

  lemma {:induction false} LeaverIff(hist: seq<Status>, commits: seq<Commit>, k: int)
    requires |hist| == |commits|
    ensures k in Leavers(hist, commits) <==> exists i :: 0 <= i < |hist| && Leaves(hist, i) && commits[i].op == k
  {
    var n := |hist| - 1;
    if n > 0 {
      LeaverIff(hist[..n], commits[..n], k);
      assert forall i :: 0 <= i < n ==> Leaves(hist, i) == Leaves(hist[..n], i) && commits[i] == commits[..n][i];
    }
  }

  ghost function BilledOps(bills: seq<Bill>): set<int> {
    set i | 0 <= i < |bills| :: bills[i].op
  }

  lemma {:induction false} DistinctSize(bills: seq<Bill>)
    requires Distinct(bills)
    ensures |BilledOps(bills)| == |bills|
  {
    if bills != [] {
      var n := |bills| - 1;
      DistinctSize(bills[..n]);
      assert bills[..n] + [bills[n]] == bills;
      assert BilledOps(bills) == BilledOps(bills[..n]) + {bills[n].op} by {
        forall k | k in BilledOps(bills) ensures k in BilledOps(bills[..n]) + {bills[n].op} {
          var i :| 0 <= i < |bills| && bills[i].op == k;
          assert i < n ==> bills[..n][i].op == k;
        }
      }
    }
  }

  /** Writers whose run was billed but that did not get to commit a change of phase. */
  ghost function Stranded(ts: TaskState): set<int>
    requires |ts.hist| == |ts.commits|
  {
    BilledOps(Bills(ts.commits)) - Leavers(ts.hist, ts.commits)
  }

  /** Apart from runs whose writer is stranded between its cost write and its change of phase, at
      most max + 1 runs are billed. */
  lemma FewRunsBilled(ts: TaskState)
    requires Reachable(ts)
    ensures |ts.hist| == |ts.commits|
    ensures |BilledRuns(ts)| <= MaxRounds(ts.spec) + 1 + |Stranded(ts)|
    ensures forall k :: k in Stranded(ts) <==>
              && HasBill(Bills(ts.commits), k)
              && !exists i :: 0 <= i < |ts.hist| && Leaves(ts.hist, i) && ts.commits[i].op == k
  {
    hide Reachable, Bills, HasBill, Leavers, Leaves, MaxRounds, Distinct, BilledOps;
    LeaversBounded(ts);
    BillsDistinct(ts.commits);
    var bills, leavers := Bills(ts.commits), Leavers(ts.hist, ts.commits);
    DistinctSize(bills);
    assert |BilledOps(bills)| <= |leavers| + |Stranded(ts)| by {
      SubsetSize(BilledOps(bills), leavers + Stranded(ts));
    }
    forall k ensures k in leavers <==> exists i :: 0 <= i < |ts.hist| && Leaves(ts.hist, i) && ts.commits[i].op == k {
      LeaverIff(ts.hist, ts.commits, k);
    }
    forall k ensures k in BilledOps(bills) <==> HasBill(bills, k) {
      BilledOpsIff(bills, k);
    }
  }

  lemma BilledOpsIff(bills: seq<Bill>, k: int)
    ensures k in BilledOps(bills) <==> HasBill(bills, k)
  {
  }

  lemma LeaversBounded(ts: TaskState)
    requires Reachable(ts)
    ensures |ts.hist| == |ts.commits| && |Leavers(ts.hist, ts.commits)| <= MaxRounds(ts.spec) + 1
  {
    ReachableInv(ts);
    hide Reachable, Good, OpOk, Follows, Leavers, MaxRounds, IsInitial;
    InvHistory(ts);
    FewLeavers(ts.spec, ts.hist, ts.commits);
    LeavesLeft(ts.spec, ts.hist[|ts.hist| - 1]);
  }

  lemma LeavesLeft(spec: Spec, st: Status)
    requires Good(spec, st)
    ensures Departures(spec, st) >= 0
  {
    hide MaxRounds, ClaimNameOf, SplitRepository;
  }

  lemma SubsetSize(a: set<int>, b: set<int>)
    requires a <= b
    ensures |a| <= |b|
  {
    assert b == a + (b - a);
  }
}
