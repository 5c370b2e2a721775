/** Runs in which every status write succeeds and no writer crashes: the number of billed runs, and
    with it the drift of the estimate, is bounded by the rounds of clarification. */
module FailureFree {
  import opened Text
  import opened Cost
  import opened Tasks
  import opened Protocol
  import opened Lifecycle
  import opened Billing

  predicate Succeeds(a: Action) {
    !a.Crash? && (a.Answer? && a.response.Wrote? ==> a.response.outcome.Stored?)
  }

  predicate AllSucceed(acts: seq<Action>) {
    forall i :: 0 <= i < |acts| ==> Succeeds(acts[i])
  }

  ghost predicate Reached(ts: TaskState) {
    exists ts0, acts :: IsFresh(ts0) && AllSucceed(acts) && Run(ts0, acts) == ts
  }

  /** A writer whose run is over but whose change of phase is not stored yet. */
  predicate AboutToStore(op: Op) {
    op.stage.SavingCost? || op.stage.Asking? || op.stage.Completing? || op.stage.Failing?
  }

  ghost predicate Left(hist: seq<Status>, commits: seq<Commit>, k: int)
    requires |hist| == |commits|
  {
    exists i :: 0 <= i < |hist| && Leaves(hist, i) && commits[i].op == k
  }

  /** A writer that has run is about to take the task out of the running phase, or it did. */
  ghost predicate WriterOk(hist: seq<Status>, commits: seq<Commit>, op: Op, k: int)
    requires |hist| == |commits|
  {
    op.ran.Some? ==>
      || (AboutToStore(op) && op.version < |hist| && hist[op.version].phase.Running?)
      || Left(hist, commits, k)
  }

  ghost predicate LeaveInv(ts: TaskState) {
    |ts.hist| == |ts.commits| && forall k :: 0 <= k < |ts.ops| ==> WriterOk(ts.hist, ts.commits, ts.ops[k], k)
  }

  lemma LeftGrows(hist: seq<Status>, commits: seq<Commit>, st: Status, c: Commit, k: int)
    requires |hist| == |commits| > 0
    ensures Left(hist, commits, k) ==> Left(hist + [st], commits + [c], k)
    ensures hist[|hist| - 1].phase.Running? && !st.phase.Running? && c.op == k ==> Left(hist + [st], commits + [c], k)
  {
    var hist', commits' := hist + [st], commits + [c];
    if Left(hist, commits, k) {
      var i :| 0 <= i < |hist| && Leaves(hist, i) && commits[i].op == k;
      assert Leaves(hist', i) && commits'[i] == commits[i];
    }
    if hist[|hist| - 1].phase.Running? && !st.phase.Running? && c.op == k {
      assert Leaves(hist', |hist|) && commits'[|hist|] == c;
    }
  }

  /** When such a writer stores, it leaves the running phase or is still about to. */
  lemma StoringLeaves(spec: Spec, b: Status, op: Op, now: int)
    requires OpOk(spec, b, op) && AboutToStore(op) && b.phase.Running?
    ensures var op' := AfterWrite(spec, op, true, now);
            op'.ran == op.ran && (if op.st.phase.Running? then AboutToStore(op') else op.st != b)
  {
    hide SplitRepository, ClaimNameOf, MaxRounds;
  }

  lemma StoringKeepsLeave(ts: TaskState, k: nat, op': Op)
    requires LeaveInv(ts) && |ts.hist| > 0 && k < |ts.ops| && op'.ran == ts.ops[k].ran
    requires ts.ops[k].version + 1 == |ts.hist| && op'.version == |ts.hist|
    requires op'.ran.Some? && !Left(ts.hist, ts.commits, k) && ts.ops[k].st.phase.Running? ==> AboutToStore(op')
    ensures LeaveInv(ts.(hist := ts.hist + [ts.ops[k].st], commits := ts.commits + [Commit(k, ts.ops[k].ran)],
                         ops := ts.ops[k := op']))
  {
    hide Leaves, Left;
    var st, c := ts.ops[k].st, Commit(k, ts.ops[k].ran);
    var ops := ts.ops[k := op'];
    forall j | 0 <= j < |ops| ensures WriterOk(ts.hist + [st], ts.commits + [c], ops[j], j) {
      assert WriterOk(ts.hist, ts.commits, ts.ops[j], j);
      LeftGrows(ts.hist, ts.commits, st, c, j);
    }
  }

  lemma ReplacingKeepsLeave(ts: TaskState, k: nat, op': Op)
    requires LeaveInv(ts) && k < |ts.ops| && WriterOk(ts.hist, ts.commits, op', k)
    ensures LeaveInv(ts.(ops := ts.ops[k := op']))
  {
    hide WriterOk;
  }

  lemma WriteKeepsLeave(ts: TaskState, k: nat, now: int)
    requires Inv(ts) && LeaveInv(ts) && k < |ts.ops| && IsWrite(ts.ops[k].stage)
    requires ts.ops[k].version + 1 == |ts.hist|
    ensures LeaveInv(StepWrite(ts, k, Stored, now))
  {
    hide Good, OpOk, Follows, Left, IsInitial, MaxRounds, AfterWrite;
    var op, b := ts.ops[k], ts.hist[ts.ops[k].version];
    var op' := StepWrite(ts, k, Stored, now).ops[k];
    assert OpOk(ts.spec, b, op) && WriterOk(ts.hist, ts.commits, op, k);
    AfterWriteCosts(ts.spec, op, true, now);
    if AboutToStore(op) && b.phase.Running? {
      StoringLeaves(ts.spec, b, op, now);
    }
    hide Inv, LeaveInv;
    if op.st != b {
      StoringKeepsLeave(ts, k, op');
    } else {
      ReplacingKeepsLeave(ts, k, op');
    }
  }

  lemma CallKeepsLeave(ts: TaskState, k: nat, r: Response, now: int)
    requires Inv(ts) && LeaveInv(ts) && k < |ts.ops| && Fits(ts.spec, ts.ops[k], r) && !IsWrite(ts.ops[k].stage)
    ensures LeaveInv(StepCall(ts, k, r, now))
  {
    hide Good, Follows, Left, IsInitial, AfterCall, Fits, KindOf, IsResume;
    var op, b := ts.ops[k], ts.hist[ts.ops[k].version];
    assert OpOk(ts.spec, b, op) && WriterOk(ts.hist, ts.commits, op, k);
    AfterCallCosts(ts.spec, op, r, now);
    AfterRunPends(ts.spec, op, r, now);
    hide Inv, OpOk;
    ReplacingKeepsLeave(ts, k, AfterCall(ts.spec, op, r, now));
  }

  lemma AfterRunPends(spec: Spec, op: Op, r: Response, now: int)
    requires Fits(spec, op, r) && !IsWrite(op.stage)
    ensures r.Ran? ==> AboutToStore(AfterCall(spec, op, r, now))
    ensures !AboutToStore(op)
  {
    hide SplitRepository, ClaimNameOf, Accumulate, Markers.Clarification, Markers.PullRequestURL, Contains;
  }

  lemma StepKeepsLeave(ts: TaskState, a: Action)
    requires Inv(ts) && LeaveInv(ts) && |ts.hist| > 0 && Succeeds(a)
    ensures LeaveInv(Step(ts, a))
  {
    hide Inv, StepWrite, StepCall, NewOp, Left, Fits;
    if Enabled(ts, a) {
      match a
      case Answer(k, r, now) =>
        hide LeaveInv;
        if IsWrite(ts.ops[k].stage) {
          WritesAreWritten(ts.spec, ts.ops[k], r);
          WriteKeepsLeave(ts, k, now);
        } else {
          CallKeepsLeave(ts, k, r, now);
        }
      case _ => NewOpCosts(ts, a);
    }
  }

  lemma {:induction false} RunKeepsLeave(ts: TaskState, acts: seq<Action>)
    requires Inv(ts) && LeaveInv(ts) && AllSucceed(acts)
    ensures LeaveInv(Run(ts, acts))
  {
    assert |ts.hist| > 0;
    hide Inv, LeaveInv, Step, Succeeds;
    if acts != [] {
      var before := acts[..|acts| - 1];
      RunKeepsLeave(ts, before);
      RunKeepsInv(ts, before);
      StepKeepsLeave(Run(ts, before), acts[|acts| - 1]);
    }
  }

  lemma ReachedLeaves(ts: TaskState)
    requires Reached(ts)
    ensures Reachable(ts) && LeaveInv(ts)
  {
    hide LeaveInv, Inv;
    var ts0, acts :| IsFresh(ts0) && AllSucceed(acts) && Run(ts0, acts) == ts;
    FreshInv(ts0);
    assert LeaveInv(ts0) by {
      FreshLeaves(ts0);
    }
    RunKeepsLeave(ts0, acts);
  }

  lemma FreshLeaves(ts: TaskState)
    requires IsFresh(ts)
    ensures LeaveInv(ts)
  {
  }

  /** Without failures only a writer that is still about to store can be stranded. */
  lemma StrandedPends(ts: TaskState, k: int)
    requires Reached(ts)
    ensures |ts.hist| == |ts.commits|
    ensures k in Stranded(ts) ==> 0 <= k < |ts.ops| && AboutToStore(ts.ops[k])
  {
    ReachedLeaves(ts);
    hide Reached, Reachable, HasBill, Bills, Leaves, MaxRounds;
    FewRunsBilled(ts);
    BilledOnce(ts);
    if k in Stranded(ts) {
      var i :| 0 <= i < |Bills(ts.commits)| && Bills(ts.commits)[i].op == k by {
        BilledAt(Bills(ts.commits), k);
      }
      assert WriterOk(ts.hist, ts.commits, ts.ops[k], k);
    }
  }

  lemma BilledAt(bills: seq<Bill>, k: int)
    requires HasBill(bills, k)
    ensures exists i :: 0 <= i < |bills| && bills[i].op == k
  {
  }

  lemma WithinMore(x: real, y: real, n: nat, m: nat)
    requires Within(x, y, n) && n <= m
    ensures Within(x, y, m)
  {
  }

  /** When no write has failed and none is pending, at most one run per round of clarification and
      one more is billed, so the estimate is within (max + 1)/20000 dollar of the true cost. */
  lemma FailureFreeDrift(ts: TaskState)
    requires Reached(ts)
    requires forall k :: 0 <= k < |ts.ops| ==> !AboutToStore(ts.ops[k])
    ensures var runs := BilledRuns(ts);
            && |runs| <= MaxRounds(ts.spec) + 1
            && |ts.hist| > 0
            && (runs != [] ==>
                  && ts.hist[|ts.hist| - 1].costReport.Some?
                  && Within(Estimate(ts.hist[|ts.hist| - 1].costReport.value.estimatedCost), TrueCost(runs),
                     MaxRounds(ts.spec) + 1))
  {
    ReachedLeaves(ts);
    hide Reached, Reachable, Bills, Stranded, Within, Estimate, TrueCost, MaxRounds, Billed, Wrap64, Sum;
    FewRunsBilled(ts);
    assert Stranded(ts) == {} by {
      forall k ensures k !in Stranded(ts) {
        StrandedPends(ts, k);
      }
    }
    CostExactlyOnce(ts);
    var runs := BilledRuns(ts);
    if runs != [] {
      WithinMore(Estimate(ts.hist[|ts.hist| - 1].costReport.value.estimatedCost), TrueCost(runs), |runs|,
          MaxRounds(ts.spec) + 1);
    }
  }
}
