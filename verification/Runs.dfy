/** What is executed in sandboxes: a run that resumes work follows a run that cloned the repository
    in the same pod. */
module Runs {
  import opened Text
  import opened Tasks
  import opened Protocol
  import opened Lifecycle

  /** Some run has cloned the repository in `pod`. */
  ghost predicate Cloned(execs: seq<Exec>, pod: string) {
    exists i :: 0 <= i < |execs| && execs[i].pod == pod && !execs[i].resume
  }

  ghost predicate ExecInv(ts: TaskState) {
    && (forall i :: 0 <= i < |ts.hist| && ts.hist[i].clarifications != [] ==> Cloned(ts.execs, ts.hist[i].podName))
    && (forall k :: 0 <= k < |ts.ops| && (ts.ops[k].stage.SavingCost? || ts.ops[k].stage.Asking?) ==>
          Cloned(ts.execs, ts.ops[k].st.podName))
    && (forall i :: 0 <= i < |ts.execs| && ts.execs[i].resume ==> Cloned(ts.execs[..i], ts.execs[i].pod))
  }

  lemma ClonedGrows(execs: seq<Exec>, e: Exec, pod: string)
    ensures Cloned(execs, pod) ==> Cloned(execs + [e], pod)
    ensures !e.resume && e.pod == pod ==> Cloned(execs + [e], pod)
  {
    if Cloned(execs, pod) {
      var i :| 0 <= i < |execs| && execs[i].pod == pod && !execs[i].resume;
      assert (execs + [e])[i] == execs[i];
    }
    assert (execs + [e])[|execs|] == e;
  }

  /** A ledger in the copy of a writer that is about to write comes from its base, or from the
      question of its own run. */
  lemma LedgerComesFrom(spec: Spec, b: Status, op: Op)
    requires Good(spec, b) && OpOk(spec, b, op) && IsWrite(op.stage)
    ensures op.st.clarifications != [] && !op.stage.Asking? ==> b.clarifications != [] && op.st.podName == b.podName
  {
    hide SplitRepository, ClaimNameOf, MaxRounds;
  }

  lemma AskKeepsPod(spec: Spec, op: Op, ok: bool, now: int)
    requires IsWrite(op.stage)
    ensures var op' := AfterWrite(spec, op, ok, now);
            op'.stage.SavingCost? || op'.stage.Asking? ==> op.stage.SavingCost? && op'.st.podName == op.st.podName
  {
    hide SplitRepository, MaxRounds;
  }

  /** What a write by this writer would add to the ledger comes with a clone. */
  lemma WriteBringsClone(ts: TaskState, k: nat, ok: bool, now: int)
    requires Inv(ts) && ExecInv(ts) && k < |ts.ops| && IsWrite(ts.ops[k].stage)
    ensures ts.ops[k].st.clarifications != [] ==> Cloned(ts.execs, ts.ops[k].st.podName)
    ensures var op' := AfterWrite(ts.spec, ts.ops[k], ok, now);
            op'.stage.SavingCost? || op'.stage.Asking? ==> Cloned(ts.execs, op'.st.podName)
  {
    hide Good, OpOk, Follows, AfterWrite, Cloned, IsInitial;
    var op := ts.ops[k];
    LedgerComesFrom(ts.spec, ts.hist[op.version], op);
    AskKeepsPod(ts.spec, op, ok, now);
  }

  lemma WriteKeepsExecs(ts: TaskState, k: nat, outcome: Outcome, now: int)
    requires Inv(ts) && ExecInv(ts) && k < |ts.ops| && IsWrite(ts.ops[k].stage)
    requires Applies(outcome) ==> ts.ops[k].version + 1 == |ts.hist|
    ensures ExecInv(StepWrite(ts, k, outcome, now))
  {
    WriteBringsClone(ts, k, outcome.Stored?, now);
    hide AfterWrite, Cloned, Inv;
  }

  /** A run made from a status with a ledger resumes; without one it clones. */
  lemma RunClonesOrFollows(ts: TaskState, k: nat)
    requires Inv(ts) && ExecInv(ts) && k < |ts.ops| && ts.ops[k].stage.Executing?
    ensures var st := ts.ops[k].st; IsResume(st) ==> Cloned(ts.execs, st.podName)
    ensures var st := ts.ops[k].st; Cloned(ts.execs + [Exec(k, st.podName, IsResume(st))], st.podName)
  {
    var op := ts.ops[k];
    var b := ts.hist[op.version];
    assert OpOk(ts.spec, b, op) && Good(ts.spec, b);
    ClonedGrows(ts.execs, Exec(k, op.st.podName, IsResume(op.st)), op.st.podName);
    assert b.clarifications != [] ==> Cloned(ts.execs, b.podName);
    hide SplitRepository, ClaimNameOf, MaxRounds, Cloned;
  }

  lemma CallKeepsPod(spec: Spec, op: Op, r: Response, now: int)
    requires Fits(spec, op, r) && !IsWrite(op.stage)
    ensures var op' := AfterCall(spec, op, r, now);
            op'.stage.SavingCost? || op'.stage.Asking? ==> r.Ran? && op'.st.podName == op.st.podName
    ensures r.Ran? ==> op.stage.Executing?
  {
    hide SplitRepository, ClaimNameOf, Cost.Accumulate, Markers.Clarification, Markers.PullRequestURL, Contains;
  }

  /** One more run: it clones, or it follows one that did. */
  lemma RanKeepsExecs(ts: TaskState, k: nat, op': Op, e: Exec)
    requires ExecInv(ts) && k < |ts.ops|
    requires op'.stage.SavingCost? || op'.stage.Asking? ==> op'.st.podName == e.pod
    requires Cloned(ts.execs + [e], e.pod) && (e.resume ==> Cloned(ts.execs, e.pod))
    ensures ExecInv(ts.(ops := ts.ops[k := op'], execs := ts.execs + [e]))
  {
    hide Cloned;
    var execs := ts.execs + [e];
    forall pod: string ensures Cloned(ts.execs, pod) ==> Cloned(execs, pod) {
      ClonedGrows(ts.execs, e, pod);
    }
    forall i | 0 <= i < |execs| && execs[i].resume ensures Cloned(execs[..i], execs[i].pod) {
      assert execs[..i] == ts.execs[..i];
      assert ts.execs[..|ts.execs|] == ts.execs;
    }
  }

  lemma CommentsDoNotRun(ts: TaskState, comments: seq<Comment>)
    requires ExecInv(ts)
    ensures ExecInv(ts.(comments := comments))
  {
    hide Cloned;
  }

  lemma CallKeepsExecs(ts: TaskState, k: nat, r: Response, now: int)
    requires Inv(ts) && ExecInv(ts) && k < |ts.ops| && Fits(ts.spec, ts.ops[k], r) && !IsWrite(ts.ops[k].stage)
    ensures ExecInv(StepCall(ts, k, r, now))
  {
    hide AfterCall, Fits, ExecInv, Inv, Cloned, KindOf;
    var op := ts.ops[k];
    CallKeepsPod(ts.spec, op, r, now);
    var op' := AfterCall(ts.spec, op, r, now);
    if r.Ran? {
      RunClonesOrFollows(ts, k);
      RanKeepsExecs(ts, k, op', Exec(k, op.st.podName, IsResume(op.st)));
    } else {
      ReplacingKeepsExecs(ts, k, op');
      CommentsDoNotRun(ts.(ops := ts.ops[k := op']), StepCall(ts, k, r, now).comments);
    }
  }

  lemma ReplacingKeepsExecs(ts: TaskState, k: nat, op': Op)
    requires ExecInv(ts) && k < |ts.ops| && !op'.stage.SavingCost? && !op'.stage.Asking?
    ensures ExecInv(ts.(ops := ts.ops[k := op']))
  {
    hide Cloned;
  }

  lemma StartingKeepsExecs(ts: TaskState, op: Op)
    requires ExecInv(ts) && !op.stage.SavingCost? && !op.stage.Asking?
    ensures ExecInv(ts.(ops := ts.ops + [op]))
  {
    hide Cloned;
  }

  lemma NewAsksNothing(ts: TaskState, a: Action)
    requires (a.Read? || a.Hear?) && Enabled(ts, a)
    ensures !NewOp(ts, a).stage.SavingCost? && !NewOp(ts, a).stage.Asking?
  {
    hide SplitRepository;
  }

  lemma AnswerKeepsExecs(ts: TaskState, k: nat, r: Response, now: int)
    requires Inv(ts) && ExecInv(ts) && |ts.hist| > 0 && Enabled(ts, Answer(k, r, now))
    ensures ExecInv(Step(ts, Answer(k, r, now)))
  {
    hide Inv, ExecInv, StepWrite, StepCall, AfterWrite, AfterCall, ClaimNameOf, SplitRepository;
    if IsWrite(ts.ops[k].stage) {
      assert r.Wrote?;
      WriteKeepsExecs(ts, k, r.outcome, now);
    } else {
      CallKeepsExecs(ts, k, r, now);
    }
  }

  lemma StepKeepsExecs(ts: TaskState, a: Action)
    requires Inv(ts) && ExecInv(ts) && |ts.hist| > 0
    ensures ExecInv(Step(ts, a))
  {
    hide Inv, ExecInv, StepWrite, StepCall, Fits, NewOp;
    if Enabled(ts, a) {
      match a
      case Answer(k, r, now) => AnswerKeepsExecs(ts, k, r, now);
      case Crash(k) => ReplacingKeepsExecs(ts, k, ts.ops[k].(stage := Finished));
      case _ =>
        NewAsksNothing(ts, a);
        StartingKeepsExecs(ts, NewOp(ts, a));
    }
  }

  lemma {:induction false} RunKeepsExecs(ts: TaskState, acts: seq<Action>)
    requires Inv(ts) && ExecInv(ts)
    ensures ExecInv(Run(ts, acts))
  {
    assert |ts.hist| > 0;
    hide Inv, ExecInv, Step;
    if acts != [] {
      var before := acts[..|acts| - 1];
      RunKeepsExecs(ts, before);
      RunKeepsInv(ts, before);
      StepKeepsExecs(Run(ts, before), acts[|acts| - 1]);
    }
  }

  /** In every run, a command that skips the clone was preceded by one of the same task that
      cloned, in the same pod. */
  lemma ResumeFollowsClone(ts: TaskState, i: nat)
    requires Reachable(ts) && i < |ts.execs| && ts.execs[i].resume
    ensures exists j :: 0 <= j < i && ts.execs[j].pod == ts.execs[i].pod && !ts.execs[j].resume
  {
    var ts0, acts :| IsFresh(ts0) && Run(ts0, acts) == ts;
    FreshInv(ts0);
    assert ExecInv(ts0);
    RunKeepsExecs(ts0, acts);
    var j :| 0 <= j < i && ts.execs[..i][j].pod == ts.execs[i].pod && !ts.execs[..i][j].resume;
    assert ts.execs[j] == ts.execs[..i][j];
  }
}
