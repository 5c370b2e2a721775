/** The 24 hour limit on waiting for an answer. */
module Timeouts {
  import opened Tasks
  import opened Protocol
  import opened Lifecycle

  /** The moment after which a reconcile of a waiting task fails it. */
  function Deadline(st: Status): int
    requires st.startTime.Some?
  {
    st.startTime.value + CLARIFICATION_WAIT_TIMEOUT
  }

  /** A waiting task always has a deadline, and a reconcile at `now` fails it exactly when the
      deadline has passed; otherwise the reconcile ends and asks to be requeued. */
  lemma WaitingReconcile(ts: TaskState, v: nat, now: int)
    requires Reachable(ts) && v < |ts.hist| && ts.hist[v].phase.WaitingForClarification?
    ensures ts.hist[v].startTime.Some?
    ensures var op := NewOp(ts, Read(v, now));
            && (op.stage.Failing? <==> now > ts.hist[v].startTime.value + 24 * 60 * 60)
            && (op.stage.Finished? <==> now <= ts.hist[v].startTime.value + 24 * 60 * 60)
  {
    IdentityFixed(ts);
  }

  lemma FailureStored(ts: TaskState, v: nat, now: int)
    requires v + 1 == |ts.hist| && NewOp(ts, Read(v, now)).stage.Failing?
    requires ts.hist[v].phase.WaitingForClarification?
    ensures var failed := Step(Step(ts, Read(v, now)), Answer(|ts.ops|, Wrote(Stored), now));
            |failed.hist| == |ts.hist| + 1 && failed.hist[|ts.hist|].phase.Failed?
  {
    hide AfterWrite;
  }

  /** Nothing is stored for a waiting task in time. */
  lemma NothingStored(ts: TaskState, v: nat, now: int)
    requires v + 1 == |ts.hist| && NewOp(ts, Read(v, now)).stage.Finished?
    ensures Step(Step(ts, Read(v, now)), Answer(|ts.ops|, Wrote(Stored), now)).hist == ts.hist
  {
    hide NewOp;
  }

  /** A writer stores its question as the newest version. */
  lemma QuestionStored(ts: TaskState, k: nat, now: int)
    requires Inv(ts) && k < |ts.ops| && ts.ops[k].stage.Asking? && ts.ops[k].version + 1 == |ts.hist|
    ensures var asked := Step(ts, Answer(k, Wrote(Stored), now));
            && asked.hist == ts.hist + [ts.ops[k].st] && ts.ops[k].st.phase.WaitingForClarification?
            && |asked.ops| == |ts.ops|
    ensures ts.ops[k].st.startTime == ts.hist[ts.ops[k].version].startTime
  {
    hide Inv, Good, OpOk, AfterWrite;
    WriterBase(ts, k);
    AskingCopy(ts.spec, ts.hist[ts.ops[k].version], ts.ops[k]);
  }

  lemma AskingCopy(spec: Spec, b: Status, op: Op)
    requires OpOk(spec, b, op) && op.stage.Asking?
    ensures b.phase.Running? && op.st.phase.WaitingForClarification? && op.st.startTime == b.startTime
  {
    hide MaxRounds;
  }

  /** The 24 hours count from the start of the task: a question stored at `now` is failed by a
      reconcile at that same moment, without any time to answer, if and only if the deadline has
      passed by then. */
  lemma AskedTooLate(ts: TaskState, k: nat, now: int)
    requires Reachable(ts) && k < |ts.ops| && ts.ops[k].stage.Asking? && ts.ops[k].version + 1 == |ts.hist|
    ensures var asked := Step(ts, Answer(k, Wrote(Stored), now));
            && asked.hist == ts.hist + [ts.ops[k].st] && asked.hist[|ts.hist|].phase.WaitingForClarification?
            && ts.ops[k].st.startTime.Some?
            && var failed := Step(Step(asked, Read(|ts.hist|, now)), Answer(|ts.ops|, Wrote(Stored), now));
               && (now > ts.ops[k].st.startTime.value + 24 * 60 * 60 ==>
                     |failed.hist| == |ts.hist| + 2 && failed.hist[|ts.hist| + 1].phase.Failed?)
               && (now <= ts.ops[k].st.startTime.value + 24 * 60 * 60 ==> failed.hist == asked.hist)
  {
    ReachableInv(ts);
    QuestionStored(ts, k, now);
    ReachableStep(ts, Answer(k, Wrote(Stored), now));
    hide Inv, Reachable, Step, NewOp;
    var asked := Step(ts, Answer(k, Wrote(Stored), now));
    WaitingReconcile(asked, |ts.hist|, now);
    if now > Deadline(ts.ops[k].st) {
      FailureStored(asked, |ts.hist|, now);
    } else {
      NothingStored(asked, |ts.hist|, now);
    }
  }

  /** In general, a question stored at `q` has the time that is left until the deadline. It is safe from
      failure for the 24 hours after `q` if and only if it was stored no later than the task started. */
  lemma TimeToAnswer(ts: TaskState, k: nat, q: int)
    requires Reachable(ts) && k < |ts.ops| && ts.ops[k].stage.Asking? && ts.ops[k].version + 1 == |ts.hist|
    ensures var asked := Step(ts, Answer(k, Wrote(Stored), q));
            && asked.hist == ts.hist + [ts.ops[k].st] && ts.ops[k].st.startTime.Some?
            && (forall now :: FailsWaiting(asked, |ts.hist|, now)
                              <==> now > ts.ops[k].st.startTime.value + 24 * 60 * 60)
            && ((forall now :: q <= now <= q + 24 * 60 * 60 ==> !FailsWaiting(asked, |ts.hist|, now))
                <==> q <= ts.ops[k].st.startTime.value)
  {
    AskedTooLate(ts, k, q);
    ReachableStep(ts, Answer(k, Wrote(Stored), q));
    hide Reachable, Step, NewOp;
    var asked, v := Step(ts, Answer(k, Wrote(Stored), q)), |ts.hist|;
    forall now ensures FailsWaiting(asked, v, now) <==> now > Deadline(ts.ops[k].st) {
      WaitingReconcile(asked, v, now);
    }
    var last := q + CLARIFICATION_WAIT_TIMEOUT;
    assert FailsWaiting(asked, v, last) <==> last > Deadline(ts.ops[k].st);
  }

  /** A reconcile at `now` of version `v` sets out to fail the task. */
  predicate FailsWaiting(ts: TaskState, v: nat, now: int)
    requires v < |ts.hist|
  {
    NewOp(ts, Read(v, now)).stage.Failing?
  }

  // ---------- leaving in time ----------

  /** One reconcile of a waiting task in a run of the machine: others move, it reads the newest
      version, others move again, and its write, if it has one, commits if it still can. */
  datatype Round = Round(before: seq<Action>, now: int, between: seq<Action>)

  /** The action is not made for writer `me`. */
  predicate OfOther(a: Action, me: nat) {
    !(a.Answer? && a.op == me) && !(a.Crash? && a.op == me)
  }

  function AfterRound(ts: TaskState, r: Round): (ts': TaskState)
    requires |ts.hist| > 0
    ensures |ts'.hist| > 0
  {
    var read := Run(ts, r.before);
    var me := |read.ops|;
    Step(Run(Step(read, Read(|read.hist| - 1, r.now)), r.between), Answer(me, Wrote(Stored), r.now))
  }

  function AfterRounds(ts: TaskState, rounds: seq<Round>): (ts': TaskState)
    requires |ts.hist| > 0
    ensures |ts'.hist| > 0
  {
    if rounds == [] then ts else AfterRound(AfterRounds(ts, rounds[..|rounds| - 1]), rounds[|rounds| - 1])
  }

  /** The moves in between leave the reconcile of the round alone. */
  ghost predicate Undisturbed(ts: TaskState, rounds: seq<Round>)
    requires |ts.hist| > 0
  {
    forall n, i :: 0 <= n < |rounds| && 0 <= i < |rounds[n].between| ==>
      OfOther(rounds[n].between[i], |Run(AfterRounds(ts, rounds[..n]), rounds[n].before).ops|)
  }

  lemma {:induction false} RunKeepsWriter(ts: TaskState, acts: seq<Action>, me: nat)
    requires |ts.hist| > 0 && me < |ts.ops| && forall i :: 0 <= i < |acts| ==> OfOther(acts[i], me)
    ensures me < |Run(ts, acts).ops| && Run(ts, acts).ops[me] == ts.ops[me]
  {
    hide Step;
    if acts != [] {
      var before := acts[..|acts| - 1];
      RunKeepsWriter(ts, before, me);
      OthersKeepWriter(Run(ts, before), acts[|acts| - 1], me);
    }
  }

  lemma {:induction false} RoundsReachable(ts: TaskState, rounds: seq<Round>)
    requires Reachable(ts) && |ts.hist| > 0
    ensures Reachable(AfterRounds(ts, rounds)) && ts.hist <= AfterRounds(ts, rounds).hist
  {
    hide Reachable, Step, Run;
    if rounds != [] {
      var n := |rounds| - 1;
      RoundsReachable(ts, rounds[..n]);
      RoundReachable(AfterRounds(ts, rounds[..n]), rounds[n]);
    }
  }

  lemma RoundReachable(ts: TaskState, r: Round)
    requires Reachable(ts) && |ts.hist| > 0
    ensures Reachable(AfterRound(ts, r)) && ts.hist <= AfterRound(ts, r).hist
  {
    hide Reachable, Step, Run;
    var s1 := Run(ts, r.before);
    ReachableRun(ts, r.before);
    var s2 := Step(s1, Read(|s1.hist| - 1, r.now));
    ReachableStep(s1, Read(|s1.hist| - 1, r.now));
    HistoryGrows(s1, Read(|s1.hist| - 1, r.now));
    var s3 := Run(s2, r.between);
    ReachableRun(s2, r.between);
    ReachableStep(s3, Answer(|s1.ops|, Wrote(Stored), r.now));
    HistoryGrows(s3, Answer(|s1.ops|, Wrote(Stored), r.now));
  }

  /** A round after the deadline of the version that the task waits in ends the wait. */
  lemma LateRoundLeaves(ts: TaskState, r: Round, v: nat)
    requires Reachable(ts) && v < |ts.hist| && ts.hist[v].phase.WaitingForClarification?
    requires ts.hist[v].startTime.Some? && r.now > Deadline(ts.hist[v])
    requires forall i :: 0 <= i < |r.between| ==> OfOther(r.between[i], |Run(ts, r.before).ops|)
    ensures |AfterRound(ts, r).hist| > v + 1
  {
    hide Reachable, Step, Run, NewOp;
    RoundReachable(ts, r);
    var s1, now := Run(ts, r.before), r.now;
    ReachableRun(ts, r.before);
    var me, last := |s1.ops|, |s1.hist| - 1;
    var s2 := Step(s1, Read(last, now));
    HistoryGrows(s1, Read(last, now));
    ReachableStep(s1, Read(last, now));
    var s3 := Run(s2, r.between);
    ReachableRun(s2, r.between);
    HistoryGrows(s3, Answer(me, Wrote(Stored), now));
    if |s3.hist| == v + 1 {
      WaitingReconcile(s1, last, now);
      ReadStarts(s1, last, now);
      RunKeepsWriter(s2, r.between, me);
      FailingStores(s3, me, now);
    }
  }

  lemma ReadStarts(ts: TaskState, v: nat, now: int)
    requires v < |ts.hist|
    ensures Step(ts, Read(v, now)).ops == ts.ops + [NewOp(ts, Read(v, now))]
    ensures NewOp(ts, Read(v, now)).version == v
    ensures NewOp(ts, Read(v, now)).stage.Failing? ==> NewOp(ts, Read(v, now)).st.phase.Failed?
  {
    hide SplitRepository;
  }

  lemma FailingStores(ts: TaskState, me: nat, now: int)
    requires |ts.hist| > 0 && me < |ts.ops| && ts.ops[me].stage.Failing? && ts.ops[me].version + 1 == |ts.hist|
    requires ts.ops[me].st.phase.Failed? && !ts.hist[|ts.hist| - 1].phase.Failed?
    ensures |Step(ts, Answer(me, Wrote(Stored), now)).hist| == |ts.hist| + 1
  {
    hide AfterWrite;
  }

  function Max(a: int, b: int): int {
    if a < b then b else a
  }

  /** In a run in which a waiting task is reconciled, at first at any time and then at most one requeue
      interval after the last time, with any other moves before and within each reconcile, the task
      has left the version it waits in, by an answer or a failure, at the latest one interval after
      its deadline or at its first reconcile. */
  lemma LeavesInTime(ts: TaskState, v: nat, rounds: seq<Round>)
    requires Reachable(ts) && v + 1 == |ts.hist| && ts.hist[v].phase.WaitingForClarification?
    requires rounds != [] && Undisturbed(ts, rounds)
    requires forall i :: 0 < i < |rounds| ==> rounds[i - 1].now < rounds[i].now <= rounds[i - 1].now + REQUEUE_INTERVAL
    requires ts.hist[v].startTime.Some? ==> rounds[|rounds| - 1].now > Deadline(ts.hist[v])
    ensures ts.hist[v].startTime.Some?
    ensures exists i :: 0 <= i < |rounds|
              && rounds[i].now <= Max(rounds[0].now, ts.hist[v].startTime.value + 24 * 60 * 60 + 5 * 60)
              && var hist := AfterRounds(ts, rounds[..i + 1]).hist;
                 |hist| > v + 1 && (hist[v + 1].phase.Running? || hist[v + 1].phase.Failed?)
  {
    hide Reachable, AfterRound, AfterRounds, Run, Step, NewOp, Undisturbed;
    WaitingReconcile(ts, v, 0);
    var i := FirstLate(rounds, Deadline(ts.hist[v]));
    RoundsReachable(ts, rounds[..i]);
    OneMoreRound(ts, rounds, i);
    LateRoundLeaves(AfterRounds(ts, rounds[..i]), rounds[i], v);
    RoundsReachable(ts, rounds[..i + 1]);
    LeavesTo(AfterRounds(ts, rounds[..i + 1]), v);
  }

  /** The first round after the deadline comes in time. */
  lemma FirstLate(rounds: seq<Round>, deadline: int) returns (i: nat)
    requires rounds != [] && rounds[|rounds| - 1].now > deadline
    requires forall i :: 0 < i < |rounds| ==> rounds[i - 1].now < rounds[i].now <= rounds[i - 1].now + REQUEUE_INTERVAL
    ensures i < |rounds| && deadline < rounds[i].now <= Max(rounds[0].now, deadline + REQUEUE_INTERVAL)
  {
    i := 0;
    while rounds[i].now <= deadline
      invariant 0 <= i < |rounds|
      invariant i > 0 ==> rounds[i - 1].now <= deadline
      decreases |rounds| - i
    {
      i := i + 1;
    }
  }

  lemma OneMoreRound(ts: TaskState, rounds: seq<Round>, i: nat)
    requires |ts.hist| > 0 && i < |rounds| && Undisturbed(ts, rounds)
    ensures AfterRounds(ts, rounds[..i + 1]) == AfterRound(AfterRounds(ts, rounds[..i]), rounds[i])
    ensures forall j :: 0 <= j < |rounds[i].between| ==>
              OfOther(rounds[i].between[j], |Run(AfterRounds(ts, rounds[..i]), rounds[i].before).ops|)
  {
    hide AfterRound, Run, OfOther;
    assert rounds[..i + 1][..i] == rounds[..i];
  }

  lemma LeavesTo(ts: TaskState, v: nat)
    requires Reachable(ts) && v + 1 < |ts.hist| && ts.hist[v].phase.WaitingForClarification?
    ensures ts.hist[v + 1].phase.Running? || ts.hist[v + 1].phase.Failed?
  {
    AllowedTransitions(ts);
    assert PhaseStep(ts.hist[v + 1 - 1].phase, ts.hist[v + 1].phase);
  }
}
