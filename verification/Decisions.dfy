/** What each answer makes a writer do, spelled out on the steps of reachable tasks: every call that a
    reconcile makes next, and every field of the status that it is about to store. */
module Decisions {
  import opened Text
  import opened Options
  import opened ClaudeOutput
  import opened ClaimNames
  import opened Cost
  import opened Markers
  import opened Tasks
  import opened Protocol
  import opened Lifecycle

  lemma AnswerMoves(ts: TaskState, k: nat, r: Response, now: int)
    requires |ts.hist| > 0 && Enabled(ts, Answer(k, r, now))
    ensures var ts', op := Step(ts, Answer(k, r, now)), ts.ops[k];
            && k < |ts'.ops| && Fits(ts.spec, op, r)
            && (!IsWrite(op.stage) ==> ts'.ops[k] == AfterCall(ts.spec, op, r, now) && ts'.hist == ts.hist)
            && (IsWrite(op.stage) ==>
                  && r.Wrote?
                  && ts'.ops[k] ==
                       AfterWrite(ts.spec, op, r.outcome.Stored?, now).(version := ts'.ops[k].version))
  {
    hide AfterCall, AfterWrite, Fits, IsResume, KindOf;
    if IsWrite(ts.ops[k].stage) {
      WritesAreWritten(ts.spec, ts.ops[k], r);
    }
  }

  lemma RunningBase(ts: TaskState, k: nat)
    requires Reachable(ts) && k < |ts.ops| && ts.ops[k].stage.Executing?
    ensures var st := ts.ops[k].st; st.phase.Running? && AllAnswered(st.clarifications)
  {
    hide Reachable, Inv, Good, OpOk, AllAnswered;
    ReachableInv(ts);
    WriterBase(ts, k);
    RunningCopy(ts.spec, ts.hist[ts.ops[k].version], ts.ops[k]);
  }

  lemma RunningCopy(spec: Spec, b: Status, op: Op)
    requires Good(spec, b) && OpOk(spec, b, op) && op.stage.Executing?
    ensures op.st.phase.Running? && AllAnswered(op.st.clarifications)
  {
    hide SplitRepository, ClaimNameOf, MaxRounds, AllAnswered;
  }

  /** After a run: a question comes first; without one the task completes exactly when the command did
      not fail and the text either has the completion marker or lacks the failure marker; otherwise
      it fails. The cost is added in each case, and the run is logged as a resume exactly when there
      was a question before. */
  lemma RunDecides(ts: TaskState, k: nat, cr: ClaudeResult, text: string, failed: bool, now: int)
    requires Reachable(ts) && |ts.hist| > 0 && Enabled(ts, Answer(k, Ran(cr, text, failed), now))
    ensures var ts' := Step(ts, Answer(k, Ran(cr, text, failed), now));
            && k < |ts'.ops| && ts.ops[k].stage.Executing?
            && var op, op' := ts.ops[k], ts'.ops[k];
               var q, url := Clarification(text), PullRequestURL(text);
               var done := !failed && (Contains(text, ":::TASK_COMPLETE:::") || !Contains(text, ":::TASK_FAILED:::"));
               var billed := op.st.(costReport := Some(Accumulate(op.st.costReport, cr)));
               && (q != "" <==> op'.stage.SavingCost?)
               && (q == "" && done <==> op'.stage.Completing?)
               && (q == "" && !done <==> op'.stage.Failing?)
               && (q != "" ==> op'.stage.question == q && op'.st == billed)
               && (op'.stage.Completing? ==>
                     op'.st == billed.(phase := Completed, completionTime := Some(now),
                                       pullRequestURL := if url != "" then url else op.st.pullRequestURL))
               && (op'.stage.Failing? ==> op'.st == billed.(phase := Failed, completionTime := Some(now)))
               && op'.ran == Some(cr) && op'.version == op.version
               && ts'.execs == ts.execs + [Exec(k, op.st.podName, op.st.clarifications != [])]
  {
    MarkerTexts();
    hide Accumulate, Clarification, PullRequestURL, Contains, SplitRepository, ClaimNameOf, Reachable;
    hide MARKER_COMPLETE, MARKER_FAILED, MARKER_CLARIFICATION, MARKER_PR_URL;
    AnswerMoves(ts, k, Ran(cr, text, failed), now);
    assert ts.ops[k].stage.Executing?;
    RunningBase(ts, k);
    LastAnsweredIsResume(ts.ops[k].st);
  }

  lemma LastAnsweredIsResume(st: Status)
    requires AllAnswered(st.clarifications)
    ensures IsResume(st) <==> st.clarifications != []
  {
  }

  /** After the cost is saved, or not: the question is asked exactly when the ledger is shorter than
      the limit, three when none is set; otherwise the task fails. */
  lemma QuestionDecides(ts: TaskState, k: nat, outcome: Outcome, now: int)
    requires Reachable(ts) && |ts.hist| > 0 && Enabled(ts, Answer(k, Wrote(outcome), now))
    requires ts.ops[k].stage.SavingCost?
    ensures var ts' := Step(ts, Answer(k, Wrote(outcome), now));
            && k < |ts'.ops|
            && var op, op' := ts.ops[k], ts'.ops[k];
               var limit := if ts.spec.maxClarifications == 0 then 3 else ts.spec.maxClarifications;
               var cs := op.st.clarifications;
               && (|cs| < limit <==> op'.stage.Asking?)
               && (|cs| >= limit <==> op'.stage.Failing?)
               && (op'.stage.Asking? ==>
                     op'.st == op.st.(phase := WaitingForClarification,
                                      clarifications := cs + [Exchange(op.stage.question, "")]))
               && (op'.stage.Failing? ==> op'.st == op.st.(phase := Failed, completionTime := Some(now)))
  {
    hide Reachable, SplitRepository, ClaimNameOf;
    AnswerMoves(ts, k, Wrote(outcome), now);
  }

  /** Every other write: a reported success is followed by its comment or by the next call, anything
      else ends the reconcile, and no field of the copy changes. */
  lemma WriteDecides(ts: TaskState, k: nat, outcome: Outcome, now: int)
    requires Reachable(ts) && |ts.hist| > 0 && Enabled(ts, Answer(k, Wrote(outcome), now))
    requires !ts.ops[k].stage.SavingCost?
    ensures var ts' := Step(ts, Answer(k, Wrote(outcome), now));
            && k < |ts'.ops| && ts'.ops[k].st == ts.ops[k].st
            && var s, s' := ts.ops[k].stage, ts'.ops[k].stage;
               && (!outcome.Stored? ==> s'.Finished?)
               && (outcome.Stored? ==>
                     && (s.Starting? ==> s'.PostingStart?)
                     && (s.SavingPod? ==> s'.FetchingToken?)
                     && (s.Asking? ==> s'.PostingQuestion?)
                     && (s.Completing? ==> s'.PostingCompletion?)
                     && (s.Failing? && Contains(ts.spec.repository, "/") ==> s'.PostingFailure?)
                     && (s.Failing? && !Contains(ts.spec.repository, "/") ==> s'.Finished?)
                     && (s.Resuming? ==> s'.Finished?))
  {
    SplitJoined("", "", ts.spec.repository);
    hide Reachable, ClaimNameOf, SplitRepository, Contains, MaxRounds;
    AnswerMoves(ts, k, Wrote(outcome), now);
    if ts.ops[k].stage.Failing? && SplitRepository(ts.spec.repository).None? {
      FailedWithoutClaim(ts, k);
    }
  }

  lemma FailedWithoutClaim(ts: TaskState, k: nat)
    requires Reachable(ts) && k < |ts.ops| && ts.ops[k].stage.Failing? && SplitRepository(ts.spec.repository).None?
    ensures ts.ops[k].st.claimName == ""
  {
    hide Reachable, Inv, Good, OpOk, SplitRepository, ClaimNameOf;
    ReachableInv(ts);
    WriterBase(ts, k);
    FailingCopy(ts.spec, ts.hist[ts.ops[k].version], ts.ops[k]);
  }

  lemma FailingCopy(spec: Spec, b: Status, op: Op)
    requires Good(spec, b) && OpOk(spec, b, op) && op.stage.Failing? && SplitRepository(spec.repository).None?
    ensures op.st.claimName == ""
  {
    hide SplitRepository, ClaimNameOf, MaxRounds;
  }

  /** A reconcile that reads version `v`: a new task goes on to its claim, or fails if its repository
      has no slash; a running one waits for its sandbox or, if it has a pod, fetches the token; a
      waiting one fails after 24 hours from its start; nothing else is done. */
  lemma ReadDecides(ts: TaskState, v: nat, now: int)
    requires Reachable(ts) && v < |ts.hist|
    ensures var ts', j, st := Step(ts, Read(v, now)), |ts.ops|, ts.hist[v];
            && |ts'.ops| == j + 1 && ts'.ops[..j] == ts.ops && ts'.hist == ts.hist
            && var op := ts'.ops[j];
               && op.version == v && op.ran == None
               && (op.stage.Failing? <==>
                     || (st.phase.IsNew() && !Contains(ts.spec.repository, "/"))
                     || (st.phase.WaitingForClarification?
                         && st.startTime.Some? && now - st.startTime.value > 24 * 60 * 60))
               && (op.stage.Claiming? <==> st.phase.IsNew() && Contains(ts.spec.repository, "/"))
               && (op.stage.AwaitingSandbox? <==> st.phase.Running? && st.podName == "")
               && (op.stage.FetchingToken? <==> st.phase.Running? && st.podName != "")
               && (op.stage.Failing? ==> op.st == st.(phase := Failed, completionTime := Some(now)))
               && (!op.stage.Failing? ==>
                     op.st == st && (op.stage.Finished? || op.stage.Claiming? || op.stage.AwaitingSandbox?
                                     || op.stage.FetchingToken?))
  {
    SplitJoined("", "", ts.spec.repository);
    hide Reachable, ClaimNameOf, SplitRepository, Contains;
    LiveVersion(ts, v);
  }

  lemma LiveVersion(ts: TaskState, v: nat)
    requires Reachable(ts) && v < |ts.hist|
    ensures ts.hist[v].phase.IsLive() ==>
              ts.hist[v].claimName != "" && ts.hist[v].startTime.Some? && SplitRepository(ts.spec.repository).Some?
  {
    hide Reachable, Keeps, ClaimNameOf, SplitRepository;
    IdentityFixed(ts);
  }

  /** A webhook that finds version `v` waiting stores it as running with its answer in the last entry. */
  lemma HearDecides(ts: TaskState, v: nat, answer: string)
    requires Reachable(ts) && v < |ts.hist| && ts.hist[v].phase.WaitingForClarification? && answer != ""
    ensures var ts', j, st := Step(ts, Hear(v, answer)), |ts.ops|, ts.hist[v];
            && |ts'.ops| == j + 1 && ts'.ops[..j] == ts.ops && ts'.hist == ts.hist && st.clarifications != []
            && var op, n := ts'.ops[j], |st.clarifications| - 1;
               && op.version == v && op.ran == None && op.stage.Resuming?
               && op.st == st.(phase := Running,
                               clarifications := st.clarifications[..n]
                                 + [Exchange(st.clarifications[n].question, answer)])
  {
    hide Reachable, Good, Follows, OpOk;
    ReachableInv(ts);
    assert Good(ts.spec, ts.hist[v]);
    hide Inv;
    WaitingHasQuestion(ts.spec, ts.hist[v]);
  }

  lemma WaitingHasQuestion(spec: Spec, st: Status)
    requires Good(spec, st) && st.phase.WaitingForClarification?
    ensures st.clarifications != []
  {
    hide MaxRounds, ClaimNameOf, SplitRepository;
  }

  /** The remaining calls. A claim that is created or already there leads to the write of Running, with
      the name made of the repository's two parts and the issue, and the time; a sandbox to the
      write of its pod; a token to the run; a comment, whether it appears or not, to the cleanup
      exactly when it ends the task. Errors fail the task, except that of the claim, which ends the
      reconcile. */
  lemma CallDecides(ts: TaskState, k: nat, r: Response, now: int)
    requires Reachable(ts) && |ts.hist| > 0 && Enabled(ts, Answer(k, r, now)) && !r.Wrote? && !r.Ran?
    ensures var ts' := Step(ts, Answer(k, r, now));
            && k < |ts'.ops| && ts'.hist == ts.hist && ts'.execs == ts.execs
            && var op, op' := ts.ops[k], ts'.ops[k];
               var failed := op'.stage.Failing? && op'.st == op.st.(phase := Failed, completionTime := Some(now));
               && op'.version == op.version && op'.ran == op.ran
               && (r.Created? || r.AlreadyExists? ==>
                     && op'.stage.Starting? && Contains(ts.spec.repository, "/")
                     && var i := Index(ts.spec.repository, "/");
                        op'.st == op.st.(phase := Running, startTime := Some(now),
                                         claimName := ClaimName(ts.spec.repository[..i], ts.spec.repository[i + 1..],
                                                                ts.spec.issue)))
               && (r.ClaimError? ==> op'.stage.Finished?)
               && (r.Sandbox? && r.pod.Some? ==> op'.stage.SavingPod? && op'.st == op.st.(podName := r.pod.value))
               && (r.Sandbox? && r.pod.None? ==> failed)
               && (r.Token? && r.ok ==> op'.stage.Executing? && op'.st == op.st)
               && (r.Token? && !r.ok ==> failed)
               && (r.Posted? ==> op'.st == op.st
                                 && (op.stage.PostingCompletion? || op.stage.PostingFailure? <==> op'.stage.Releasing?)
                                 && (op.stage.PostingStart? || op.stage.PostingQuestion? <==> op'.stage.Finished?))
               && (r.Deleted? ==> op'.stage.Finished?)
  {
    hide Reachable, ClaimName, AfterRun, Contains, Index, Inv, Good, OpOk;
    AnswerMoves(ts, k, r, now);
    if ts.ops[k].stage.PostingFailure? {
      ReachableInv(ts);
      WriterBase(ts, k);
      FailureHasClaim(ts.spec, ts.hist[ts.ops[k].version], ts.ops[k]);
    }
  }

  lemma FailureHasClaim(spec: Spec, b: Status, op: Op)
    requires Good(spec, b) && OpOk(spec, b, op) && op.stage.PostingFailure?
    ensures op.st.claimName != ""
  {
    hide SplitRepository, ClaimNameOf, MaxRounds;
    ClaimNameNotEmpty(spec);
  }

  // ---------- questions up to the limit ----------

  /** The newest status. */
  function Newest(ts: TaskState): Status
    requires |ts.hist| > 0
  {
    ts.hist[|ts.hist| - 1]
  }

  /** A write on the newest version that is stored and reported. */
  lemma StoredIsNewest(ts: TaskState, k: nat, now: int)
    requires |ts.hist| > 0 && k < |ts.ops| && IsWrite(ts.ops[k].stage) && ts.ops[k].version + 1 == |ts.hist|
    ensures Enabled(ts, Answer(k, Wrote(Stored), now))
    ensures var ts' := Step(ts, Answer(k, Wrote(Stored), now));
            && ts'.spec == ts.spec && |ts'.hist| > 0 && Newest(ts') == ts.ops[k].st
            && k < |ts'.ops| && ts'.ops[k].version + 1 == |ts'.hist|
  {
    hide AfterWrite;
  }

  /** A running task with a pod asks what its text asks, if its ledger is below the limit. */
  lemma AskOnce(ts: TaskState, cr: ClaudeResult, text: string) returns (ts': TaskState)
    requires Reachable(ts) && |ts.hist| > 0 && Newest(ts).phase.Running? && Newest(ts).podName != ""
    requires Clarification(text) != ""
    requires |Newest(ts).clarifications| < if ts.spec.maxClarifications == 0 then 3 else ts.spec.maxClarifications
    ensures Reachable(ts') && ts'.spec == ts.spec && |ts'.hist| > 0
    ensures Newest(ts').phase.WaitingForClarification? && Newest(ts').podName == Newest(ts).podName
    ensures Newest(ts').clarifications == Newest(ts).clarifications + [Exchange(Clarification(text), "")]
  {
    hide Reachable, Clarification, PullRequestURL, Contains, Accumulate, Enabled, Step, IsWrite;
    var v, j := |ts.hist| - 1, |ts.ops|;
    ReadDecides(ts, v, 0);
    ReachableStep(ts, Read(v, 0));
    HistoryGrows(ts, Read(v, 0));
    var s := Step(ts, Read(v, 0));
    s := Answered(s, j, Token(true));
    s := Answered(s, j, Ran(cr, text, false));
    WriteStages(s.ops[j]);
    s := StoredAnswer(s, j);
    WriteStages(s.ops[j]);
    ts' := StoredAnswer(s, j);
  }

  lemma WriteStages(op: Op)
    ensures op.stage.SavingCost? || op.stage.Asking? || op.stage.Resuming? ==> IsWrite(op.stage)
  {
  }

  lemma Answered(ts: TaskState, k: nat, r: Response) returns (ts': TaskState)
    requires Reachable(ts) && |ts.hist| > 0 && k < |ts.ops|
    requires if ts.ops[k].stage.FetchingToken? then r == Token(true)
             else ts.ops[k].stage.Executing? && ts.ops[k].st.podName != "" && r.Ran?
    ensures Enabled(ts, Answer(k, r, 0)) && ts' == Step(ts, Answer(k, r, 0))
    ensures Reachable(ts') && ts'.spec == ts.spec && ts'.hist == ts.hist && k < |ts'.ops|
    ensures ts'.ops[k].version == ts.ops[k].version
    ensures r.Token? ==> ts'.ops[k].stage.Executing? && ts'.ops[k].st == ts.ops[k].st
    ensures r.Ran? && Clarification(r.text) != "" ==>
              && ts'.ops[k].stage == SavingCost(Clarification(r.text))
              && ts'.ops[k].st == ts.ops[k].st.(costReport := ts'.ops[k].st.costReport)
  {
    assert Enabled(ts, Answer(k, r, 0));
    hide Reachable, Step, Enabled, Clarification, PullRequestURL, Contains, Accumulate;
    ts' := Step(ts, Answer(k, r, 0));
    ReachableStep(ts, Answer(k, r, 0));
    HistoryGrows(ts, Answer(k, r, 0));
    AnswerMoves(ts, k, r, 0);
    if r.Ran? {
      RunDecides(ts, k, r.cr, r.text, r.failed, 0);
    } else {
      CallDecides(ts, k, r, 0);
    }
  }

  lemma StoredAnswer(ts: TaskState, k: nat) returns (ts': TaskState)
    requires Reachable(ts) && |ts.hist| > 0 && k < |ts.ops| && ts.ops[k].version + 1 == |ts.hist|
    requires IsWrite(ts.ops[k].stage)
    ensures Reachable(ts') && ts'.spec == ts.spec && |ts'.hist| > 0 && Newest(ts') == ts.ops[k].st
    ensures k < |ts'.ops| && ts'.ops[k].version + 1 == |ts'.hist|
    ensures var limit := if ts.spec.maxClarifications == 0 then 3 else ts.spec.maxClarifications;
            ts.ops[k].stage.SavingCost? && |ts.ops[k].st.clarifications| < limit ==>
              && ts'.ops[k].stage.Asking?
              && ts'.ops[k].st == ts.ops[k].st.(
                   phase := WaitingForClarification,
                   clarifications := ts.ops[k].st.clarifications + [Exchange(ts.ops[k].stage.question, "")])
  {
    hide Reachable, Step, Enabled;
    StoredIsNewest(ts, k, 0);
    ts' := Step(ts, Answer(k, Wrote(Stored), 0));
    ReachableStep(ts, Answer(k, Wrote(Stored), 0));
    if ts.ops[k].stage.SavingCost? {
      QuestionDecides(ts, k, Stored, 0);
    }
  }

  /** A reply to the open question, stored at once. */
  lemma ReplyOnce(ts: TaskState) returns (ts': TaskState)
    requires Reachable(ts) && |ts.hist| > 0 && Newest(ts).phase.WaitingForClarification?
    ensures Reachable(ts') && ts'.spec == ts.spec && |ts'.hist| > 0
    ensures Newest(ts').phase.Running? && Newest(ts').podName == Newest(ts).podName
    ensures |Newest(ts').clarifications| == |Newest(ts).clarifications|
  {
    hide Reachable, Step, IsWrite;
    var v, j := |ts.hist| - 1, |ts.ops|;
    HearDecides(ts, v, "yes");
    ReachableStep(ts, Hear(v, "yes"));
    HistoryGrows(ts, Hear(v, "yes"));
    var s := Step(ts, Hear(v, "yes"));
    WriteStages(s.ops[j]);
    ts' := StoredAnswer(s, j);
  }

  /** From a running task with a pod and an empty ledger, every length up to the limit is reached. */
  lemma {:induction false} LedgerGrowsTo(ts: TaskState, cr: ClaudeResult, text: string, n: nat) returns (ts': TaskState)
    requires Reachable(ts) && |ts.hist| > 0 && Newest(ts).phase.Running? && Newest(ts).podName != ""
    requires Newest(ts).clarifications == [] && Clarification(text) != ""
    requires 0 < n <= if ts.spec.maxClarifications == 0 then 3 else ts.spec.maxClarifications
    ensures Reachable(ts') && ts'.spec == ts.spec && |ts'.hist| > 0
    ensures Newest(ts').phase.WaitingForClarification? && Newest(ts').podName == Newest(ts).podName
    ensures |Newest(ts').clarifications| == n
    decreases n
  {
    hide Reachable, Clarification;
    if n == 1 {
      ts' := AskOnce(ts, cr, text);
    } else {
      ts' := LedgerGrowsTo(ts, cr, text, n - 1);
      ts' := ReplyOnce(ts');
      ts' := AskOnce(ts', cr, text);
    }
  }
}
