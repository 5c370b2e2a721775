/** What every reachable task satisfies: the committed statuses are well formed, consecutive ones
    follow the lifecycle, and the number of phase changes is bounded. */
module Lifecycle {
  import opened Text
  import opened Options
  import opened Cost
  import opened Markers
  import opened Tasks
  import opened Protocol

  /** A committed status. */
  ghost predicate Good(spec: Spec, st: Status) {
    && (st.phase.IsNew() ==> IsInitial(st))
    && (st.phase.IsLive() || st.phase.Completed? ==>
          && SplitRepository(spec.repository).Some?
          && st.claimName == ClaimNameOf(spec)
          && st.startTime.Some?)
    && (st.phase.Failed? ==>
          st.claimName == if SplitRepository(spec.repository).Some? then ClaimNameOf(spec) else "")
    && |st.clarifications| <= MaxRounds(spec)
    && (st.clarifications != [] ==> st.podName != "")
    && (forall i :: 0 <= i < |st.clarifications| ==> st.clarifications[i].question != "")
    && (st.phase.WaitingForClarification? ==> LastOpen(st.clarifications))
    && (st.phase.Running? || st.phase.Completed? ==> AllAnswered(st.clarifications))
    && (st.phase.Failed? ==> AllAnswered(st.clarifications) || LastOpen(st.clarifications))
  }

  /** The phase transitions of a committed write. */
  predicate PhaseStep(a: Phase, b: Phase) {
    match a
    case Unset | Pending => b.Running? || b.Failed?
    case Running => b.Running? || b.WaitingForClarification? || b.Completed? || b.Failed?
    case WaitingForClarification => b.Running? || b.Failed?
    case _ => false
  }

  /** The ledger grows by one open question on entry to waiting, gets one answer on a resume, and
      is otherwise left alone. */
  predicate LedgerStep(a: Status, b: Status) {
    if a.phase.Running? && b.phase.WaitingForClarification? then
      && |b.clarifications| == |a.clarifications| + 1
      && b.clarifications[..|a.clarifications|] == a.clarifications
      && b.clarifications[|a.clarifications|].answer == ""
    else if a.phase.WaitingForClarification? && b.phase.Running? then
      && a.clarifications != []
      && IsResume(b)
      && b.clarifications == WithAnswer(a.clarifications, b.clarifications[|b.clarifications| - 1].answer)
    else b.clarifications == a.clarifications
  }

  /** Two consecutive committed statuses. */
  predicate Follows(a: Status, b: Status) {
    && PhaseStep(a.phase, b.phase)
    && LedgerStep(a, b)
    && (a.podName != "" ==> b.podName == a.podName)
    && (a.claimName != "" ==> b.claimName == a.claimName)
    && (a.startTime.Some? ==> b.startTime == a.startTime)
  }

  /** Recording an answer in a waiting task keeps its status well formed if and only if the answer is
      not empty, so the text of a reply must not be. */
  lemma AnswerMustHaveText(spec: Spec, st: Status, answer: string)
    requires Good(spec, st) && st.phase.WaitingForClarification?
    ensures Good(spec, st.(phase := Running, clarifications := WithAnswer(st.clarifications, answer))) <==> answer != ""
  {
    hide MaxRounds, ClaimNameOf, SplitRepository;
    var cs, n := st.clarifications, |st.clarifications| - 1;
    var answered := WithAnswer(cs, answer);
    assert answered[n].answer == answer;
    assert forall i :: 0 <= i < n ==> answered[i] == cs[..n][i] && cs[i] == cs[..n][i];
  }

  /** A writer's copy, relative to the committed status `b` that it is based on. */
  ghost predicate OpOk(spec: Spec, b: Status, op: Op) {
    var s := op.st;
    match op.stage
    case Claiming => b.phase.IsNew() && s == b && SplitRepository(spec.repository).Some?
    case Starting =>
      && b.phase.IsNew() && SplitRepository(spec.repository).Some? && s.startTime.Some?
      && s == b.(phase := Running, claimName := ClaimNameOf(spec), startTime := s.startTime)
    case AwaitingSandbox => b.phase.Running? && s == b && b.podName == ""
    case SavingPod => b.phase.Running? && b.podName == "" && s == b.(podName := s.podName)
    case FetchingToken | Executing => b.phase.Running? && s == b
    case SavingCost(q) =>
      b.phase.Running? && q != "" && b.podName != "" && s == b.(costReport := s.costReport)
    case Asking =>
      && b.phase.Running? && b.podName != "" && |s.clarifications| == |b.clarifications| + 1 <= MaxRounds(spec)
      && s.clarifications[|b.clarifications|].question != "" && s.clarifications[|b.clarifications|].answer == ""
      && s == b.(phase := WaitingForClarification, costReport := s.costReport,
                 clarifications := b.clarifications + [s.clarifications[|b.clarifications|]])
    case Completing =>
      && b.phase.Running?
      && s == b.(phase := Completed, completionTime := s.completionTime, costReport := s.costReport,
                 pullRequestURL := s.pullRequestURL)
    case Failing =>
      && !b.phase.IsTerminal() && (b.phase.IsNew() ==> SplitRepository(spec.repository).None?)
      && s == b.(phase := Failed, completionTime := s.completionTime, costReport := s.costReport)
    case Resuming =>
      && b.phase.WaitingForClarification? && s.clarifications != [] && IsResume(s)
      && s == b.(phase := Running,
                 clarifications := WithAnswer(b.clarifications, s.clarifications[|s.clarifications| - 1].answer))
    case PostingStart => s == b && b.phase.Running?
    case PostingQuestion => s == b && b.phase.WaitingForClarification?
    case PostingCompletion => s == b && b.phase.Completed?
    case PostingFailure => s == b && b.phase.Failed? && SplitRepository(spec.repository).Some?
    case Releasing => s == b && b.phase.IsTerminal() && b.claimName != ""
    case Finished => true
  }

  ghost predicate Inv(ts: TaskState) {
    && |ts.hist| > 0 && |ts.commits| == |ts.hist|
    && IsInitial(ts.hist[0])
    && (forall i :: 0 <= i < |ts.hist| ==> Good(ts.spec, ts.hist[i]))
    && (forall i :: 0 < i < |ts.hist| ==> Follows(ts.hist[i - 1], ts.hist[i]))
    && (forall k :: 0 <= k < |ts.ops| ==>
          ts.ops[k].version < |ts.hist| && OpOk(ts.spec, ts.hist[ts.ops[k].version], ts.ops[k]))
  }

  lemma WriterBase(ts: TaskState, k: nat)
    requires Inv(ts) && k < |ts.ops|
    ensures |ts.hist| > 0
    ensures var op := ts.ops[k];
            op.version < |ts.hist| && Good(ts.spec, ts.hist[op.version]) && OpOk(ts.spec, ts.hist[op.version], op)
  {
    hide Good, OpOk, Follows, IsInitial;
  }

  /** What a writer is about to store follows what it is based on. */
  lemma WriteFollows(spec: Spec, b: Status, op: Op)
    requires Good(spec, b) && OpOk(spec, b, op) && IsWrite(op.stage) && op.st != b
    ensures Good(spec, op.st) && Follows(b, op.st)
  {
    hide MaxRounds, ClaimNameOf, SplitRepository;
    if op.stage.Asking? {
      AskFollows(spec, b, op);
    } else if op.stage.Resuming? {
      ResumeFollows(spec, b, op);
    } else {
      assert op.st.clarifications == b.clarifications;
    }
  }

  lemma AskFollows(spec: Spec, b: Status, op: Op)
    requires Good(spec, b) && OpOk(spec, b, op) && op.stage.Asking?
    ensures Good(spec, op.st) && Follows(b, op.st)
  {
    hide MaxRounds, ClaimNameOf, SplitRepository, AllAnswered, LastOpen;
    var cs, n := op.st.clarifications, |b.clarifications|;
    assert cs[..n] == b.clarifications;
    AskedLedger(cs);
  }

  lemma AskedLedger(cs: seq<Exchange>)
    requires cs != [] && cs[|cs| - 1].answer == "" && AllAnswered(cs[..|cs| - 1])
    ensures LastOpen(cs)
  {
  }

  lemma ResumeFollows(spec: Spec, b: Status, op: Op)
    requires Good(spec, b) && OpOk(spec, b, op) && op.stage.Resuming?
    ensures Good(spec, op.st) && Follows(b, op.st)
  {
    hide MaxRounds, ClaimNameOf, SplitRepository;
    var n := |b.clarifications|;
    assert op.st.clarifications[..n - 1] == b.clarifications[..n - 1];
  }

  /** After its write a writer fits the status it is now based on. */
  lemma AfterWriteOk(spec: Spec, b: Status, op: Op, ok: bool, now: int)
    requires Good(spec, b) && OpOk(spec, b, op) && IsWrite(op.stage)
    ensures OpOk(spec, if ok then op.st else b, AfterWrite(spec, op, ok, now))
  {
    hide ClaimNameOf, SplitRepository;
  }

  lemma AfterRunOk(spec: Spec, b: Status, op: Op, r: Response, now: int)
    requires op.stage.Executing? && OpOk(spec, b, op) && Fits(spec, op, r)
    ensures OpOk(spec, b, AfterRun(op, r.cr, r.text, r.failed, now))
  {
    NoMarkerNoQuestion();
    hide ClaimNameOf, SplitRepository, Accumulate, PullRequestURL, Contains, Clarification;
  }

  lemma AfterCallOk(spec: Spec, b: Status, op: Op, r: Response, now: int)
    requires Good(spec, b) && OpOk(spec, b, op) && Fits(spec, op, r) && !IsWrite(op.stage)
    ensures OpOk(spec, b, AfterCall(spec, op, r, now))
  {
    hide ClaimNameOf, SplitRepository, AfterRun, MaxRounds;
    if r.Ran? {
      AfterRunOk(spec, b, op, r, now);
    } else if op.stage.PostingCompletion? {
      ClaimNameNotEmpty(spec);
    }
  }

  lemma ClaimNameNotEmpty(spec: Spec)
    requires SplitRepository(spec.repository).Some?
    ensures ClaimNameOf(spec) != ""
  {
    var parts := SplitRepository(spec.repository).value;
    ClaimNames.NameIsLabel(parts.0, parts.1, spec.issue);
  }

  lemma NoMarkerNoQuestion()
    ensures Clarification("") == ""
  {
    hide Index, TrimSpace, Cut;
    QuestionShape("");
  }

  lemma NewOpOk(ts: TaskState, a: Action)
    requires Inv(ts) && (a.Read? || a.Hear?) && Enabled(ts, a)
    ensures NewOp(ts, a).version == a.version && OpOk(ts.spec, ts.hist[a.version], NewOp(ts, a))
  {
    hide ClaimNameOf, SplitRepository, Good, Follows, OpOk, IsInitial, Dispatch, WithAnswer;
    assert Good(ts.spec, ts.hist[a.version]);
    if a.Read? {
      DispatchOk(ts.spec, a.version, ts.hist[a.version], a.now);
    } else {
      HearOk(ts.spec, a.version, ts.hist[a.version], a.answer);
    }
  }

  lemma DispatchOk(spec: Spec, v: nat, st: Status, now: int)
    requires Good(spec, st)
    ensures var op := Dispatch(spec, Op(v, st, Finished, None), now); op.version == v && OpOk(spec, st, op)
  {
    hide ClaimNameOf, SplitRepository, MaxRounds;
  }

  lemma HearOk(spec: Spec, v: nat, st: Status, answer: string)
    requires Good(spec, st) && st.phase.WaitingForClarification? && answer != ""
    ensures OpOk(spec, st, Op(v, st.(phase := Running, clarifications := WithAnswer(st.clarifications, answer)),
            Resuming, None))
  {
    hide ClaimNameOf, SplitRepository, MaxRounds;
  }

  lemma WriteKeepsInv(ts: TaskState, k: nat, outcome: Outcome, now: int)
    requires Inv(ts) && k < |ts.ops| && IsWrite(ts.ops[k].stage)
    requires Applies(outcome) ==> ts.ops[k].version + 1 == |ts.hist|
    ensures Inv(StepWrite(ts, k, outcome, now))
  {
    hide Good, Follows, OpOk, IsInitial;
    var op := ts.ops[k];
    var b := ts.hist[op.version];
    AfterWriteOk(ts.spec, b, op, outcome.Stored?, now);
    if op.st != b {
      WriteFollows(ts.spec, b, op);
    }
    VersionIrrelevant(ts.spec, if outcome.Stored? then op.st else b, AfterWrite(ts.spec, op, outcome.Stored?, now));
    hide AfterWrite;
  }

  lemma VersionIrrelevant(spec: Spec, b: Status, op: Op)
    ensures forall v :: OpOk(spec, b, op) ==> OpOk(spec, b, op.(version := v))
  {
  }

  lemma ReplacingKeepsInv(ts: TaskState, k: nat, op': Op)
    requires Inv(ts) && k < |ts.ops| && op'.version == ts.ops[k].version
    requires OpOk(ts.spec, ts.hist[op'.version], op')
    ensures Inv(ts.(ops := ts.ops[k := op']))
  {
    hide Good, Follows, OpOk, IsInitial;
  }

  lemma LogsKeepInv(ts: TaskState, ts': TaskState)
    requires Inv(ts) && ts' == ts.(execs := ts'.execs, comments := ts'.comments)
    ensures Inv(ts')
  {
    hide Good, Follows, OpOk, IsInitial;
  }

  lemma CallKeepsInv(ts: TaskState, k: nat, r: Response, now: int)
    requires Inv(ts) && k < |ts.ops| && Fits(ts.spec, ts.ops[k], r) && !IsWrite(ts.ops[k].stage)
    ensures Inv(StepCall(ts, k, r, now))
  {
    hide Good, Follows, OpOk, IsInitial, AfterCall, Fits, IsResume, KindOf, IsPost;
    var op := ts.ops[k];
    AfterCallOk(ts.spec, ts.hist[op.version], op, r, now);
    CallKeepsVersion(ts.spec, op, r, now);
    ReplacingKeepsInv(ts, k, AfterCall(ts.spec, op, r, now));
    hide Inv;
    LogsKeepInv(ts.(ops := ts.ops[k := AfterCall(ts.spec, op, r, now)]), StepCall(ts, k, r, now));
  }

  /** A write is answered by its outcome. */
  lemma WritesAreWritten(spec: Spec, op: Op, r: Response)
    requires Fits(spec, op, r) && IsWrite(op.stage)
    ensures r.Wrote?
  {
  }

  lemma CallKeepsVersion(spec: Spec, op: Op, r: Response, now: int)
    requires Fits(spec, op, r) && !IsWrite(op.stage)
    ensures AfterCall(spec, op, r, now).version == op.version
  {
  }

  lemma StepKeepsInv(ts: TaskState, a: Action)
    requires Inv(ts)
    ensures Inv(Step(ts, a))
  {
    hide Good, Follows, OpOk, IsInitial, StepWrite, StepCall;
    if Enabled(ts, a) {
      match a
      case Answer(k, r, now) =>
        if IsWrite(ts.ops[k].stage) {
          WriteKeepsInv(ts, k, r.outcome, now);
        } else {
          CallKeepsInv(ts, k, r, now);
        }
      case Crash(k) => CrashOk(ts.spec, ts.hist[ts.ops[k].version], ts.ops[k]);
      case _ => NewOpOk(ts, a);
    }
  }

  lemma CrashOk(spec: Spec, b: Status, op: Op)
    ensures OpOk(spec, b, op.(stage := Finished))
  {
  }

  lemma {:induction false} RunKeepsInv(ts: TaskState, acts: seq<Action>)
    requires Inv(ts)
    ensures Inv(Run(ts, acts))
  {
    assert |ts.hist| > 0;
    hide Inv, Step;
    if acts != [] {
      var before := acts[..|acts| - 1];
      RunKeepsInv(ts, before);
      StepKeepsInv(Run(ts, before), acts[|acts| - 1]);
    }
  }

  lemma FreshInv(ts: TaskState)
    requires IsFresh(ts)
    ensures Inv(ts)
  {
    hide ClaimNameOf, SplitRepository, MaxRounds, OpOk, Follows;
  }

  lemma ReachableInv(ts: TaskState)
    requires Reachable(ts)
    ensures Inv(ts)
  {
    hide Inv;
    var ts0, acts :| IsFresh(ts0) && Run(ts0, acts) == ts;
    FreshInv(ts0);
    RunKeepsInv(ts0, acts);
  }

  lemma FreshReachable(ts: TaskState)
    requires IsFresh(ts)
    ensures Reachable(ts)
  {
    assert Run(ts, []) == ts;
  }

  lemma ReachableStep(ts: TaskState, a: Action)
    requires Reachable(ts)
    ensures |ts.hist| > 0 && Reachable(Step(ts, a))
  {
    var ts0, acts :| IsFresh(ts0) && Run(ts0, acts) == ts;
    hide Step;
    assert (acts + [a])[..|acts|] == acts;
    assert Run(ts0, acts + [a]) == Step(ts, a);
  }

  /** What is not about writer `me` leaves it alone. */
  lemma OthersKeepWriter(ts: TaskState, a: Action, me: nat)
    requires |ts.hist| > 0 && me < |ts.ops| && !(a.Answer? && a.op == me) && !(a.Crash? && a.op == me)
    ensures var ts' := Step(ts, a); ts'.spec == ts.spec && me < |ts'.ops| && ts'.ops[me] == ts.ops[me]
  {
    hide AfterWrite, AfterCall, NewOp, Fits;
  }

  lemma {:induction false} ReachableRun(ts: TaskState, acts: seq<Action>)
    requires Reachable(ts) && |ts.hist| > 0
    ensures Reachable(Run(ts, acts)) && Run(ts, acts).spec == ts.spec && ts.hist <= Run(ts, acts).hist
  {
    hide Reachable, Step;
    if acts != [] {
      var before := acts[..|acts| - 1];
      ReachableRun(ts, before);
      ReachableStep(Run(ts, before), acts[|acts| - 1]);
      HistoryGrows(Run(ts, before), acts[|acts| - 1]);
    }
  }

  // ---------- consequences over whole histories ----------

  /** A committed status is never lost or changed. */
  lemma HistoryGrows(ts: TaskState, a: Action)
    requires |ts.hist| > 0
    ensures ts.hist <= Step(ts, a).hist && ts.spec == Step(ts, a).spec
  {
    hide AfterWrite, AfterCall;
  }

  /** Every committed write is an edge of the lifecycle, and a terminal phase is never left. */
  lemma AllowedTransitions(ts: TaskState)
    requires Reachable(ts)
    ensures forall i :: 0 < i < |ts.hist| ==> PhaseStep(ts.hist[i - 1].phase, ts.hist[i].phase)
    ensures forall i :: 0 <= i < |ts.hist| - 1 ==> !ts.hist[i].phase.IsTerminal()
    ensures forall i :: 0 < i < |ts.hist| ==> !ts.hist[i].phase.IsNew()
  {
    ReachableInv(ts);
    hide Good, OpOk;
    forall i | 0 <= i < |ts.hist| - 1 ensures !ts.hist[i].phase.IsTerminal() {
      assert Follows(ts.hist[i + 1 - 1], ts.hist[i + 1]);
    }
    forall i | 0 < i < |ts.hist| ensures !ts.hist[i].phase.IsNew() {
      assert Follows(ts.hist[i - 1], ts.hist[i]);
    }
  }

  ghost predicate History(spec: Spec, hist: seq<Status>) {
    && hist != [] && IsInitial(hist[0])
    && (forall n :: 0 <= n < |hist| ==> Good(spec, hist[n]))
    && (forall n :: 0 < n < |hist| ==> Follows(hist[n - 1], hist[n]))
  }

  lemma HistoryAt(spec: Spec, hist: seq<Status>, j: nat)
    requires History(spec, hist) && 0 < j < |hist|
    ensures History(spec, hist[..j])
    ensures Good(spec, hist[j - 1]) && Good(spec, hist[j]) && Follows(hist[j - 1], hist[j])
  {
    hide Good, Follows, IsInitial;
  }

  lemma InvHistory(ts: TaskState)
    requires Inv(ts)
    ensures History(ts.spec, ts.hist)
  {
    hide Good, Follows, IsInitial, OpOk;
  }

  /** Committed writes that change the phase. */
  function PhaseChanges(hist: seq<Status>): nat {
    if |hist| <= 1 then 0
    else PhaseChanges(hist[..|hist| - 1])
         + (if hist[|hist| - 1].phase != hist[|hist| - 2].phase then 1 else 0)
  }

  /** Phase changes that are still possible. */
  ghost function Potential(spec: Spec, st: Status): int {
    var open := 2 * (MaxRounds(spec) - |st.clarifications|);
    match st.phase
    case Unset | Pending => open + 2
    case Running => open + 1
    case WaitingForClarification => open + 2
    case _ => 0
  }

  lemma PotentialStep(spec: Spec, a: Status, b: Status)
    requires Good(spec, a) && Good(spec, b) && Follows(a, b)
    ensures Potential(spec, b) + (if a.phase != b.phase then 1 else 0) <= Potential(spec, a)
  {
    hide MaxRounds, ClaimNameOf, SplitRepository;
  }

  lemma {:induction false} PotentialFalls(spec: Spec, hist: seq<Status>)
    requires History(spec, hist)
    ensures hist != [] && PhaseChanges(hist) + Potential(spec, hist[|hist| - 1]) <= 2 * MaxRounds(spec) + 2
  {
    FirstPotential(spec, hist);
    hide History, Good, Follows, Potential, MaxRounds;
    var n := |hist| - 1;
    if n > 0 {
      HistoryAt(spec, hist, n);
      PotentialFalls(spec, hist[..n]);
      PotentialStep(spec, hist[n - 1], hist[n]);
    }
  }

  lemma FirstPotential(spec: Spec, hist: seq<Status>)
    requires History(spec, hist)
    ensures hist != [] && Potential(spec, hist[0]) == 2 * MaxRounds(spec) + 2
  {
    hide Good, Follows, MaxRounds;
  }

  /** At most two phase changes per round of clarification, one start and one end. */
  lemma PhaseChangesBounded(ts: TaskState)
    requires Reachable(ts)
    ensures PhaseChanges(ts.hist) <= 2 * MaxRounds(ts.spec) + 2
  {
    hide Reachable, Follows, MaxRounds, ClaimNameOf, SplitRepository;
    ReachableInv(ts);
    InvHistory(ts);
    PotentialFalls(ts.spec, ts.hist);
    assert Good(ts.spec, ts.hist[|ts.hist| - 1]);
  }

  /** `b` extends the ledger of `a`: no question and no recorded answer changes. */
  ghost predicate LedgerExtends(a: seq<Exchange>, b: seq<Exchange>) {
    && |a| <= |b|
    && forall n :: 0 <= n < |a| ==> b[n].question == a[n].question && (a[n].answer != "" ==> b[n] == a[n])
  }

  lemma LedgerStepExtends(spec: Spec, a: Status, b: Status)
    requires Good(spec, a) && Follows(a, b)
    ensures LedgerExtends(a.clarifications, b.clarifications)
  {
    hide ClaimNameOf, SplitRepository, MaxRounds;
    if a.phase.Running? && b.phase.WaitingForClarification? {
      assert forall n :: 0 <= n < |a.clarifications| ==>
             b.clarifications[n] == b.clarifications[..|a.clarifications|][n];
    }
  }

  lemma ExtendsTransitive(a: seq<Exchange>, b: seq<Exchange>, c: seq<Exchange>)
    requires LedgerExtends(a, b) && LedgerExtends(b, c)
    ensures LedgerExtends(a, c)
  {
  }

  lemma LedgerExtendsItself(a: seq<Exchange>)
    ensures LedgerExtends(a, a)
  {
  }

  lemma {:induction false} LedgerAppendOnly(spec: Spec, hist: seq<Status>, i: nat, j: nat)
    requires i <= j < |hist| && History(spec, hist)
    ensures LedgerExtends(hist[i].clarifications, hist[j].clarifications)
    decreases j
  {
    hide History, Good, Follows, LedgerExtends;
    LedgerExtendsItself(hist[i].clarifications);
    if i < j {
      LedgerAppendOnly(spec, hist, i, j - 1);
      HistoryAt(spec, hist, j);
      LedgerStepExtends(spec, hist[j - 1], hist[j]);
      ExtendsTransitive(hist[i].clarifications, hist[j - 1].clarifications, hist[j].clarifications);
    }
  }

  /** The question and answer ledger of every reachable task: append-only over its whole history,
      bounded, and its open entry is there exactly while the task waits. */
  lemma QuestionLedger(ts: TaskState)
    requires Reachable(ts)
    ensures forall i, j :: 0 <= i <= j < |ts.hist| ==>
              LedgerExtends(ts.hist[i].clarifications, ts.hist[j].clarifications)
    ensures forall i :: 0 <= i < |ts.hist| ==>
              var st := ts.hist[i];
              && |st.clarifications| <= MaxRounds(ts.spec)
              && (forall n :: 0 <= n < |st.clarifications| ==> st.clarifications[n].question != "")
              && (st.phase.WaitingForClarification? ==> LastOpen(st.clarifications))
              && (st.phase.Running? || st.phase.Completed? ==> AllAnswered(st.clarifications))
  {
    ReachableInv(ts);
    InvHistory(ts);
    forall i, j | 0 <= i <= j < |ts.hist|
      ensures LedgerExtends(ts.hist[i].clarifications, ts.hist[j].clarifications)
    {
      LedgerAppendOnly(ts.spec, ts.hist, i, j);
    }
    assert forall i :: 0 <= i < |ts.hist| ==> Good(ts.spec, ts.hist[i]);
    hide LedgerExtends;
  }

  /** Version `i` records an answer. */
  predicate Resumes(hist: seq<Status>, i: int) {
    0 < i < |hist| && hist[i - 1].phase.WaitingForClarification? && hist[i].phase.Running?
  }

  /** `b` is `a` with its open last entry answered. */
  predicate Fills(a: seq<Exchange>, b: seq<Exchange>) {
    && LastOpen(a) && AllAnswered(b) && b != []
    && b[|b| - 1].answer != "" && b == WithAnswer(a, b[|b| - 1].answer)
  }

  lemma ResumeFills(spec: Spec, hist: seq<Status>, u: nat)
    requires History(spec, hist) && Resumes(hist, u)
    ensures Fills(hist[u - 1].clarifications, hist[u].clarifications)
  {
    HistoryAt(spec, hist, u);
    hide History, ClaimNameOf, SplitRepository, MaxRounds;
  }

  /** An answered ledger that grew to one with an open last entry grew by at least that entry. */
  lemma OpenIsNew(a: seq<Exchange>, b: seq<Exchange>)
    requires LedgerExtends(a, b) && AllAnswered(a) && LastOpen(b)
    ensures |a| < |b|
  {
  }

  lemma LaterQuestion(spec: Spec, hist: seq<Status>, u: nat, v: nat)
    requires History(spec, hist) && Resumes(hist, u) && Resumes(hist, v) && u < v
    ensures |hist[u].clarifications| < |hist[v].clarifications|
  {
    hide History, LedgerExtends, AllAnswered, LastOpen;
    ResumeFills(spec, hist, u);
    ResumeFills(spec, hist, v);
    LedgerAppendOnly(spec, hist, u, v - 1);
    OpenIsNew(hist[u].clarifications, hist[v - 1].clarifications);
  }

  /** Of any number of replies to one pending question at most one is recorded: a commit that
      records an answer fills the open entry, and two of them always answer different questions,
      the later one a later question. */
  lemma OneAnswerPerQuestion(ts: TaskState)
    requires Reachable(ts)
    ensures forall u :: Resumes(ts.hist, u) ==> Fills(ts.hist[u - 1].clarifications, ts.hist[u].clarifications)
    ensures forall u, v :: Resumes(ts.hist, u) && Resumes(ts.hist, v) && u < v ==>
              |ts.hist[u].clarifications| < |ts.hist[v].clarifications|
  {
    ReachableInv(ts);
    InvHistory(ts);
    hide Reachable, Inv, Fills, History;
    forall u | Resumes(ts.hist, u) ensures Fills(ts.hist[u - 1].clarifications, ts.hist[u].clarifications) {
      ResumeFills(ts.spec, ts.hist, u);
    }
    forall u, v | Resumes(ts.hist, u) && Resumes(ts.hist, v) && u < v
      ensures |ts.hist[u].clarifications| < |ts.hist[v].clarifications|
    {
      LaterQuestion(ts.spec, ts.hist, u, v);
    }
  }

  predicate Keeps(a: Status, b: Status) {
    && (a.podName != "" ==> b.podName == a.podName)
    && (a.claimName != "" ==> b.claimName == a.claimName)
    && (a.startTime.Some? ==> b.startTime == a.startTime)
  }

  lemma {:induction false} IdentityKept(hist: seq<Status>, i: nat, j: nat)
    requires i <= j < |hist|
    requires forall n :: 0 < n < |hist| ==> Follows(hist[n - 1], hist[n])
    ensures Keeps(hist[i], hist[j])
    decreases j
  {
    if i < j {
      IdentityKept(hist, i, j - 1);
      assert Follows(hist[j - 1], hist[j]);
    }
  }

  /** The pod, the claim and the start time of a task never change once set. A live task always has
      the start time that the 24 hour limit needs and a non-empty claim name, so the branch of
      reconcileRunning for a missing name is never taken. */
  lemma IdentityFixed(ts: TaskState)
    requires Reachable(ts)
    ensures forall i, j :: 0 <= i <= j < |ts.hist| ==> Keeps(ts.hist[i], ts.hist[j])
    ensures forall i :: 0 <= i < |ts.hist| && ts.hist[i].phase.IsLive() ==>
              && ts.hist[i].startTime.Some?
              && SplitRepository(ts.spec.repository).Some?
              && ts.hist[i].claimName == ClaimNameOf(ts.spec) != ""
  {
    ReachableInv(ts);
    forall i, j | 0 <= i <= j < |ts.hist| ensures Keeps(ts.hist[i], ts.hist[j]) {
      IdentityKept(ts.hist, i, j);
    }
    hide ClaimNameOf, SplitRepository, Follows;
    forall i | 0 <= i < |ts.hist| && ts.hist[i].phase.IsLive()
      ensures ts.hist[i].startTime.Some? && SplitRepository(ts.spec.repository).Some?
              && ts.hist[i].claimName == ClaimNameOf(ts.spec) != ""
    {
      assert Good(ts.spec, ts.hist[i]);
      ClaimNameNotEmpty(ts.spec);
    }
  }
}
