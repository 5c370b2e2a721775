/** internal/controller/claudetask_controller.go and ResumeClarification in cmd/main.go: the writers
    of one task's status, as a state machine over their calls to the outside. Any number of
    reconciles and webhook resumes are in flight; each works on a possibly stale copy. */
module Protocol {
  import opened Text
  import opened Options
  import opened ClaudeOutput
  import opened Cost
  import opened Markers
  import opened Tasks

  /** The call that a writer is waiting for. */
  datatype Stage =
    | Claiming                      // CreateClaim
    | Starting                      // write Running
    | PostingStart                  // start comment
    | AwaitingSandbox               // WaitForReady
    | SavingPod                     // write the pod name
    | FetchingToken                 // GetCloneToken
    | Executing                     // exec in the pod
    | SavingCost(question: string)  // write the cost; a failure is logged and ignored
    | Asking                        // write WaitingForClarification
    | PostingQuestion
    | Completing                    // write Completed
    | PostingCompletion
    | Failing                       // write Failed
    | PostingFailure
    | Releasing                     // DeleteClaim
    | Resuming                      // the webhook's write of Running
    | Finished

  /** A writer: the version it read or last wrote, its copy of the status, the call it waits for,
      and the result of the run it made, if any. */
  datatype Op = Op(version: nat, st: Status, stage: Stage, ran: Option<ClaudeResult>)

  /** The three outcomes of a status write. */
  datatype Outcome =
    | Stored        // committed and reported
    | StoredUnseen  // committed but reported as an error
    | Refused

  datatype Response =
    | Wrote(outcome: Outcome)
    | Created
    | AlreadyExists
    | ClaimError(applied: bool)
    | Posted(shown: bool)
    | Sandbox(pod: Option<string>)
    | Token(ok: bool)
    | Ran(cr: ClaudeResult, text: string, failed: bool)
    | Deleted(applied: bool)

  /** Who committed a version; `billed` when that was after the run's cost was added. */
  datatype Commit = Commit(op: int, billed: Option<ClaudeResult>)

  datatype Exec = Exec(op: nat, pod: string, resume: bool)

  datatype CommentKind = StartComment | QuestionComment(round: nat) | CompletionComment | FailureComment

  datatype Comment = Comment(op: nat, version: nat, kind: CommentKind)

  /** One task: its committed statuses in order (the index is the resourceVersion), who committed
      each, its writers, and logs of what was executed and posted for it. */
  datatype TaskState = TaskState(
    spec: Spec,
    hist: seq<Status>,
    commits: seq<Commit>,
    ops: seq<Op>,
    execs: seq<Exec>,
    comments: seq<Comment>)

  datatype Action =
    | Read(version: nat, now: int)                  // a reconcile starts from some version
    | Hear(version: nat, answer: string)            // a webhook found the task waiting
    | Answer(op: nat, response: Response, now: int) // the outside answers a writer's call
    | Crash(op: nat)

  // ---------- what a writer does next ----------

  predicate IsWrite(stage: Stage) {
    stage.Starting? || stage.SavingPod? || stage.SavingCost? || stage.Asking? || stage.Completing?
    || stage.Failing? || stage.Resuming?
  }

  predicate IsPost(stage: Stage) {
    stage.PostingStart? || stage.PostingQuestion? || stage.PostingCompletion? || stage.PostingFailure?
  }

  /** failTask up to its write. */
  function Fail(op: Op, now: int): Op {
    op.(st := op.st.(phase := Failed, completionTime := Some(now)), stage := Failing)
  }

  function Go(op: Op, stage: Stage): Op {
    op.(stage := stage)
  }

  /** Reconcile up to the first call. */
  function Dispatch(spec: Spec, op: Op, now: int): Op {
    match op.st.phase
    case Unset | Pending =>
      if SplitRepository(spec.repository).None? then Fail(op, now) else Go(op, Claiming)
    case Running =>
      if op.st.claimName == "" || SplitRepository(spec.repository).None? then Fail(op, now)
      else if op.st.podName == "" then Go(op, AwaitingSandbox)
      else Go(op, FetchingToken)
    case WaitingForClarification =>
      if op.st.startTime.Some? && now - op.st.startTime.value > CLARIFICATION_WAIT_TIMEOUT
      then Fail(op, now) else Go(op, Finished)
    case _ => Go(op, Finished)
  }

  /** reconcileRunning from the end of the run to the next write. */
  function AfterRun(op: Op, cr: ClaudeResult, text: string, failed: bool, now: int): Op {
    var op1 := op.(st := op.st.(costReport := Some(Accumulate(op.st.costReport, cr))), ran := Some(cr));
    var question := Clarification(text);
    if question != "" then Go(op1, SavingCost(question))
    else if failed || (Contains(text, MARKER_FAILED) && !Contains(text, MARKER_COMPLETE)) then Fail(op1, now)
    else
      var url := PullRequestURL(text);
      Go(op1.(st := op1.st.(phase := Completed, completionTime := Some(now),
                            pullRequestURL := if url != "" then url else op1.st.pullRequestURL)),
         Completing)
  }

  /** handleClarification up to its write. */
  function Ask(spec: Spec, op: Op, question: string, now: int): Op {
    if |op.st.clarifications| >= MaxRounds(spec) then Fail(op, now)
    else Go(op.(st := op.st.(phase := WaitingForClarification,
                             clarifications := op.st.clarifications + [Exchange(question, "")])),
            Asking)
  }

  /** failTask after its comment: clean up only a claim that is recorded. */
  function Release(op: Op): Op {
    if op.st.claimName != "" then Go(op, Releasing) else Go(op, Finished)
  }

  function AfterWrite(spec: Spec, op: Op, ok: bool, now: int): Op
    requires IsWrite(op.stage)
  {
    match op.stage
    case SavingCost(question) => Ask(spec, op, question, now)
    case Starting => Go(op, if ok then PostingStart else Finished)
    case SavingPod => Go(op, if ok then FetchingToken else Finished)
    case Asking => Go(op, if ok then PostingQuestion else Finished)
    case Completing => Go(op, if ok then PostingCompletion else Finished)
    case Failing =>
      if !ok then Go(op, Finished)
      else if SplitRepository(spec.repository).Some? then Go(op, PostingFailure)
      else Release(op)
    case _ => Go(op, Finished)
  }

  /** Which responses a call can get. `exec` on an empty pod name fails without any text. */
  predicate Fits(spec: Spec, op: Op, r: Response) {
    match op.stage
    case Claiming => (r.Created? || r.AlreadyExists? || r.ClaimError?) && SplitRepository(spec.repository).Some?
    case AwaitingSandbox => r.Sandbox?
    case FetchingToken => r.Token?
    case Executing => r.Ran? && (op.st.podName == "" ==> r.failed && r.text == "" && r.cr == ZERO_RESULT)
    case Releasing => r.Deleted?
    case Finished => false
    case _ => if IsPost(op.stage) then r.Posted? else r.Wrote?
  }

  /** The writer after an answer that is not about a write. */
  function AfterCall(spec: Spec, op: Op, r: Response, now: int): Op
    requires Fits(spec, op, r) && !IsWrite(op.stage)
  {
    match r
    case Created | AlreadyExists =>
      Go(op.(st := op.st.(phase := Running, claimName := ClaimNameOf(spec), startTime := Some(now))), Starting)
    case ClaimError(_) => Go(op, Finished)
    case Sandbox(pod) =>
      if pod.None? then Fail(op, now) else Go(op.(st := op.st.(podName := pod.value)), SavingPod)
    case Token(ok) => if ok then Go(op, Executing) else Fail(op, now)
    case Ran(cr, text, failed) => AfterRun(op, cr, text, failed, now)
    case Posted(_) =>
      if op.stage.PostingCompletion? then Go(op, Releasing)
      else if op.stage.PostingFailure? then Release(op)
      else Go(op, Finished)
    case _ => Go(op, Finished)
  }

  /** The command of a run skips the clone when the last exchange has an answer. */
  predicate IsResume(st: Status) {
    st.clarifications != [] && st.clarifications[|st.clarifications| - 1].answer != ""
  }

  function KindOf(stage: Stage, st: Status): CommentKind
    requires IsPost(stage)
  {
    match stage
    case PostingStart => StartComment
    case PostingQuestion => QuestionComment(|st.clarifications|)
    case PostingCompletion => CompletionComment
    case _ => FailureComment
  }

  // ---------- steps of a task ----------

  predicate Applies(outcome: Outcome) {
    outcome.Stored? || outcome.StoredUnseen?
  }

  predicate Enabled(ts: TaskState, a: Action) {
    match a
    case Read(v, _) => v < |ts.hist|
    case Hear(v, answer) => v < |ts.hist| && ts.hist[v].phase.WaitingForClarification? && answer != ""
    case Answer(k, r, _) =>
      k < |ts.ops| && Fits(ts.spec, ts.ops[k], r)
      && (r.Wrote? && Applies(r.outcome) ==> ts.ops[k].version + 1 == |ts.hist|)
    case Crash(k) => k < |ts.ops|
  }

  /** A status write: compare-and-swap on the version. Like the API server, storing an equal
      status keeps the version. */
  function StepWrite(ts: TaskState, k: nat, outcome: Outcome, now: int): TaskState
    requires k < |ts.ops| && IsWrite(ts.ops[k].stage) && |ts.hist| > 0
  {
    var op := ts.ops[k];
    var changes := Applies(outcome) && op.st != ts.hist[|ts.hist| - 1];
    var hist := if changes then ts.hist + [op.st] else ts.hist;
    var commits := if changes then ts.commits + [Commit(k, op.ran)] else ts.commits;
    var version := if outcome.Stored? then |hist| - 1 else op.version;
    var op' := AfterWrite(ts.spec, op, outcome.Stored?, now).(version := version);
    ts.(hist := hist, commits := commits, ops := ts.ops[k := op'])
  }

  function StepCall(ts: TaskState, k: nat, r: Response, now: int): TaskState
    requires k < |ts.ops| && Fits(ts.spec, ts.ops[k], r) && !IsWrite(ts.ops[k].stage)
  {
    var op := ts.ops[k];
    var ops := ts.ops[k := AfterCall(ts.spec, op, r, now)];
    if r.Ran? then ts.(ops := ops, execs := ts.execs + [Exec(k, op.st.podName, IsResume(op.st))])
    else if r.Posted? && r.shown && IsPost(op.stage)
    then ts.(ops := ops, comments := ts.comments + [Comment(k, op.version, KindOf(op.stage, op.st))])
    else ts.(ops := ops)
  }

  /** The writer that `Read` or `Hear` starts. */
  function NewOp(ts: TaskState, a: Action): Op
    requires (a.Read? || a.Hear?) && Enabled(ts, a)
  {
    var st := ts.hist[a.version];
    if a.Read? then Dispatch(ts.spec, Op(a.version, st, Finished, None), a.now)
    else Op(a.version, st.(phase := Running, clarifications := WithAnswer(st.clarifications, a.answer)), Resuming, None)
  }

  function Step(ts: TaskState, a: Action): (ts': TaskState)
    requires |ts.hist| > 0
    ensures |ts'.hist| >= |ts.hist|
  {
    if !Enabled(ts, a) then ts
    else
      match a
      case Answer(k, r, now) =>
        if IsWrite(ts.ops[k].stage) then StepWrite(ts, k, r.outcome, now) else StepCall(ts, k, r, now)
      case Crash(k) => ts.(ops := ts.ops[k := ts.ops[k].(stage := Finished)])
      case _ => ts.(ops := ts.ops + [NewOp(ts, a)])
  }

  predicate IsFresh(ts: TaskState) {
    && |ts.hist| == 1 && IsInitial(ts.hist[0])
    && ts.commits == [Commit(-1, None)] && ts.ops == [] && ts.execs == [] && ts.comments == []
  }

  /** A task that was just created. */
  function NewTask(spec: Spec): (ts: TaskState)
    ensures IsFresh(ts) && ts.spec == spec
  {
    TaskState(spec, [Status(Unset, "", "", None, None, "", None, [])], [Commit(-1, None)], [], [], [])
  }

  /** The task after a sequence of actions; an action that is not enabled changes nothing. */
  function Run(ts: TaskState, acts: seq<Action>): (ts': TaskState)
    requires |ts.hist| > 0
    ensures |ts'.hist| > 0
  {
    if acts == [] then ts
    else
      var before := Run(ts, acts[..|acts| - 1]);
      Step(before, acts[|acts| - 1])
  }

  /** The states that a task can be in, under any interleaving. */
  ghost predicate Reachable(ts: TaskState) {
    exists ts0, acts :: IsFresh(ts0) && Run(ts0, acts) == ts
  }
}
