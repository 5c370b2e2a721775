/** Runs that show where a guarantee ends, for every task specification. */
module Scenarios {
  import opened Options
  import opened Tasks
  import opened Protocol
  import opened Lifecycle
  import opened ClaudeOutput
  import opened Cost
  import opened Markers
  import opened CommentOrder
  import opened Decisions
  import opened Timeouts
  import opened Sandboxes

  function StartedStatus(spec: Spec): Status
    requires SplitRepository(spec.repository).Some?
  {
    Status(Running, ClaimNameOf(spec), "", Some(0), None, "", None, [])
  }

  function FailedStatus(spec: Spec): Status
    requires SplitRepository(spec.repository).Some?
  {
    StartedStatus(spec).(phase := Failed, completionTime := Some(0))
  }

  /** The first reconcile has stored Running and is about to post the start comment. */
  function StartedTask(spec: Spec): TaskState
    requires SplitRepository(spec.repository).Some?
  {
    TaskState(spec, [NewTask(spec).hist[0], StartedStatus(spec)], [Commit(-1, None), Commit(0, None)],
              [Op(1, StartedStatus(spec), PostingStart, None)], [], [])
  }

  /** A second reconcile finds no sandbox and is about to post the failure comment. */
  function FailedTask(spec: Spec): TaskState
    requires SplitRepository(spec.repository).Some?
  {
    var ts := StartedTask(spec);
    ts.(hist := ts.hist + [FailedStatus(spec)], commits := ts.commits + [Commit(1, None)],
        ops := ts.ops + [Op(2, FailedStatus(spec), PostingFailure, None)])
  }

  lemma Starts(spec: Spec, r: Response)
    requires SplitRepository(spec.repository).Some? && (r.Created? || r.AlreadyExists?)
    ensures Step(Step(Step(NewTask(spec), Read(0, 0)), Answer(0, r, 0)), Answer(0, Wrote(Stored), 0))
            == StartedTask(spec)
    ensures var s1 := Step(NewTask(spec), Read(0, 0));
            s1.spec == spec && Enabled(s1, Answer(0, r, 0)) && Step(s1, Answer(0, r, 0)).spec == spec
  {
    hide SplitRepository, ClaimNameOf;
    var s1 := Step(NewTask(spec), Read(0, 0));
    assert s1 == NewTask(spec).(ops := [Op(0, NewTask(spec).hist[0], Claiming, None)]);
    var s2 := Step(s1, Answer(0, r, 0));
    assert s2 == StartingTask(spec);
    hide Step;
    StartStored(spec);
  }

  function StartingTask(spec: Spec): TaskState
    requires SplitRepository(spec.repository).Some?
  {
    NewTask(spec).(ops := [Op(0, StartedStatus(spec), Starting, None)])
  }

  lemma StartStored(spec: Spec)
    requires SplitRepository(spec.repository).Some?
    ensures Step(StartingTask(spec), Answer(0, Wrote(Stored), 0)) == StartedTask(spec)
  {
    hide SplitRepository, ClaimNameOf;
  }

  lemma Fails(spec: Spec)
    requires SplitRepository(spec.repository).Some?
    ensures Step(Step(Step(StartedTask(spec), Read(1, 0)), Answer(1, Sandbox(None), 0)), Answer(1, Wrote(Stored), 0))
            == FailedTask(spec)
  {
    ClaimNameNotEmpty(spec);
    hide SplitRepository, ClaimNameOf;
    var ts := StartedTask(spec);
    var s1 := Step(ts, Read(1, 0));
    assert s1 == ts.(ops := ts.ops + [Op(1, StartedStatus(spec), AwaitingSandbox, None)]);
    var s2 := Step(s1, Answer(1, Sandbox(None), 0));
    assert s2 == ts.(ops := ts.ops + [Op(1, FailedStatus(spec), Failing, None)]);
  }

  /** After the failure comment the claim is deleted. */
  lemma Releases(spec: Spec)
    requires SplitRepository(spec.repository).Some?
    ensures var ts := Step(FailedTask(spec), Answer(1, Posted(true), 0));
            && ts.spec == spec && Enabled(ts, Answer(1, Deleted(true), 0))
            && ts.ops == [StartedTask(spec).ops[0], Op(2, FailedStatus(spec), Releasing, None)]
            && ts.comments == [Comment(1, 2, FailureComment)]
  {
    ClaimNameNotEmpty(spec);
    hide SplitRepository, ClaimNameOf;
  }

  lemma StartedReachable(spec: Spec)
    requires SplitRepository(spec.repository).Some?
    ensures Reachable(StartedTask(spec))
  {
    Starts(spec, Created);
    FreshReachable(NewTask(spec));
    hide Step, Reachable, SplitRepository, ClaimNameOf, NewTask, IsFresh;
    var s0 := NewTask(spec);
    ReachableStep(s0, Read(0, 0));
    var s1 := Step(s0, Read(0, 0));
    ReachableStep(s1, Answer(0, Created, 0));
    ReachableStep(Step(s1, Answer(0, Created, 0)), Answer(0, Wrote(Stored), 0));
  }

  /** With two reconciles of one task in flight the order of comments can be lost: the first is
      delayed between storing Running and posting the start comment. */
  lemma OrderCanBeLost(spec: Spec) returns (ts: TaskState)
    requires SplitRepository(spec.repository).Some?
    ensures Reachable(ts) && ts.spec == spec && !InOrder(ts.comments)
    ensures ts.comments == [Comment(1, 2, FailureComment), Comment(0, 1, StartComment)]
  {
    StartedReachable(spec);
    hide Reachable, InOrder, Run, Overtaking;
    var started := StartedTask(spec);
    OvertakingLosesOrder(started, 0);
    ReachableRun(started, Overtaking(started, 0));
    ts := Run(started, Overtaking(started, 0));
  }

  // ---------- a question that is asked too late ----------

  function LateMoment(): int {
    CLARIFICATION_WAIT_TIMEOUT + 1
  }

  /** A second reconcile, after more than 24 hours, has found the sandbox. */
  function ReadyTask(spec: Spec): TaskState
    requires SplitRepository(spec.repository).Some?
  {
    var ts, st := StartedTask(spec), StartedStatus(spec).(podName := "pod");
    ts.(hist := ts.hist + [st], commits := ts.commits + [Commit(1, None)], ops := ts.ops + [Op(2, st, Executing, None)])
  }

  /** It has run Claude, saved the cost and is about to store the question. */
  function AskingTask(spec: Spec, text: string, cr: ClaudeResult): TaskState
    requires SplitRepository(spec.repository).Some?
  {
    var ts, st := ReadyTask(spec), StartedStatus(spec).(podName := "pod", costReport := Some(Accumulate(None, cr)));
    var asked := st.(phase := WaitingForClarification, clarifications := [Exchange(Clarification(text), "")]);
    ts.(hist := ts.hist + [st], commits := ts.commits + [Commit(1, Some(cr))],
        ops := [ts.ops[0], Op(3, asked, Asking, Some(cr))], execs := [Exec(1, "pod", false)])
  }

  lemma GetsReady(spec: Spec)
    requires SplitRepository(spec.repository).Some?
    ensures var t := LateMoment();
            Step(Step(Step(Step(StartedTask(spec), Read(1, t)), Answer(1, Sandbox(Some("pod")), t)),
                      Answer(1, Wrote(Stored), t)), Answer(1, Token(true), t)) == ReadyTask(spec)
  {
    ClaimNameNotEmpty(spec);
    hide SplitRepository, ClaimNameOf;
    PodStored(spec);
    var t, ts, st := LateMoment(), StartedTask(spec), StartedStatus(spec);
    var s1 := Step(ts, Read(1, t));
    assert s1 == ts.(ops := ts.ops + [Op(1, st, AwaitingSandbox, None)]);
    var s2 := Step(s1, Answer(1, Sandbox(Some("pod")), t));
    assert s2 == ts.(ops := ts.ops + [Op(1, st.(podName := "pod"), SavingPod, None)]);
    hide Step;
  }

  lemma PodStored(spec: Spec)
    requires SplitRepository(spec.repository).Some?
    ensures var t, ts, st := LateMoment(), StartedTask(spec), StartedStatus(spec).(podName := "pod");
            Step(Step(ts.(ops := ts.ops + [Op(1, st, SavingPod, None)]), Answer(1, Wrote(Stored), t)),
                Answer(1, Token(true), t))
              == ReadyTask(spec)
  {
    hide SplitRepository, ClaimNameOf;
    var t, ts, st := LateMoment(), StartedTask(spec), StartedStatus(spec).(podName := "pod");
    var s3 := Step(ts.(ops := ts.ops + [Op(1, st, SavingPod, None)]), Answer(1, Wrote(Stored), t));
    assert s3 == ReadyTask(spec).(ops := ts.ops + [Op(2, st, FetchingToken, None)]);
  }

  lemma GetsToAsk(spec: Spec, text: string, cr: ClaudeResult)
    requires SplitRepository(spec.repository).Some? && Clarification(text) != ""
    ensures var t := LateMoment();
            Step(Step(ReadyTask(spec), Answer(1, Ran(cr, text, false), t)), Answer(1, Wrote(Stored), t))
                == AskingTask(spec, text, cr)
  {
    hide SplitRepository, ClaimNameOf, Clarification, Accumulate, MaxRounds;
    var t, ts := LateMoment(), ReadyTask(spec);
    var st := StartedStatus(spec).(podName := "pod", costReport := Some(Accumulate(None, cr)));
    var s1 := Step(ts, Answer(1, Ran(cr, text, false), t));
    assert s1 == ts.(ops := [ts.ops[0], Op(2, st, SavingCost(Clarification(text)), Some(cr))],
           execs := [Exec(1, "pod", false)]);
    assert MaxRounds(spec) > 0 && [] + [Exchange(Clarification(text), "")] == [Exchange(Clarification(text), "")];
    var s2 := Step(s1, Answer(1, Wrote(Stored), t));
    assert s2.hist == AskingTask(spec, text, cr).hist;
    assert s2.ops == AskingTask(spec, text, cr).ops;
  }

  lemma ReadyReachable(spec: Spec)
    requires SplitRepository(spec.repository).Some?
    ensures Reachable(ReadyTask(spec))
  {
    StartedReachable(spec);
    GetsReady(spec);
    hide Step, Reachable, SplitRepository, ClaimNameOf;
    var t, s0 := LateMoment(), StartedTask(spec);
    ReachableStep(s0, Read(1, t));
    var s1 := Step(s0, Read(1, t));
    ReachableStep(s1, Answer(1, Sandbox(Some("pod")), t));
    var s2 := Step(s1, Answer(1, Sandbox(Some("pod")), t));
    ReachableStep(s2, Answer(1, Wrote(Stored), t));
    ReachableStep(Step(s2, Answer(1, Wrote(Stored), t)), Answer(1, Token(true), t));
  }

  /** The limit is reached, and every number of questions below it: for every task with a valid
      repository and every text with a question there is a run in which exactly `n` are asked. */
  lemma QuestionsUpToLimit(spec: Spec, cr: ClaudeResult, text: string, n: nat) returns (ts: TaskState)
    requires SplitRepository(spec.repository).Some? && Clarification(text) != ""
    requires n <= if spec.maxClarifications == 0 then 3 else spec.maxClarifications
    ensures Reachable(ts) && ts.spec == spec && |ts.hist| > 0 && |ts.hist[|ts.hist| - 1].clarifications| == n
  {
    hide SplitRepository, ClaimNameOf, Clarification, Reachable;
    ReadyReachable(spec);
    ts := ReadyTask(spec);
    if n > 0 {
      ts := LedgerGrowsTo(ts, cr, text, n);
    }
  }

  /** The documented 24 hours without a response are not kept: for every task and every text with a
      question there is a run in which the question is stored more than 24 hours after the start
      and the very next reconcile, at the same moment, stores the failure. */
  lemma QuestionWithoutTime(spec: Spec, text: string, cr: ClaudeResult)
    requires SplitRepository(spec.repository).Some? && Clarification(text) != ""
    ensures var ts, now := AskingTask(spec, text, cr), LateMoment();
            var asked := Step(ts, Answer(1, Wrote(Stored), now));
            var failed := Step(Step(asked, Read(|ts.hist|, now)), Answer(|ts.ops|, Wrote(Stored), now));
            && Reachable(ts)
            && |asked.hist| == |ts.hist| + 1 && asked.hist[|ts.hist|].phase.WaitingForClarification?
            && |failed.hist| == |ts.hist| + 2 && failed.hist[|ts.hist| + 1].phase.Failed?
  {
    ReadyReachable(spec);
    GetsToAsk(spec, text, cr);
    hide Step, Reachable, SplitRepository, ClaimNameOf, Clarification, Accumulate;
    var t := LateMoment();
    ReachableStep(ReadyTask(spec), Answer(1, Ran(cr, text, false), t));
    ReachableStep(Step(ReadyTask(spec), Answer(1, Ran(cr, text, false), t)), Answer(1, Wrote(Stored), t));
    AskedTooLate(AskingTask(spec, text, cr), 1, t);
  }

  /** One move of a task in a reachable world of two. */
  lemma Advance(w: World, t: nat, a: Action, claims: set<string>) returns (next: World)
    requires WorldReachable(w) && Sane(w) && |w.tasks| == 2 && t < 2
    requires Consistent(w.claims, w.tasks[t], a) && ClaimsAfter(w.claims, w.tasks[t], a) == claims
    ensures WorldReachable(next) && Sane(next)
    ensures next ==
            World(if t == 0 then [Step(w.tasks[0], a), w.tasks[1]] else [w.tasks[0], Step(w.tasks[1], a)], claims)
  {
    hide Step, Consistent, ClaimsAfter;
    WorldReachableStep(w, Do(t, a));
    next := WorldStep(w, Do(t, a));
    assert next.tasks == if t == 0 then [Step(w.tasks[0], a), w.tasks[1]] else [w.tasks[0], Step(w.tasks[1], a)];
  }

  lemma TwoCreated(a: Spec, b: Spec) returns (w: World)
    ensures w == World([NewTask(a), NewTask(b)], {}) && WorldReachable(w) && Sane(w)
  {
    assert RunFrom(EMPTY, []) == World([], {});
    hide NewTask;
    WorldReachableStep(World([], {}), Create(a));
    var w1 := WorldStep(World([], {}), Create(a));
    assert w1 == World([NewTask(a)], {});
    WorldReachableStep(w1, Create(b));
    w := WorldStep(w1, Create(b));
    assert w.tasks == [NewTask(a), NewTask(b)];
  }

  lemma TwoStarted(a: Spec, b: Spec) returns (w: World)
    requires SplitRepository(a.repository).Some? && SplitRepository(b.repository).Some?
    requires ClaimNameOf(a) == ClaimNameOf(b)
    ensures w == World([StartedTask(a), StartedTask(b)], {ClaimNameOf(a)}) && WorldReachable(w) && Sane(w)
  {
    w := TwoCreated(a, b);
    Starts(a, Created);
    Starts(b, AlreadyExists);
    hide Step, WorldReachable, SplitRepository, ClaimNameOf, NewTask, StartedTask, Enabled;
    var name := {ClaimNameOf(a)};
    w := Advance(w, 0, Read(0, 0), {});
    w := Advance(w, 0, Answer(0, Created, 0), name);
    w := Advance(w, 0, Answer(0, Wrote(Stored), 0), name);
    w := Advance(w, 1, Read(0, 0), name);
    w := Advance(w, 1, Answer(0, AlreadyExists, 0), name);
    w := Advance(w, 1, Answer(0, Wrote(Stored), 0), name);
  }

  /** Two tasks with one claim name, as two pull requests of one repository have: there is a run in
      which one fails, deletes the claim and leaves the other running without its sandbox. */
  lemma SharedNameLosesSandbox(a: Spec, b: Spec) returns (w: World)
    requires SplitRepository(a.repository).Some? && SplitRepository(b.repository).Some?
    requires ClaimNameOf(a) == ClaimNameOf(b)
    ensures WorldReachable(w) && |w.tasks| == 2 && w.tasks[0].spec == a && w.tasks[1].spec == b
    ensures var ts := w.tasks[0];
            |ts.hist| > 0 && ts.hist[|ts.hist| - 1].phase.Running? && ts.hist[|ts.hist| - 1].claimName !in w.claims
  {
    hide Step, WorldReachable, SplitRepository, ClaimNameOf, Enabled, RunFrom;
    w := TwoStarted(a, b);
    Fails(b);
    Releases(b);
    var name := {ClaimNameOf(a)};
    w := Advance(w, 1, Read(1, 0), name);
    w := Advance(w, 1, Answer(1, Sandbox(None), 0), name);
    w := Advance(w, 1, Answer(1, Wrote(Stored), 0), name);
    w := Advance(w, 1, Answer(1, Posted(true), 0), name);
    HistoryGrows(w.tasks[1], Answer(1, Deleted(true), 0));
    w := Advance(w, 1, Answer(1, Deleted(true), 0), {});
  }
}
