/** All tasks together, and the SandboxClaims that they share: internal/sandbox/client.go's
    CreateClaim and DeleteClaim as operations on a set of names. */
module Sandboxes {
  import opened Text
  import opened Tasks
  import opened Protocol
  import opened Lifecycle

  datatype World = World(tasks: seq<TaskState>, claims: set<string>)

  datatype Move =
    | Create(spec: Spec)
    | Do(task: nat, action: Action)

  /** An answer to CreateClaim agrees with the claims there are. */
  predicate Consistent(claims: set<string>, ts: TaskState, a: Action) {
    Enabled(ts, a) && a.Answer? && SplitRepository(ts.spec.repository).Some? ==>
      && (a.response.Created? ==> ClaimNameOf(ts.spec) !in claims)
      && (a.response.AlreadyExists? ==> ClaimNameOf(ts.spec) in claims)
  }

  function ClaimsAfter(claims: set<string>, ts: TaskState, a: Action): set<string> {
    if !Enabled(ts, a) || !a.Answer? then claims
    else
      match a.response
      case Created => claims + {ClaimNameOf(ts.spec)}
      case ClaimError(applied) => if applied then claims + {ClaimNameOf(ts.spec)} else claims
      case Deleted(applied) => if applied then claims - {ts.ops[a.op].st.claimName} else claims
      case _ => claims
  }

  predicate Sane(w: World) {
    forall t :: 0 <= t < |w.tasks| ==> |w.tasks[t].hist| > 0
  }

  function WorldStep(w: World, m: Move): (w': World)
    requires Sane(w)
  {
    match m
    case Create(spec) => w.(tasks := w.tasks + [NewTask(spec)])
    case Do(t, a) =>
      if t < |w.tasks| && Consistent(w.claims, w.tasks[t], a)
      then World(w.tasks[t := Step(w.tasks[t], a)], ClaimsAfter(w.claims, w.tasks[t], a))
      else w
  }

  lemma StepSane(w: World, m: Move)
    requires Sane(w)
    ensures Sane(WorldStep(w, m))
  {
    if m.Do? && m.task < |w.tasks| {
      HistoryGrows(w.tasks[m.task], m.action);
    }
    hide Step;
  }

  /** The world after some moves. */
  function RunFrom(w: World, moves: seq<Move>): (w': World)
    requires Sane(w)
    ensures Sane(w')
  {
    if moves == [] then w
    else
      var before := RunFrom(w, moves[..|moves| - 1]);
      StepSane(before, moves[|moves| - 1]);
      WorldStep(before, moves[|moves| - 1])
  }

  /** A move on one task leaves every other task's record as it is, and one that is not about a claim
      the claims too. */
  lemma MoveTouchesOneTask(w: World, t: nat, a: Action, u: nat)
    requires Sane(w) && u < |w.tasks| && u != t
    ensures var w' := WorldStep(w, Do(t, a));
            && |w'.tasks| == |w.tasks| && w'.tasks[u] == w.tasks[u]
            && (a.Hear? || (a.Answer? && a.response.Wrote?) ==> w'.claims == w.claims)
  {
    hide Step, Consistent, Enabled;
  }

  /** No tasks and no claims. */
  const EMPTY := World([], {})

  ghost predicate WorldReachable(w: World) {
    exists moves :: RunFrom(EMPTY, moves) == w
  }

  lemma WorldReachableStep(w: World, m: Move)
    requires WorldReachable(w)
    ensures Sane(w) && WorldReachable(WorldStep(w, m))
  {
    var moves :| RunFrom(EMPTY, moves) == w;
    hide WorldStep;
    assert (moves + [m])[..|moves|] == moves;
    assert RunFrom(EMPTY, moves + [m]) == WorldStep(w, m);
  }

  lemma RunsSane(w: World)
    requires WorldReachable(w)
    ensures Sane(w)
  {
    var moves :| RunFrom(EMPTY, moves) == w;
  }

  lemma MoveKeepsReachable(w: World, m: Move, t: nat)
    requires Sane(w) && t < |WorldStep(w, m).tasks|
    requires t < |w.tasks| ==> Reachable(w.tasks[t])
    ensures Reachable(WorldStep(w, m).tasks[t])
  {
    hide Step, Reachable, ClaimsAfter, Consistent, NewTask;
    if t < |w.tasks| {
      if m.Do? && m.task == t {
        ReachableStep(w.tasks[t], m.action);
      }
    } else {
      FreshReachable(NewTask(m.spec));
    }
  }

  /** Each task of a world is in a state that it reaches on its own. */
  lemma {:induction false} TasksReachable(moves: seq<Move>, t: nat)
    requires t < |RunFrom(EMPTY, moves).tasks|
    ensures Reachable(RunFrom(EMPTY, moves).tasks[t])
  {
    assert Sane(EMPTY);
    hide Reachable, WorldStep, Sane;
    if moves != [] {
      var init, m := moves[..|moves| - 1], moves[|moves| - 1];
      if t < |RunFrom(EMPTY, init).tasks| {
        TasksReachable(init, t);
      }
      MoveKeepsReachable(RunFrom(EMPTY, init), m, t);
    }
  }

  /** No other task has the claim name of task `t`. */
  ghost predicate Alone(w: World, t: nat)
    requires t < |w.tasks|
  {
    && SplitRepository(w.tasks[t].spec.repository).Some?
    && forall u :: 0 <= u < |w.tasks| && u != t && SplitRepository(w.tasks[u].spec.repository).Some? ==>
         ClaimNameOf(w.tasks[u].spec) != ClaimNameOf(w.tasks[t].spec)
  }

  /** The task is live, or a writer that has its claim is about to make it so. */
  predicate NeedsClaim(ts: TaskState)
    requires |ts.hist| > 0
  {
    || ts.hist[|ts.hist| - 1].phase.IsLive()
    || exists k :: 0 <= k < |ts.ops| && ts.ops[k].stage.Starting? && ts.ops[k].version + 1 == |ts.hist|
  }

  ghost predicate ClaimsKept(w: World) {
    && Sane(w)
    && forall t :: 0 <= t < |w.tasks| && Alone(w, t) && NeedsClaim(w.tasks[t]) ==>
         ClaimNameOf(w.tasks[t].spec) in w.claims
  }

  lemma NeedAfterReplacing(ts: TaskState, k: nat, op': Op)
    requires |ts.hist| > 0 && k < |ts.ops| && NeedsClaim(ts.(ops := ts.ops[k := op'])) && !op'.stage.Starting?
    ensures NeedsClaim(ts)
  {
    var ts' := ts.(ops := ts.ops[k := op']);
    if !ts.hist[|ts.hist| - 1].phase.IsLive() {
      var j :| 0 <= j < |ts'.ops| && ts'.ops[j].stage.Starting? && ts'.ops[j].version + 1 == |ts.hist|;
      assert ts.ops[j] == ts'.ops[j];
    }
  }

  lemma NeedAfterNew(ts: TaskState, op: Op)
    requires |ts.hist| > 0 && NeedsClaim(ts.(ops := ts.ops + [op])) && !op.stage.Starting?
    ensures NeedsClaim(ts)
  {
    var ts' := ts.(ops := ts.ops + [op]);
    if !ts.hist[|ts.hist| - 1].phase.IsLive() {
      var j :| 0 <= j < |ts'.ops| && ts'.ops[j].stage.Starting? && ts'.ops[j].version + 1 == |ts.hist|;
      assert ts.ops[j] == ts'.ops[j];
    }
  }

  lemma NeedLogs(ts: TaskState, ts': TaskState)
    requires |ts.hist| > 0 && ts'.hist == ts.hist && ts'.ops == ts.ops
    ensures NeedsClaim(ts') == NeedsClaim(ts)
  {
  }

  lemma NeedAfterAnswer(ts: TaskState, k: nat, r: Response, now: int)
    requires Inv(ts) && |ts.hist| > 0 && Enabled(ts, Answer(k, r, now))
    requires |Step(ts, Answer(k, r, now)).hist| > 0 && NeedsClaim(Step(ts, Answer(k, r, now)))
    ensures NeedsClaim(ts) || r.Created? || r.AlreadyExists?
  {
    var op := ts.ops[k];
    assert OpOk(ts.spec, ts.hist[op.version], op) && Good(ts.spec, ts.hist[op.version]);
    assert IsWrite(op.stage) ==> r.Wrote?;
    assert forall j :: 0 <= j < |ts.ops| ==> ts.ops[j].version < |ts.hist|;
    hide Inv, Good, OpOk, AfterWrite, AfterCall, Fits, NeedsClaim, IsResume, KindOf;
    NeverBackToStarting(ts.spec, op, r, now);
    if IsWrite(op.stage) {
      LiveWrites(ts.spec, ts.hist[op.version], op);
      NeedAfterWrite(ts, k, r.outcome, now);
    } else if !r.Created? && !r.AlreadyExists? {
      var op' := AfterCall(ts.spec, op, r, now);
      NeedLogs(ts.(ops := ts.ops[k := op']), StepCall(ts, k, r, now));
      NeedAfterReplacing(ts, k, op');
    }
  }

  /** A step that makes a task need its claim is an answer to CreateClaim that leaves the claim
      there; a write only turns one need into the other. */
  lemma NeedArises(ts: TaskState, a: Action)
    requires Inv(ts) && |ts.hist| > 0 && Enabled(ts, a)
    requires |Step(ts, a).hist| > 0 && NeedsClaim(Step(ts, a))
    ensures NeedsClaim(ts) || (a.Answer? && (a.response.Created? || a.response.AlreadyExists?))
  {
    hide Inv, NewOp, StepWrite, StepCall, NeedsClaim, Fits;
    match a
    case Answer(k, r, now) => NeedAfterAnswer(ts, k, r, now);
    case Crash(k) => NeedAfterReplacing(ts, k, ts.ops[k].(stage := Finished));
    case _ =>
      NewNeverStarting(ts, a);
      NeedAfterNew(ts, NewOp(ts, a));
  }

  lemma NewNeverStarting(ts: TaskState, a: Action)
    requires (a.Read? || a.Hear?) && Enabled(ts, a)
    ensures !NewOp(ts, a).stage.Starting?
  {
    hide SplitRepository;
  }

  lemma NeverBackToStarting(spec: Spec, op: Op, r: Response, now: int)
    requires Fits(spec, op, r)
    ensures IsWrite(op.stage) ==> forall ok :: !AfterWrite(spec, op, ok, now).stage.Starting?
    ensures !IsWrite(op.stage) && AfterCall(spec, op, r, now).stage.Starting? ==> r.Created? || r.AlreadyExists?
  {
    hide SplitRepository, ClaimNameOf, MaxRounds, Cost.Accumulate, Markers.Clarification, Markers.PullRequestURL,
         Contains;
  }

  /** A write that makes a task live starts from a live task or from the Starting stage. */
  lemma LiveWrites(spec: Spec, b: Status, op: Op)
    requires Good(spec, b) && OpOk(spec, b, op) && IsWrite(op.stage)
    ensures op.st.phase.IsLive() ==> b.phase.IsLive() || op.stage.Starting?
  {
  }

  lemma NeedAfterWrite(ts: TaskState, k: nat, outcome: Outcome, now: int)
    requires |ts.hist| > 0 && k < |ts.ops| && IsWrite(ts.ops[k].stage)
    requires Applies(outcome) ==> ts.ops[k].version + 1 == |ts.hist|
    requires forall j :: 0 <= j < |ts.ops| ==> ts.ops[j].version < |ts.hist|
    requires forall ok :: !AfterWrite(ts.spec, ts.ops[k], ok, now).stage.Starting?
    requires ts.ops[k].st.phase.IsLive() ==> ts.hist[ts.ops[k].version].phase.IsLive() || ts.ops[k].stage.Starting?
    ensures NeedsClaim(StepWrite(ts, k, outcome, now)) ==> NeedsClaim(ts)
  {
    hide AfterWrite;
    var ts' := StepWrite(ts, k, outcome, now);
    if NeedsClaim(ts') {
      if ts'.hist[|ts'.hist| - 1].phase.IsLive() {
        if |ts'.hist| > |ts.hist| {
          assert ts.ops[k].version + 1 == |ts.hist|;
        }
      } else {
        var j :| 0 <= j < |ts'.ops| && ts'.ops[j].stage.Starting? && ts'.ops[j].version + 1 == |ts'.hist|;
        assert ts'.ops[j] == ts.ops[j];
      }
    }
  }

  lemma TerminalIsLast(ts: TaskState, v: nat)
    requires Inv(ts) && v < |ts.hist| && ts.hist[v].phase.IsTerminal()
    ensures v + 1 == |ts.hist|
  {
    hide Good, OpOk;
    assert v + 1 < |ts.hist| ==> Follows(ts.hist[v + 1 - 1], ts.hist[v + 1]);
  }

  lemma StartingIsNew(ts: TaskState, j: nat)
    requires Inv(ts) && j < |ts.ops| && ts.ops[j].stage.Starting?
    ensures ts.ops[j].version < |ts.hist| && ts.hist[ts.ops[j].version].phase.IsNew()
  {
    assert OpOk(ts.spec, ts.hist[ts.ops[j].version], ts.ops[j]);
    hide Good, Follows;
  }

  lemma ReleasingIsTerminal(ts: TaskState, k: nat)
    requires Inv(ts) && k < |ts.ops| && ts.ops[k].stage.Releasing?
    ensures ts.ops[k].version < |ts.hist| && ts.hist[ts.ops[k].version].phase.IsTerminal()
    ensures SplitRepository(ts.spec.repository).Some? && ts.ops[k].st.claimName == ClaimNameOf(ts.spec)
  {
    hide Good, Follows, OpOk, ClaimNameOf, SplitRepository;
    ReleasingWriter(ts.spec, ts.hist[ts.ops[k].version], ts.ops[k]);
  }

  lemma ReleasingWriter(spec: Spec, b: Status, op: Op)
    requires OpOk(spec, b, op) && Good(spec, b) && op.stage.Releasing?
    ensures b.phase.IsTerminal() && SplitRepository(spec.repository).Some? && op.st.claimName == ClaimNameOf(spec)
  {
    hide ClaimNameOf, SplitRepository, MaxRounds;
  }

  /** A claim is deleted only after a terminal write, and only the task's own claim. */
  lemma DeletionIsLate(ts: TaskState, k: nat)
    requires Inv(ts) && |ts.hist| > 0 && k < |ts.ops| && ts.ops[k].stage.Releasing?
    ensures !NeedsClaim(ts.(ops := ts.ops[k := ts.ops[k].(stage := Finished)]))
    ensures SplitRepository(ts.spec.repository).Some? && ts.ops[k].st.claimName == ClaimNameOf(ts.spec)
  {
    ReleasingIsTerminal(ts, k);
    TerminalIsLast(ts, ts.ops[k].version);
    forall j | 0 <= j < |ts.ops| && ts.ops[j].stage.Starting? ensures ts.ops[j].version + 1 != |ts.hist| {
      StartingIsNew(ts, j);
    }
    hide Inv;
  }

  /** What a step does to the claims, as far as keeping them is concerned. */
  ghost predicate KeepsFor(ts: TaskState, ts': TaskState, claims: set<string>, claims': set<string>)
    requires |ts.hist| > 0 && |ts'.hist| > 0
  {
    && ts'.spec == ts.spec
    && (forall n :: n in claims && n !in claims' ==>
          SplitRepository(ts.spec.repository).Some? && n == ClaimNameOf(ts.spec) && !NeedsClaim(ts'))
    && (NeedsClaim(ts') ==>
          || NeedsClaim(ts)
          || (SplitRepository(ts.spec.repository).Some? && ClaimNameOf(ts.spec) in claims'))
  }

  lemma AnswerStage(ts: TaskState, a: Action)
    requires |ts.hist| > 0 && Enabled(ts, a) && a.Answer?
    ensures a.response.Deleted? ==>
              ts.ops[a.op].stage.Releasing?
                  && Step(ts, a) == ts.(ops := ts.ops[a.op := ts.ops[a.op].(stage := Finished)])
    ensures a.response.Created? || a.response.AlreadyExists? || a.response.ClaimError? ==>
              SplitRepository(ts.spec.repository).Some?
  {
    hide SplitRepository, ClaimNameOf, IsResume, KindOf;
  }

  lemma StepKeepsFor(ts: TaskState, a: Action, claims: set<string>)
    requires Inv(ts) && |ts.hist| > 0 && Consistent(claims, ts, a) && |Step(ts, a).hist| > 0
    ensures KeepsFor(ts, Step(ts, a), claims, ClaimsAfter(claims, ts, a))
  {
    hide Inv, NeedsClaim, ClaimNameOf, SplitRepository, Enabled, Step;
    HistoryGrows(ts, a);
    if Enabled(ts, a) {
      if NeedsClaim(Step(ts, a)) {
        NeedArises(ts, a);
      }
      if a.Answer? {
        EnabledIndex(ts, a);
        AnswerStage(ts, a);
        if a.response.Deleted? {
          DeletionIsLate(ts, a.op);
        }
      }
    } else {
      DisabledStep(ts, a);
    }
  }

  lemma EnabledIndex(ts: TaskState, a: Action)
    requires Enabled(ts, a) && a.Answer?
    ensures a.op < |ts.ops|
  {
  }

  lemma DisabledStep(ts: TaskState, a: Action)
    requires |ts.hist| > 0 && !Enabled(ts, a)
    ensures Step(ts, a) == ts
  {
  }

  lemma DoKeepsClaims(w: World, t: nat, ts': TaskState, claims': set<string>)
    requires ClaimsKept(w) && t < |w.tasks| && |ts'.hist| > 0 && KeepsFor(w.tasks[t], ts', w.claims, claims')
    ensures ClaimsKept(World(w.tasks[t := ts'], claims'))
  {
    hide NeedsClaim, ClaimNameOf, SplitRepository;
    var w' := World(w.tasks[t := ts'], claims');
    forall u | 0 <= u < |w'.tasks| && Alone(w', u) && NeedsClaim(w'.tasks[u])
      ensures ClaimNameOf(w'.tasks[u].spec) in claims'
    {
      assert forall v :: 0 <= v < |w.tasks| ==> w'.tasks[v].spec == w.tasks[v].spec;
      assert Alone(w, u);
    }
  }

  lemma CreateKeepsClaims(w: World, spec: Spec)
    requires ClaimsKept(w)
    ensures ClaimsKept(w.(tasks := w.tasks + [NewTask(spec)]))
  {
    hide ClaimNameOf, SplitRepository;
    var w' := w.(tasks := w.tasks + [NewTask(spec)]);
    assert !NeedsClaim(NewTask(spec));
    hide NeedsClaim, NewTask;
    forall u | 0 <= u < |w'.tasks| && Alone(w', u) && NeedsClaim(w'.tasks[u])
      ensures ClaimNameOf(w'.tasks[u].spec) in w'.claims
    {
      assert forall v :: 0 <= v < |w.tasks| ==> w'.tasks[v] == w.tasks[v];
      assert Alone(w, u);
    }
  }

  lemma StepKeepsClaims(w: World, m: Move)
    requires ClaimsKept(w) && Sane(w) && forall t :: 0 <= t < |w.tasks| ==> Inv(w.tasks[t])
    ensures ClaimsKept(WorldStep(w, m))
  {
    hide ClaimsKept, Inv, Step, KeepsFor, NewTask, Consistent, ClaimsAfter;
    match m
    case Create(spec) => CreateKeepsClaims(w, spec);
    case Do(t, a) =>
      if t < |w.tasks| && Consistent(w.claims, w.tasks[t], a) {
        HistoryGrows(w.tasks[t], a);
        StepKeepsFor(w.tasks[t], a, w.claims);
        DoKeepsClaims(w, t, Step(w.tasks[t], a), ClaimsAfter(w.claims, w.tasks[t], a));
      }
  }

  lemma {:induction false} RunKeepsClaims(moves: seq<Move>)
    ensures ClaimsKept(RunFrom(EMPTY, moves))
  {
    if moves != [] {
      var before := moves[..|moves| - 1];
      RunKeepsClaims(before);
      var w := RunFrom(EMPTY, before);
      hide ClaimsKept, WorldStep, Inv;
      forall t | 0 <= t < |w.tasks| ensures Inv(w.tasks[t]) {
        TasksReachable(before, t);
        ReachableInv(w.tasks[t]);
      }
      StepKeepsClaims(w, moves[|moves| - 1]);
    }
  }

  /** No live task loses its sandbox: in every reachable world, the claim of a running or waiting
      task exists, provided that no other task has its name. */
  lemma LiveTaskKeepsSandbox(w: World, t: nat)
    requires WorldReachable(w) && t < |w.tasks| && Alone(w, t)
    requires var ts := w.tasks[t]; |ts.hist| > 0 && ts.hist[|ts.hist| - 1].phase.IsLive()
    ensures var st := w.tasks[t].hist[|w.tasks[t].hist| - 1];
            st.claimName == ClaimNameOf(w.tasks[t].spec) && st.claimName != "" && st.claimName in w.claims
  {
    var moves :| RunFrom(EMPTY, moves) == w;
    RunKeepsClaims(moves);
    TasksReachable(moves, t);
    IdentityFixed(w.tasks[t]);
    hide RunFrom, ClaimNameOf;
  }

  // ---------- a later task with the name of an earlier one ----------

  /** The task has ended and no writer of it will delete its claim any more. */
  predicate Over(ts: TaskState)
    requires |ts.hist| > 0
  {
    ts.hist[|ts.hist| - 1].phase.IsTerminal() && forall k :: 0 <= k < |ts.ops| ==> !CleansUp(ts.ops[k])
  }

  predicate CleansUp(op: Op) {
    op.stage.PostingCompletion? || op.stage.PostingFailure? || op.stage.Releasing?
  }

  /** Writers of an ended task that do not clean up yet never will: their writes are too late. */
  lemma LateWritersEnd(spec: Spec, b: Status, op: Op, r: Response, now: int)
    requires OpOk(spec, b, op) && Fits(spec, op, r) && !CleansUp(op)
    ensures !IsWrite(op.stage) ==> !CleansUp(AfterCall(spec, op, r, now)) && !r.Deleted?
    ensures IsWrite(op.stage) ==> r.Wrote? && !CleansUp(AfterWrite(spec, op, false, now)) && !b.phase.IsTerminal()
  {
    hide ClaimNameOf, SplitRepository, MaxRounds, AfterRun;
    if r.Ran? {
      AfterRunStage(op, r.cr, r.text, r.failed, now);
    }
  }

  lemma AfterRunStage(op: Op, cr: ClaudeOutput.ClaudeResult, text: string, failed: bool, now: int)
    ensures !CleansUp(AfterRun(op, cr, text, failed, now))
  {
    hide Cost.Accumulate, Markers.Clarification, Markers.PullRequestURL, Contains;
  }

  lemma AnswerKeepsOver(ts: TaskState, k: nat, r: Response, now: int)
    requires Inv(ts) && |ts.hist| > 0 && Over(ts) && Enabled(ts, Answer(k, r, now))
    ensures Over(Step(ts, Answer(k, r, now))) && !r.Deleted?
  {
    hide Inv, Good, OpOk, AfterWrite, AfterCall, Fits, KindOf, IsResume, IsWrite, IsPost;
    var op := ts.ops[k];
    WriterBase(ts, k);
    LateWritersEnd(ts.spec, ts.hist[op.version], op, r, now);
    var ts' := Step(ts, Answer(k, r, now));
    assert ts'.hist == ts.hist && ts'.ops == ts.ops[k := ts'.ops[k]];
    assert !CleansUp(ts'.ops[k]);
  }

  /** An ended task that no writer cleans up stays so, and its claim is not deleted for it. */
  lemma StepKeepsOver(ts: TaskState, a: Action)
    requires Inv(ts) && |ts.hist| > 0 && Over(ts)
    ensures Over(Step(ts, a)) && !(Enabled(ts, a) && a.Answer? && a.response.Deleted?)
  {
    hide Inv, StepWrite, StepCall, Fits, NewOp;
    if Enabled(ts, a) {
      match a
      case Answer(k, r, now) =>
        hide Over;
        AnswerKeepsOver(ts, k, r, now);
      case Crash(k) =>
      case _ => NewCleansNothing(ts, a);
    }
  }

  lemma NewCleansNothing(ts: TaskState, a: Action)
    requires (a.Read? || a.Hear?) && Enabled(ts, a)
    ensures !CleansUp(NewOp(ts, a))
  {
    hide SplitRepository;
  }

  predicate SameName(a: Spec, b: Spec) {
    && SplitRepository(a.repository).Some? && SplitRepository(b.repository).Some?
    && ClaimNameOf(a) == ClaimNameOf(b)
  }

  /** Every other task with the claim name of task `t` is over. */
  ghost predicate Quiet(w: World, t: nat)
    requires Sane(w) && t < |w.tasks|
  {
    && SplitRepository(w.tasks[t].spec.repository).Some?
    && forall u :: 0 <= u < |w.tasks| && u != t && SameName(w.tasks[u].spec, w.tasks[t].spec) ==> Over(w.tasks[u])
  }

  /** The name is quiet and the task has its claim if it needs one. */
  ghost predicate Holds(w: World, t: nat)
    requires Sane(w) && t < |w.tasks|
  {
    Quiet(w, t) && (NeedsClaim(w.tasks[t]) ==> ClaimNameOf(w.tasks[t].spec) in w.claims)
  }

  lemma OverKeepsClaims(ts: TaskState, a: Action, claims: set<string>)
    requires |ts.hist| > 0 && !(Enabled(ts, a) && a.Answer? && a.response.Deleted?) && Consistent(claims, ts, a)
    ensures claims <= ClaimsAfter(claims, ts, a)
  {
    hide ClaimNameOf, SplitRepository, Enabled;
  }

  lemma DoKeepsHolds(w: World, t: nat, u: nat, a: Action)
    requires Sane(w) && t < |w.tasks| && u < |w.tasks| && Holds(w, t)
    requires Inv(w.tasks[u]) && Consistent(w.claims, w.tasks[u], a)
    ensures var w' := World(w.tasks[u := Step(w.tasks[u], a)], ClaimsAfter(w.claims, w.tasks[u], a));
            Sane(w') && Holds(w', t)
  {
    hide Inv, Step, NeedsClaim, Over, ClaimNameOf, SplitRepository, Consistent, ClaimsAfter, Enabled;
    HistoryGrows(w.tasks[u], a);
    StepKeepsFor(w.tasks[u], a, w.claims);
    if u != t && SameName(w.tasks[u].spec, w.tasks[t].spec) {
      StepKeepsOver(w.tasks[u], a);
      OverKeepsClaims(w.tasks[u], a, w.claims);
    }
  }

  lemma CreateKeepsHolds(w: World, t: nat, spec: Spec)
    requires Sane(w) && t < |w.tasks| && Holds(w, t) && !SameName(spec, w.tasks[t].spec)
    ensures Sane(w.(tasks := w.tasks + [NewTask(spec)])) && Holds(w.(tasks := w.tasks + [NewTask(spec)]), t)
  {
    hide NeedsClaim, Over, ClaimNameOf, SplitRepository;
  }

  /** No task of that name is created. */
  predicate NoneCreated(moves: seq<Move>, spec: Spec) {
    forall i :: 0 <= i < |moves| && moves[i].Create? ==> !SameName(moves[i].spec, spec)
  }

  lemma {:induction false} RunKeepsHolds(w: World, t: nat, moves: seq<Move>)
    requires WorldReachable(w) && Sane(w) && t < |w.tasks| && Holds(w, t) && NoneCreated(moves, w.tasks[t].spec)
    ensures var w' := RunFrom(w, moves);
            WorldReachable(w') && t < |w'.tasks| && w'.tasks[t].spec == w.tasks[t].spec && Holds(w', t)
  {
    if moves != [] {
      hide WorldReachable, Holds, Inv, Step, Consistent, ClaimsAfter, NewTask, SameName;
      var n := |moves| - 1;
      RunKeepsHolds(w, t, moves[..n]);
      var before, m := RunFrom(w, moves[..n]), moves[n];
      WorldReachableStep(before, m);
      if m.Create? {
        CreateKeepsHolds(before, t, m.spec);
      } else if m.task < |before.tasks| && Consistent(before.claims, before.tasks[m.task], m.action) {
        WorldTaskInv(before, m.task);
        HistoryGrows(before.tasks[m.task], m.action);
        DoKeepsHolds(before, t, m.task, m.action);
      }
    }
  }

  lemma WorldTaskInv(w: World, t: nat)
    requires WorldReachable(w) && t < |w.tasks|
    ensures Reachable(w.tasks[t]) && Inv(w.tasks[t])
  {
    hide Inv, RunFrom, Reachable;
    var moves :| RunFrom(EMPTY, moves) == w;
    TasksReachable(moves, t);
    ReachableInv(w.tasks[t]);
  }

  /** Earlier tasks of the same name do no harm once they are over: from any reachable world in which
      all others of that name are over and task `t` has its claim if it needs one, as a new task
      does, it keeps the claim for as long as it lives, unless another task of that name is created. */
  lemma LaterTaskKeepsSandbox(w: World, t: nat, moves: seq<Move>)
    requires WorldReachable(w) && Sane(w) && t < |w.tasks| && Quiet(w, t) && NoneCreated(moves, w.tasks[t].spec)
    requires NeedsClaim(w.tasks[t]) ==> ClaimNameOf(w.tasks[t].spec) in w.claims
    ensures var w' := RunFrom(w, moves);
            && t < |w'.tasks|
            && var hist := w'.tasks[t].hist;
               |hist| > 0 && (hist[|hist| - 1].phase.IsLive() ==>
                 hist[|hist| - 1].claimName == ClaimNameOf(w.tasks[t].spec) && hist[|hist| - 1].claimName in w'.claims)
  {
    hide WorldReachable, Quiet, Reachable, Inv, RunFrom, SameName, ClaimNameOf, SplitRepository;
    RunKeepsHolds(w, t, moves);
    var w' := RunFrom(w, moves);
    WorldTaskInv(w', t);
    if w'.tasks[t].hist[|w'.tasks[t].hist| - 1].phase.IsLive() {
      LiveNeedsClaim(w'.tasks[t]);
    }
  }

  lemma LiveNeedsClaim(ts: TaskState)
    requires Reachable(ts) && |ts.hist| > 0 && ts.hist[|ts.hist| - 1].phase.IsLive()
    ensures NeedsClaim(ts) && SplitRepository(ts.spec.repository).Some?
    ensures ts.hist[|ts.hist| - 1].claimName == ClaimNameOf(ts.spec)
  {
    IdentityFixed(ts);
  }

  /** Tasks on different issues never share a claim name, whatever their repositories. */
  lemma DifferentIssuesDifferentClaims(a: Spec, b: Spec)
    requires SplitRepository(a.repository).Some? && SplitRepository(b.repository).Some? && a.issue != b.issue
    ensures ClaimNameOf(a) != ClaimNameOf(b)
  {
    var p, q := SplitRepository(a.repository).value, SplitRepository(b.repository).value;
    ClaimNames.SameName(p.0, p.1, a.issue, q.0, q.1, b.issue);
  }
}
