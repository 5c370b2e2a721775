/** The outside world of the operator's code: a cluster whose state moves only by the steps of the
    state machine. Before every call returns, any number of other writers may have moved. */
module Clusters {
  import opened Options
  import opened ClaudeOutput
  import opened Cost
  import opened Tasks
  import opened Protocol
  import opened Lifecycle
  import opened Sandboxes

  /** A ClaudeTask as the operator's code holds it: a copy that it changes in place. */
  class ClaudeTask {
    const name: nat
    const spec: Spec
    var resourceVersion: nat
    var phase: Phase
    var claimName: string
    var podName: string
    var startTime: Option<int>
    var completionTime: Option<int>
    var pullRequestURL: string
    var costReport: CostReport?
    var clarifications: seq<Exchange>

    function View(): Status
      reads this, costReport
    {
      Status(phase, claimName, podName, startTime, completionTime, pullRequestURL, ViewOf(costReport), clarifications)
    }

    constructor (name: nat, spec: Spec, version: nat, st: Status)
      ensures this.name == name && this.spec == spec && resourceVersion == version && View() == st
      ensures costReport != null ==> fresh(costReport)
    {
      this.name, this.spec, resourceVersion := name, spec, version;
      phase, claimName, podName := st.phase, st.claimName, st.podName;
      startTime, completionTime := st.startTime, st.completionTime;
      pullRequestURL, clarifications := st.pullRequestURL, st.clarifications;
      costReport := null;
      new;
      if st.costReport.Some? {
        var c := st.costReport.value;
        var r := new CostReport();
        r.inputTokens, r.outputTokens := c.inputTokens, c.outputTokens;
        r.cacheReadInputTokens, r.cacheCreationInputTokens := c.cacheReadInputTokens, c.cacheCreationInputTokens;
        r.durationMs, r.estimatedCost := c.durationMs, c.estimatedCost;
        costReport := r;
      }
    }
  }

  /** The move is not made by writer `me` of task `t`. */
  predicate ByOther(m: Move, t: nat, me: nat) {
    m.Do? && m.task == t ==> !(m.action.Answer? && m.action.op == me) && !(m.action.Crash? && m.action.op == me)
  }

  /** `w'` is `w` or comes from it by moves of the state machine. */
  ghost predicate Evolves(w: World, w': World) {
    Sane(w) && Sane(w') && exists moves :: RunFrom(w, moves) == w'
  }

  /** `w'` comes from `w` by moves that are not made by writer `me` of task `t`. */
  ghost predicate MovedByOthers(w: World, w': World, t: nat, me: nat) {
    Sane(w) && exists moves :: RunFrom(w, moves) == w' && forall i :: 0 <= i < |moves| ==> ByOther(moves[i], t, me)
  }

  lemma OthersMove(w: World, w': World, m: Move, t: nat, me: nat)
    requires MovedByOthers(w, w', t, me) && ByOther(m, t, me)
    ensures Sane(w') && MovedByOthers(w, WorldStep(w', m), t, me)
  {
    hide WorldStep, Sane, ByOther;
    var moves :| RunFrom(w, moves) == w' && forall i :: 0 <= i < |moves| ==> ByOther(moves[i], t, me);
    assert (moves + [m])[..|moves|] == moves;
    assert RunFrom(w, moves + [m]) == WorldStep(w', m);
  }

  lemma NobodyMoved(w: World, t: nat, me: nat)
    requires Sane(w)
    ensures MovedByOthers(w, w, t, me)
  {
    assert RunFrom(w, []) == w;
  }

  /** All that a resume of version `v` of task `t` does: it starts a writer with the answer, others
      move, and the writer's one write is answered at some moment. */
  ghost predicate AnswerMoves(w: World, w': World, t: nat, v: nat, answer: string, err: bool) {
    && Sane(w) && t < |w.tasks|
    && var me, heard := |w.tasks[t].ops|, WorldStep(w, Do(t, Hear(v, answer)));
       exists w1: World, outcome: Outcome, now: int ::
         && MovedByOthers(heard, w1, t, me) && Sane(w1)
         && w' == WorldStep(w1, Do(t, Answer(me, Wrote(outcome), now)))
         && err == !outcome.Stored?
  }

  lemma EvolvesStep(w: World, w': World, m: Move)
    requires Evolves(w, w')
    ensures Evolves(w, WorldStep(w', m))
  {
    StepSane(w', m);
    hide WorldStep, Sane;
    var moves :| RunFrom(w, moves) == w';
    assert (moves + [m])[..|moves|] == moves;
    assert RunFrom(w, moves + [m]) == WorldStep(w', m);
  }

  lemma EvolvesSelf(w: World)
    requires Sane(w)
    ensures Evolves(w, w)
  {
    assert RunFrom(w, []) == w;
  }

  lemma {:induction false} EvolvesTransitive(w: World, w': World, moves: seq<Move>)
    requires Evolves(w, w')
    ensures Evolves(w, RunFrom(w', moves))
  {
    if moves != [] {
      EvolvesTransitive(w, w', moves[..|moves| - 1]);
      hide Evolves, WorldStep;
      EvolvesStep(w, RunFrom(w', moves[..|moves| - 1]), moves[|moves| - 1]);
    }
  }

  lemma EvolvesChain(u: World, v: World, w: World)
    requires Evolves(u, v) && Evolves(v, w)
    ensures Evolves(u, w)
  {
    var moves :| RunFrom(v, moves) == w;
    EvolvesTransitive(u, v, moves);
  }

  /** Moves only add to the history of a task. */
  lemma {:induction false} RunGrows(w: World, moves: seq<Move>, t: nat)
    requires Sane(w) && t < |w.tasks|
    ensures var w' := RunFrom(w, moves);
            t < |w'.tasks| && w'.tasks[t].spec == w.tasks[t].spec && w.tasks[t].hist <= w'.tasks[t].hist
  {
    if moves != [] {
      hide Step, Consistent, ClaimsAfter, NewTask;
      var before, m := RunFrom(w, moves[..|moves| - 1]), moves[|moves| - 1];
      RunGrows(w, moves[..|moves| - 1], t);
      if m.Do? && m.task == t {
        HistoryGrows(before.tasks[t], m.action);
      }
    }
  }

  lemma EvolvesGrows(w: World, w': World, t: nat)
    requires Evolves(w, w') && t < |w.tasks|
    ensures t < |w'.tasks| && w'.tasks[t].spec == w.tasks[t].spec && w.tasks[t].hist <= w'.tasks[t].hist
  {
    var moves :| RunFrom(w, moves) == w';
    RunGrows(w, moves, t);
  }

  /** Writer `me` of task `t` exists, for specification `spec`, and is exactly `op`. */
  ghost predicate Has(w: World, t: nat, spec: Spec, me: nat, op: Op) {
    && WorldReachable(w) && Sane(w)
    && t < |w.tasks| && w.tasks[t].spec == spec
    && me < |w.tasks[t].ops| && w.tasks[t].ops[me] == op
  }

  /** Other writers leave a writer alone. */
  lemma OtherMove(w: World, m: Move, t: nat, spec: Spec, me: nat, op: Op)
    requires Has(w, t, spec, me, op) && ByOther(m, t, me)
    ensures Has(WorldStep(w, m), t, spec, me, op)
  {
    WorldReachableStep(w, m);
    StepSane(w, m);
    if m.Do? && m.task == t {
      OthersKeepWriter(w.tasks[t], m.action, me);
    }
    hide WorldReachable, Step, NewTask, Sane;
  }

  /** What an answer makes of the writer it is for. */
  function Answered(ts: TaskState, k: nat, r: Response, now: int): Op
    requires |ts.hist| > 0 && k < |ts.ops| && Fits(ts.spec, ts.ops[k], r)
  {
    var op := ts.ops[k];
    if IsWrite(op.stage) then
      AfterWrite(ts.spec, op, r.outcome.Stored?, now).(version :=
        if r.outcome.Stored? then |Step(ts, Answer(k, r, now)).hist| - 1 else op.version)
    else AfterCall(ts.spec, op, r, now)
  }

  lemma OwnMove(w: World, t: nat, spec: Spec, me: nat, op: Op, r: Response, now: int)
    requires Has(w, t, spec, me, op) && Enabled(w.tasks[t], Answer(me, r, now))
    requires Consistent(w.claims, w.tasks[t], Answer(me, r, now))
    ensures Has(WorldStep(w, Do(t, Answer(me, r, now))), t, spec, me, Answered(w.tasks[t], me, r, now))
  {
    var a := Answer(me, r, now);
    WorldReachableStep(w, Do(t, a));
    StepSane(w, Do(t, a));
    StepAnswers(w.tasks[t], me, r, now);
    hide Step, Enabled, WorldReachable, Consistent, Answered;
  }

  lemma StepAnswers(ts: TaskState, me: nat, r: Response, now: int)
    requires |ts.hist| > 0 && Enabled(ts, Answer(me, r, now))
    ensures var ts' := Step(ts, Answer(me, r, now));
            ts'.spec == ts.spec && me < |ts'.ops| && ts'.ops[me] == Answered(ts, me, r, now)
  {
    hide AfterWrite, AfterCall, Fits, KindOf, IsResume;
  }

  /** A write that is stored and reported holds the writer's copy as the newest version. */
  lemma StoredIsNewest(ts: TaskState, me: nat, r: Response, now: int)
    requires |ts.hist| > 0 && Enabled(ts, Answer(me, r, now)) && IsWrite(ts.ops[me].stage) && r.Wrote?
             && r.outcome.Stored?
    ensures var hist, op := Step(ts, Answer(me, r, now)).hist, Answered(ts, me, r, now);
            op.version + 1 == |hist| && hist[op.version] == ts.ops[me].st
  {
    hide AfterWrite, AfterCall, Fits;
  }

  /** The answer to a write: the writer's new version, and what that holds. */
  lemma OwnWrite(w: World, t: nat, spec: Spec, me: nat, op: Op, r: Response, now: int) returns (v: nat)
    requires Has(w, t, spec, me, op) && Enabled(w.tasks[t], Answer(me, r, now)) && IsWrite(op.stage)
    requires Consistent(w.claims, w.tasks[t], Answer(me, r, now))
    ensures r.Wrote?
    ensures var w' := WorldStep(w, Do(t, Answer(me, r, now)));
            && Has(w', t, spec, me, AfterWrite(spec, op, r.outcome.Stored?, now).(version := v))
            && (if r.outcome.Stored?
                then v + 1 == |w'.tasks[t].hist| && w'.tasks[t].hist[v] == op.st
                else v == op.version)
  {
    hide Step, Enabled, Consistent, WorldReachable, AfterWrite, Fits, Answered;
    OwnMove(w, t, spec, me, op, r, now);
    v := WriteAnswered(w.tasks[t], me, r, now);
  }

  lemma WriteAnswered(ts: TaskState, me: nat, r: Response, now: int) returns (v: nat)
    requires |ts.hist| > 0 && Enabled(ts, Answer(me, r, now)) && IsWrite(ts.ops[me].stage)
    ensures r.Wrote?
    ensures Answered(ts, me, r, now) == AfterWrite(ts.spec, ts.ops[me], r.outcome.Stored?, now).(version := v)
    ensures if r.outcome.Stored?
            then var hist := Step(ts, Answer(me, r, now)).hist; v + 1 == |hist| && hist[v] == ts.ops[me].st
            else v == ts.ops[me].version
  {
    WritesAreWritten(ts.spec, ts.ops[me], r);
    hide AfterWrite, AfterCall, Fits;
    v := Answered(ts, me, r, now).version;
    if r.outcome.Stored? {
      StoredIsNewest(ts, me, r, now);
    }
  }

  lemma OwnCall(w: World, t: nat, spec: Spec, me: nat, op: Op, r: Response, now: int)
    requires Has(w, t, spec, me, op) && Enabled(w.tasks[t], Answer(me, r, now)) && !IsWrite(op.stage)
    requires Consistent(w.claims, w.tasks[t], Answer(me, r, now))
    ensures Fits(spec, op, r)
    ensures Has(WorldStep(w, Do(t, Answer(me, r, now))), t, spec, me, AfterCall(spec, op, r, now))
  {
    hide Step, Consistent, WorldReachable, AfterCall, Fits;
    OwnMove(w, t, spec, me, op, r, now);
  }

  /** The API server, the sandbox operator, GitHub and the clock. */
  class Cluster {
    var world: World
    var now: int
    const decode: Decoder

    /** Writer `me` of `task`'s record waits as `op`. */
    ghost predicate Waits(task: ClaudeTask, me: nat, op: Op)
      reads this
    {
      Has(world, task.name, task.spec, me, op)
    }

    /** Time passes and other writers move. */
    method Interfere(ghost t: nat, ghost spec: Spec, t': nat, me: nat, ghost op: Op)
      requires t == t' && Has(world, t, spec, me, op)
      modifies this
      ensures Has(world, t, spec, me, op) && Evolves(old(world), world) && now >= old(now)
      ensures MovedByOthers(old(world), world, t, me)
    {
      hide Has, Evolves, MovedByOthers, WorldStep;
      EvolvesHere(t, spec, me, op);
      HasSane(t, spec, me, op);
      NobodyMoved(world, t, me);
      var moves: seq<Move> := *;
      var later: int := *;
      if later > now {
        now := later;
      }
      var i := 0;
      while i < |moves|
        invariant Has(world, t, spec, me, op)
        invariant Evolves(old(world), world)
        invariant MovedByOthers(old(world), world, t, me)
        invariant now >= old(now)
      {
        if ByOther(moves[i], t', me) {
          HasSane(t, spec, me, op);
          OtherMove(world, moves[i], t, spec, me, op);
          EvolvesStep(old(world), world, moves[i]);
          OthersMove(old(world), world, moves[i], t, me);
          world := WorldStep(world, moves[i]);
        }
        i := i + 1;
      }
    }

    lemma EvolvesHere(t: nat, spec: Spec, me: nat, op: Op)
      requires Has(world, t, spec, me, op)
      ensures Evolves(world, world)
    {
      EvolvesSelf(world);
    }

    lemma HasSane(t: nat, spec: Spec, me: nat, op: Op)
      requires Has(world, t, spec, me, op)
      ensures Sane(world)
    {
    }

    /** Version `v` of task `t` is the newest and holds `st`. */
    ghost predicate NewestIs(t: nat, v: nat, st: Status)
      reads this
    {
      t < |world.tasks| && v + 1 == |world.tasks[t].hist| && world.tasks[t].hist[v] == st
    }

    /** Answers that do not depend on the state of the store or on the claims. */
    static predicate AlwaysPossible(r: Response) {
      || r.Token? || r.Posted? || r.Sandbox? || r.Ran? || r.Deleted? || r.ClaimError?
      || (r.Wrote? && r.outcome.Refused?)
    }

    /** Writer `me`, which waited as `op`, has got the answer to its write. */
    ghost predicate Written(task: ClaudeTask, me: nat, op: Op, r: Response)
      requires IsWrite(op.stage)
      reads this
    {
      r.Wrote? && exists v: nat :: WrittenAt(task, me, op, r.outcome, v)
    }

    ghost predicate WrittenAt(task: ClaudeTask, me: nat, op: Op, outcome: Outcome, v: nat)
      requires IsWrite(op.stage)
      reads this
    {
      && Waits(task, me, AfterWrite(task.spec, op, outcome.Stored?, now).(version := v))
      && (if outcome.Stored? then NewestIs(task.name, v, op.st) else v == op.version)
    }

    /** Interference, then the answer `r` to writer `me`, if it is possible at that moment. */
    method Respond(task: ClaudeTask, me: nat, r: Response, ghost op: Op) returns (ok: bool)
      requires Waits(task, me, op) && Fits(task.spec, op, r)
      modifies this
      ensures Evolves(old(world), world) && now >= old(now)
      ensures !ok ==> Waits(task, me, op)
      ensures ok && !IsWrite(op.stage) ==> Waits(task, me, AfterCall(task.spec, op, r, now))
      ensures ok && IsWrite(op.stage) ==> Written(task, me, op, r)
      ensures AlwaysPossible(r) ==> ok
    {
      hide MovedByOthers, Evolves, WorldReachable, Step, Answered, AfterWrite, AfterCall, Enabled, Consistent;
      Interfere(task.name, task.spec, task.name, me, op);
      var ts := world.tasks[task.name];
      var a := Answer(me, r, now);
      ok := Enabled(ts, a) && Consistent(world.claims, ts, a);
      if ok {
        ghost var v := 0;
        if IsWrite(op.stage) {
          v := OwnWrite(world, task.name, task.spec, me, op, r, now);
        } else {
          OwnCall(world, task.name, task.spec, me, op, r, now);
        }
        EvolvesStep(old(world), world, Do(task.name, a));
        hide WorldStep, Has;
        world := WorldStep(world, Do(task.name, a));
        if IsWrite(op.stage) {
          assert WrittenAt(task, me, op, r.outcome, v);
        }
      } else {
        PossibleAnswers(ts, world.claims, me, r, now);
      }
    }

    lemma PossibleAnswers(ts: TaskState, claims: set<string>, me: nat, r: Response, now: int)
      requires me < |ts.ops| && Fits(ts.spec, ts.ops[me], r)
      ensures AlwaysPossible(r) ==>
                Enabled(ts, Answer(me, r, now)) && Consistent(claims, ts, Answer(me, r, now))
    {
      hide Fits, SplitRepository, ClaimNameOf;
    }

    /** Get: a copy of some committed version, and a new writer that is based on it. */
    method Get(name: nat) returns (task: ClaudeTask, me: nat)
      requires WorldReachable(world) && name < |world.tasks|
      modifies this
      ensures fresh(task) && (task.costReport != null ==> fresh(task.costReport))
      ensures task.name == name && me == |old(world).tasks[name].ops|
      ensures now == old(now) && Evolves(old(world), world)
      ensures Waits(task, me, Dispatch(task.spec, Op(task.resourceVersion, task.View(), Finished, None), now))
    {
      RunsSane(world);
      var ts := world.tasks[name];
      var v: int := *;
      if v < 0 || v >= |ts.hist| {
        v := |ts.hist| - 1;
      }
      task := new ClaudeTask(name, ts.spec, v, ts.hist[v]);
      me := |ts.ops|;
      var m := Do(name, Read(v, now));
      WorldReachableStep(world, m);
      EvolvesSelf(world);
      EvolvesStep(world, world, m);
      hide Dispatch, WorldReachable, Evolves;
      world := WorldStep(world, m);
    }

    /** Status().Update: on success the copy gets the new version. */
    method UpdateStatus(task: ClaudeTask, me: nat, ghost op: Op) returns (err: bool)
      requires Waits(task, me, op) && IsWrite(op.stage)
      requires op.st == task.View() && op.version == task.resourceVersion
      modifies this, task`resourceVersion
      ensures Evolves(old(world), world)
      ensures Waits(task, me, AfterWrite(task.spec, op, !err, now).(version := task.resourceVersion))
      ensures err ==> task.resourceVersion == old(task.resourceVersion)
      ensures !err ==> NewestIs(task.name, task.resourceVersion, task.View())
    {
      hide Evolves, AfterWrite, AfterCall, WorldReachable;
      var outcome: Outcome := *;
      var ok := Respond(task, me, Wrote(outcome), op);
      ghost var w1 := world;
      if !ok {
        outcome := Refused;
        ok := Respond(task, me, Wrote(Refused), op);
        EvolvesChain(old(world), w1, world);
      }
      err := !outcome.Stored?;
      if !err {
        task.resourceVersion := world.tasks[task.name].ops[me].version;
      }
    }

    method CreateClaim(task: ClaudeTask, me: nat, name: string, ghost op: Op) returns (err: CreateError)
      requires Waits(task, me, op) && op.stage.Claiming? && Fits(task.spec, op, Created)
               && name == ClaimNameOf(task.spec)
      modifies this
      ensures Evolves(old(world), world)
      ensures Waits(task, me, if err.OtherError? then Go(op, Finished) else AfterCall(task.spec, op, Created, now))
    {
      hide Evolves, WorldReachable, ClaimNameOf, SplitRepository;
      var ok := Respond(task, me, Created, op);
      err := NoError;
      if !ok {
        ghost var w1 := world;
        ok := Respond(task, me, AlreadyExists, op);
        EvolvesChain(old(world), w1, world);
        err := IsAlreadyExists;
      }
      if !ok {
        ghost var w2 := world;
        var applied: bool := *;
        ok := Respond(task, me, ClaimError(applied), op);
        EvolvesChain(old(world), w2, world);
        err := OtherError;
      }
    }

    method DeleteClaim(task: ClaudeTask, me: nat, name: string, ghost op: Op)
      requires Waits(task, me, op) && op.stage.Releasing? && name == op.st.claimName
      modifies this
      ensures Evolves(old(world), world)
      ensures Waits(task, me, Go(op, Finished))
    {
      hide Evolves, WorldReachable;
      var applied: bool := *;
      var ok := Respond(task, me, Deleted(applied), op);
    }

    method WaitForReady(task: ClaudeTask, me: nat, claimName: string, ghost op: Op) returns (pod: Option<string>)
      requires Waits(task, me, op) && op.stage.AwaitingSandbox? && claimName == op.st.claimName
      modifies this
      ensures Evolves(old(world), world)
      ensures Waits(task, me, AfterCall(task.spec, op, Sandbox(pod), now))
    {
      hide Evolves, WorldReachable, AfterCall;
      var ready: bool := *;
      var name: string := *;
      pod := if ready then Some(name) else None;
      var ok := Respond(task, me, Sandbox(pod), op);
    }

    method GetCloneToken(task: ClaudeTask, me: nat, ghost op: Op) returns (ok: bool)
      requires Waits(task, me, op) && op.stage.FetchingToken?
      modifies this
      ensures Evolves(old(world), world)
      ensures Waits(task, me, AfterCall(task.spec, op, Token(ok), now))
    {
      hide Evolves, WorldReachable, AfterCall;
      ok := *;
      var done := Respond(task, me, Token(ok), op);
    }

    /** execInPod: any output and any error, but only an error without output for an empty name. */
    method Exec(task: ClaudeTask, me: nat, podName: string, isResume: bool, ghost op: Op)
      returns (output: string, failed: bool)
      requires Waits(task, me, op) && op.stage.Executing?
      requires podName == op.st.podName && isResume == IsResume(op.st)
      modifies this
      ensures Evolves(old(world), world)
      ensures var (cr, text) := Parsed(output, decode);
              Waits(task, me, AfterRun(op, cr, text, failed, now))
    {
      hide Evolves, WorldReachable, AfterRun;
      output, failed := *, *;
      if podName == "" {
        output, failed := "", true;
      }
      var (cr, text) := Parsed(output, decode);
      var ok := Respond(task, me, Ran(cr, text, failed), op);
    }

    /** commentOnTask: whether the comment appears is not known to the caller. */
    method CommentOnTask(task: ClaudeTask, me: nat, kind: CommentKind, ghost op: Op)
      requires Waits(task, me, op) && IsPost(op.stage) && kind == KindOf(op.stage, op.st)
      modifies this
      ensures Evolves(old(world), world)
      ensures Waits(task, me, AfterCall(task.spec, op, Posted(true), now))
    {
      hide Evolves, WorldReachable;
      var shown: bool := *;
      var ok := Respond(task, me, Posted(shown), op);
    }

    /** `item` is a copy of a committed version of its task. */
    ghost predicate Listed(item: ClaudeTask)
      reads this, item, item.costReport
    {
      && item.name < |world.tasks| && item.spec == world.tasks[item.name].spec
      && item.resourceVersion < |world.tasks[item.name].hist|
      && item.View() == world.tasks[item.name].hist[item.resourceVersion]
    }

    /** List: copies of possibly old versions of some tasks, each at most once, in any order. */
    method List() returns (items: seq<ClaudeTask>)
      requires WorldReachable(world)
      ensures forall i :: 0 <= i < |items| ==>
                fresh(items[i]) && (items[i].costReport != null ==> fresh(items[i].costReport)) && Listed(items[i])
      ensures forall i, j :: 0 <= i < j < |items| ==> items[i].name != items[j].name
    {
      RunsSane(world);
      items := [];
      var wanted: seq<(int, int)> := *;
      var names: set<int> := {};
      for k := 0 to |wanted|
        invariant forall i :: 0 <= i < |items| ==>
                    fresh(items[i]) && (items[i].costReport != null ==> fresh(items[i].costReport))
                    && Listed(items[i]) && items[i].name in names
        invariant forall i, j :: 0 <= i < j < |items| ==> items[i].name != items[j].name
      {
        var (n, v) := wanted[k];
        if 0 <= n < |world.tasks| && 0 <= v < |world.tasks[n].hist| && n !in names {
          var item := new ClaudeTask(n, world.tasks[n].spec, v, world.tasks[n].hist[v]);
          items := items + [item];
          names := names + {n};
        }
      }
    }

    /** Status().Update by a webhook that has put an answer into its copy. */
    method UpdateAnswered(task: ClaudeTask, answer: string, ghost before: Status) returns (err: bool)
      requires WorldReachable(world) && task.name < |world.tasks| && task.spec == world.tasks[task.name].spec
      requires var hist := world.tasks[task.name].hist;
               task.resourceVersion < |hist| && hist[task.resourceVersion] == before
      requires before.phase.WaitingForClarification? && answer != ""
      requires task.View() == before.(phase := Running, clarifications := WithAnswer(before.clarifications, answer))
      modifies this, task`resourceVersion
      ensures WorldReachable(world) && Evolves(old(world), world) && task.name < |world.tasks|
      ensures err ==> task.resourceVersion == old(task.resourceVersion)
      ensures !err ==> var hist, v := world.tasks[task.name].hist, task.resourceVersion;
                       v == old(task.resourceVersion) + 1 < |hist| && hist[v - 1] == before && hist[v] == task.View()
      ensures world.tasks[task.name].spec == task.spec
      ensures AnswerMoves(old(world), world, task.name, old(task.resourceVersion), answer, err)
    {
      hide MovedByOthers, Has, WorldReachable, Evolves, WorldStep, Step, Enabled, WithAnswer;
      RunsSane(world);
      ghost var w0 := world;
      var ts := world.tasks[task.name];
      var v := task.resourceVersion;
      var me := |ts.ops|;
      var m := Do(task.name, Hear(v, answer));
      ghost var op := Op(v, task.View(), Resuming, None);
      HearStarts(world, task.name, v, answer, op);
      world := WorldStep(world, m);
      ghost var w1 := world;
      Interfere(task.name, task.spec, task.name, me, op);
      EvolvesChain(w0, w1, world);
      EvolvesGrows(w0, world, task.name);
      ghost var w2 := world;
      ghost var stored, at;
      err, stored, at := StoreAnswered(task, me, op, before);
      EvolvesChain(w0, w2, world);
      EvolvesGrows(w0, world, task.name);
    }

    /** A webhook becomes a writer with its answered copy. */
    lemma HearStarts(w: World, t: nat, v: nat, answer: string, op: Op)
      requires WorldReachable(w) && Sane(w) && t < |w.tasks| && v < |w.tasks[t].hist|
      requires w.tasks[t].hist[v].phase.WaitingForClarification? && answer != ""
      requires var st := w.tasks[t].hist[v];
               op == Op(v, st.(phase := Running, clarifications := WithAnswer(st.clarifications, answer)), Resuming,
                   None)
      ensures var w' := WorldStep(w, Do(t, Hear(v, answer)));
              && Has(w', t, w.tasks[t].spec, |w.tasks[t].ops|, op) && w'.tasks[t].hist == w.tasks[t].hist
              && Evolves(w, w')
    {
      hide WorldReachable, Evolves, WithAnswer;
      var m := Do(t, Hear(v, answer));
      WorldReachableStep(w, m);
      EvolvesSelf(w);
      EvolvesStep(w, w, m);
      StepSane(w, m);
      assert Enabled(w.tasks[t], m.action);
    }

    lemma ResumeStep(ts: TaskState, me: nat, outcome: Outcome, now: int, before: Status)
      requires me < |ts.ops| && ts.ops[me].stage.Resuming? && ts.ops[me].version < |ts.hist|
      requires ts.hist[ts.ops[me].version] == before && before.phase != ts.ops[me].st.phase
      requires Applies(outcome) ==> ts.ops[me].version + 1 == |ts.hist|
      ensures var ts' := Step(ts, Answer(me, Wrote(outcome), now));
              && Enabled(ts, Answer(me, Wrote(outcome), now)) && me < |ts'.ops|
              && (outcome.Stored? ==> ts'.hist == ts.hist + [ts.ops[me].st] && ts'.ops[me].version == |ts.hist|)
    {
      hide AfterWrite;
    }

    /** The compare-and-swap itself. */
    method StoreAnswered(task: ClaudeTask, me: nat, ghost op: Op, ghost before: Status)
      returns (err: bool, ghost stored: Outcome, ghost at: int)
      requires Waits(task, me, op) && op.stage.Resuming? && op.version == task.resourceVersion && op.st == task.View()
      requires var hist := world.tasks[task.name].hist;
               op.version < |hist| && hist[op.version] == before && before.phase != op.st.phase
      modifies this, task`resourceVersion
      ensures WorldReachable(world) && Evolves(old(world), world) && task.name < |world.tasks|
      ensures err ==> task.resourceVersion == old(task.resourceVersion)
      ensures !err ==> var hist, v := world.tasks[task.name].hist, task.resourceVersion;
                       v == old(task.resourceVersion) + 1 < |hist| && hist[v - 1] == before && hist[v] == task.View()
      ensures Sane(old(world))
      ensures err == !stored.Stored? && world == WorldStep(old(world), Do(task.name, Answer(me, Wrote(stored), at)))
    {
      hide Step, Enabled, AfterWrite, WorldReachable, Evolves;
      var outcome: Outcome := *;
      var ts := world.tasks[task.name];
      if Applies(outcome) && ts.ops[me].version + 1 != |ts.hist| {
        outcome := Refused;
      }
      var m := Do(task.name, Answer(me, Wrote(outcome), now));
      WorldReachableStep(world, m);
      EvolvesSelf(world);
      EvolvesStep(world, world, m);
      ResumeStep(ts, me, outcome, now, before);
      world := WorldStep(world, m);
      err := !outcome.Stored?;
      if !err {
        task.resourceVersion := world.tasks[task.name].ops[me].version;
      }
      stored, at := outcome, now;
    }

    /** Create: a new task, unless there is an error. */
    method CreateTask(spec: Spec) returns (ok: bool)
      requires WorldReachable(world)
      modifies this
      ensures WorldReachable(world) && Evolves(old(world), world)
      ensures world == WorldStep(old(world), Create(spec)) || (!ok && world == old(world))
    {
      RunsSane(world);
      EvolvesSelf(world);
      ok := *;
      var applied: bool := *;
      if ok || applied {
        WorldReachableStep(world, Create(spec));
        EvolvesStep(world, world, Create(spec));
        hide WorldReachable, Evolves, NewTask;
        world := WorldStep(world, Create(spec));
      }
    }
  }

  datatype CreateError = NoError | IsAlreadyExists | OtherError
}
