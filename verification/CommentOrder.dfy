/** When the comments of a task appear in the order of the changes they report: exactly when no
    reconcile starts while a comment of a live task is still to be posted. */
module CommentOrder {
  import opened Options
  import opened Tasks
  import opened Protocol
  import opened Lifecycle
  import opened Comments

  ghost predicate InOrder(comments: seq<Comment>) {
    forall i, j :: 0 <= i < j < |comments| ==> comments[i].version < comments[j].version
  }

  /** Some writer has stored its change but not posted its comment yet. */
  predicate HasPoster(ts: TaskState) {
    exists k :: 0 <= k < |ts.ops| && IsPost(ts.ops[k].stage)
  }

  /** A comment is outstanding and the task is not over. A scheduler can look this up. */
  predicate Outstanding(ts: TaskState)
    requires |ts.hist| > 0
  {
    HasPoster(ts) && !ts.hist[|ts.hist| - 1].phase.IsTerminal()
  }

  /** A scheduler that starts no reconcile while a comment of a live task is outstanding. Webhooks
      are not held up, and reconciles may overlap otherwise. */
  function GatedStep(ts: TaskState, a: Action): TaskState
    requires |ts.hist| > 0
  {
    if a.Read? && Outstanding(ts) then ts else Step(ts, a)
  }

  function GatedRun(ts: TaskState, acts: seq<Action>): (ts': TaskState)
    requires |ts.hist| > 0
    ensures |ts'.hist| > 0
  {
    if acts == [] then ts
    else GatedStep(GatedRun(ts, acts[..|acts| - 1]), acts[|acts| - 1])
  }

  /** The writer may still store or post, on its own account. */
  predicate Rival(op: Op) {
    !op.stage.Finished? && !op.stage.Resuming? && !op.stage.Releasing?
  }

  /** A poster is newer than every comment and than every rival, and a terminal version after it is
      impossible. */
  ghost predicate OrderInv(ts: TaskState) {
    && InOrder(ts.comments)
    && (forall i :: 0 <= i < |ts.comments| ==> ts.comments[i].version < |ts.hist|)
    && (forall k :: 0 <= k < |ts.ops| ==> ts.ops[k].version < |ts.hist|)
    && (forall k, i :: 0 <= k < |ts.ops| && IsPost(ts.ops[k].stage) && 0 <= i < |ts.comments| ==>
          ts.comments[i].version < ts.ops[k].version)
    && (forall j, k ::
          0 <= j < |ts.ops| && 0 <= k < |ts.ops| && j != k && IsPost(ts.ops[k].stage) && Rival(ts.ops[j]) ==>
          ts.ops[j].version < ts.ops[k].version)
    && (forall k, v :: 0 <= k < |ts.ops| && IsPost(ts.ops[k].stage) && ts.ops[k].version < v < |ts.hist| ==>
          !ts.hist[v].phase.IsTerminal())
  }

  lemma PosterIsRival(op: Op)
    ensures IsPost(op.stage) ==> Rival(op)
    ensures IsWrite(op.stage) ==> !IsPost(op.stage) && (Rival(op) || op.stage.Resuming?)
  {
  }

  /** There is one poster at most. */
  lemma OnePoster(ts: TaskState, j: nat, k: nat)
    requires OrderInv(ts) && j < |ts.ops| && k < |ts.ops| && IsPost(ts.ops[j].stage) && IsPost(ts.ops[k].stage)
    ensures j == k
  {
    hide IsPost, Rival;
    PosterIsRival(ts.ops[j]);
    PosterIsRival(ts.ops[k]);
  }

  /** A writer moves on without a comment. */
  lemma ReplacingKeepsOrder(ts: TaskState, k: nat, op': Op)
    requires OrderInv(ts) && k < |ts.ops| && op'.version == ts.ops[k].version
    requires !IsPost(op'.stage) && (Rival(op') ==> Rival(ts.ops[k]))
    ensures OrderInv(ts.(ops := ts.ops[k := op']))
  {
    hide IsPost, Rival;
  }

  /** The only writer that can commit beside a poster is a webhook's. */
  lemma CommitterBesidePoster(ts: TaskState, k: nat, m: nat)
    requires OrderInv(ts) && k < |ts.ops| && m < |ts.ops| && IsPost(ts.ops[m].stage)
    requires IsWrite(ts.ops[k].stage) && ts.ops[k].version + 1 == |ts.hist|
    ensures ts.ops[k].stage.Resuming?
  {
    PosterIsRival(ts.ops[k]);
    hide IsPost, Rival;
  }

  /** A writer commits: what it will report is the newest version. */
  lemma StoringKeepsOrder(ts: TaskState, k: nat, op': Op, c: Commit)
    requires OrderInv(ts) && k < |ts.ops| && op'.version <= |ts.hist|
    requires IsWrite(ts.ops[k].stage) && ts.ops[k].version + 1 == |ts.hist|
    requires (IsPost(op'.stage) ==> op'.version == |ts.hist|) && (Rival(op') ==> Rival(ts.ops[k]))
    requires ts.ops[k].stage.Resuming? ==> !IsPost(op'.stage) && !ts.ops[k].st.phase.IsTerminal()
    ensures OrderInv(ts.(hist := ts.hist + [ts.ops[k].st], commits := ts.commits + [c], ops := ts.ops[k := op']))
  {
    assert ts.ops[k].stage.Resuming? ==> !Rival(ts.ops[k]);
    forall m | 0 <= m < |ts.ops| && IsPost(ts.ops[m].stage) ensures ts.ops[k].stage.Resuming? {
      CommitterBesidePoster(ts, k, m);
    }
    hide IsPost, Rival, IsWrite;
  }

  /** The only poster comments. */
  lemma PostingKeepsOrder(ts: TaskState, k: nat, op': Op, kind: CommentKind)
    requires OrderInv(ts) && k < |ts.ops| && op'.version == ts.ops[k].version && IsPost(ts.ops[k].stage)
    requires !IsPost(op'.stage)
    ensures OrderInv(ts.(ops := ts.ops[k := op'], comments := ts.comments + [Comment(k, ts.ops[k].version, kind)]))
  {
    forall m | 0 <= m < |ts.ops| && IsPost(ts.ops[m].stage) ensures m == k {
      OnePoster(ts, m, k);
    }
    hide IsPost, Rival;
  }

  lemma WriteKeepsOrder(ts: TaskState, k: nat, outcome: Outcome, now: int)
    requires Inv(ts) && OrderInv(ts) && k < |ts.ops| && IsWrite(ts.ops[k].stage)
    requires Applies(outcome) ==> ts.ops[k].version + 1 == |ts.hist|
    ensures OrderInv(StepWrite(ts, k, outcome, now))
  {
    hide Inv, OrderInv, Good, OpOk, AfterWrite, Reports, KindOf, IsPost, Rival;
    var op := ts.ops[k];
    WriterBase(ts, k);
    if op.stage.Resuming? {
      ResumingRuns(ts.spec, ts.hist[op.version], op);
    }
    var ts' := StepWrite(ts, k, outcome, now);
    WriteLeadsToComment(ts.spec, ts.hist[op.version], op, now);
    AfterWriteRivals(ts.spec, op, outcome.Stored?, now, ts'.ops[k].version);
    if Applies(outcome) && op.st != ts.hist[|ts.hist| - 1] {
      StoringKeepsOrder(ts, k, ts'.ops[k], Commit(k, op.ran));
    } else {
      ReplacingKeepsOrder(ts, k, ts'.ops[k]);
    }
  }

  lemma ResumingRuns(spec: Spec, b: Status, op: Op)
    requires OpOk(spec, b, op) && op.stage.Resuming?
    ensures op.st.phase.Running?
  {
  }

  lemma AfterWriteRivals(spec: Spec, op: Op, ok: bool, now: int, version: nat)
    requires IsWrite(op.stage)
    ensures var op' := AfterWrite(spec, op, ok, now).(version := version);
            && (Rival(op') ==> Rival(op)) && (op.stage.Resuming? ==> !IsPost(op'.stage))
  {
    hide SplitRepository, MaxRounds;
  }

  lemma CallKeepsOrder(ts: TaskState, k: nat, r: Response, now: int)
    requires OrderInv(ts) && k < |ts.ops| && Fits(ts.spec, ts.ops[k], r) && !IsWrite(ts.ops[k].stage)
    ensures OrderInv(StepCall(ts, k, r, now))
  {
    CallNeverPosts(ts.spec, ts.ops[k], r, now);
    CallKeepsVersion(ts.spec, ts.ops[k], r, now);
    ReleasingEnds(ts.spec, ts.ops[k], r, now);
    hide AfterCall, KindOf, Fits, OrderInv, Rival, IsPost, IsResume;
    var op := ts.ops[k];
    var ts' := StepCall(ts, k, r, now);
    if r.Posted? && r.shown && IsPost(op.stage) {
      PostingKeepsOrder(ts, k, ts'.ops[k], KindOf(op.stage, op.st));
    } else {
      ReplacingKeepsOrder(ts, k, ts'.ops[k]);
      OrderIgnoresExecs(ts.(ops := ts'.ops), ts'.execs);
    }
  }

  lemma ReleasingEnds(spec: Spec, op: Op, r: Response, now: int)
    requires Fits(spec, op, r) && !IsWrite(op.stage)
    ensures Rival(AfterCall(spec, op, r, now)) ==> Rival(op)
  {
    hide SplitRepository, ClaimNameOf, AfterRun;
  }

  lemma OrderIgnoresExecs(ts: TaskState, execs: seq<Exec>)
    requires OrderInv(ts)
    ensures OrderInv(ts.(execs := execs))
  {
    hide IsPost, Rival;
  }

  /** What `Read` and `Hear` start. */
  lemma NewWriter(ts: TaskState, a: Action)
    requires (a.Read? || a.Hear?) && Enabled(ts, a)
    ensures var op := NewOp(ts, a);
            && op.version == a.version && !IsPost(op.stage) && (a.Hear? ==> !Rival(op))
            && (ts.hist[a.version].phase.IsTerminal() ==> !Rival(op))
  {
    hide SplitRepository;
  }

  /** A new writer is older than the poster, or no rival. */
  lemma NewKeepsOrder(ts: TaskState, a: Action)
    requires OrderInv(ts) && (a.Read? || a.Hear?) && |ts.hist| > 0 && Enabled(ts, a) && (a.Read? ==> !Outstanding(ts))
    ensures OrderInv(ts.(ops := ts.ops + [NewOp(ts, a)]))
  {
    NewWriter(ts, a);
    hide NewOp, IsPost, Rival;
  }

  lemma CrashKeepsOrder(ts: TaskState, k: nat)
    requires OrderInv(ts) && k < |ts.ops|
    ensures OrderInv(ts.(ops := ts.ops[k := ts.ops[k].(stage := Finished)]))
  {
    hide OrderInv;
    ReplacingKeepsOrder(ts, k, ts.ops[k].(stage := Finished));
  }

  lemma AnswerKeepsOrder(ts: TaskState, k: nat, r: Response, now: int)
    requires Inv(ts) && OrderInv(ts) && |ts.hist| > 0 && Enabled(ts, Answer(k, r, now))
    ensures OrderInv(Step(ts, Answer(k, r, now)))
  {
    hide Inv, OrderInv, StepWrite, StepCall, AfterWrite, AfterCall, ClaimNameOf;
    if IsWrite(ts.ops[k].stage) {
      assert r.Wrote?;
      WriteKeepsOrder(ts, k, r.outcome, now);
    } else {
      CallKeepsOrder(ts, k, r, now);
    }
  }

  lemma StepKeepsOrder(ts: TaskState, a: Action)
    requires Inv(ts) && OrderInv(ts) && |ts.hist| > 0
    ensures Inv(GatedStep(ts, a)) && OrderInv(GatedStep(ts, a))
  {
    hide Inv, OrderInv, StepWrite, StepCall, Fits, NewOp, HasPoster;
    StepKeepsInv(ts, a);
    if Enabled(ts, a) && !(a.Read? && Outstanding(ts)) {
      match a
      case Answer(k, r, now) => AnswerKeepsOrder(ts, k, r, now);
      case Crash(k) => CrashKeepsOrder(ts, k);
      case _ => NewKeepsOrder(ts, a);
    }
  }

  lemma {:induction false} GatedRunOrdered(ts: TaskState, acts: seq<Action>)
    requires Inv(ts) && OrderInv(ts)
    ensures Inv(GatedRun(ts, acts)) && OrderInv(GatedRun(ts, acts))
  {
    assert |ts.hist| > 0;
    hide Inv, OrderInv, GatedStep;
    if acts != [] {
      var before := acts[..|acts| - 1];
      GatedRunOrdered(ts, before);
      StepKeepsOrder(GatedRun(ts, before), acts[|acts| - 1]);
    }
  }

  lemma FreshOrdered(ts: TaskState)
    requires IsFresh(ts)
    ensures Inv(ts) && OrderInv(ts)
  {
    FreshInv(ts);
    hide Inv;
  }

  /** When no reconcile starts while a comment of a live task is outstanding, comments appear in the
      order of the changes they report, whatever else overlaps. */
  lemma GatedCommentsInOrder(ts: TaskState, acts: seq<Action>)
    requires IsFresh(ts)
    ensures InOrder(GatedRun(ts, acts).comments)
  {
    FreshOrdered(ts);
    GatedRunOrdered(ts, acts);
  }

  // ---------- the other half: one reconcile too many ----------

  /** Refuse the sandbox or the token that the writer waits for, if it does. */
  function Denial(op: Op, j: nat, now: int): seq<Action> {
    match op.stage
    case AwaitingSandbox => [Answer(j, Sandbox(None), now)]
    case FetchingToken => [Answer(j, Token(false), now)]
    case _ => []
  }

  /** A moment at which a reconcile of the status does something. */
  function LateNow(st: Status): int {
    if st.startTime.Some? then st.startTime.value + CLARIFICATION_WAIT_TIMEOUT + 1 else 0
  }

  /** Writer `k` is overtaken by a new reconcile that fails. */
  function Overtaking(ts: TaskState, k: nat): seq<Action>
    requires |ts.hist| > 0
  {
    var last := |ts.hist| - 1;
    var now, j := LateNow(ts.hist[last]), |ts.ops|;
    [Read(last, now)] + Denial(Dispatch(ts.spec, Op(last, ts.hist[last], Finished, None), now), j, now)
    + [Answer(j, Wrote(Stored), now), Answer(j, Posted(true), now), Answer(k, Posted(true), now)]
  }

  /** The new reconcile is about to store its failure. */
  ghost predicate FailsNext(ts: TaskState, ts': TaskState) {
    && |ts.hist| > 0 && ts'.spec == ts.spec && ts'.hist == ts.hist && ts'.comments == ts.comments
    && |ts'.ops| == |ts.ops| + 1 && ts'.ops[..|ts.ops|] == ts.ops
    && SplitRepository(ts.spec.repository).Some?
    && var op := ts'.ops[|ts.ops|];
       op.stage.Failing? && op.version + 1 == |ts.hist| && op.st.phase.Failed?
  }

  /** A reconcile of a live task can be made to fail. */
  lemma LiveCanFail(ts: TaskState)
    requires |ts.hist| > 0 && ts.hist[|ts.hist| - 1].phase.IsLive()
    requires ts.hist[|ts.hist| - 1].startTime.Some? && ts.hist[|ts.hist| - 1].claimName != ""
    requires SplitRepository(ts.spec.repository).Some?
    ensures var last, now := |ts.hist| - 1, LateNow(ts.hist[|ts.hist| - 1]);
            var started := Step(ts, Read(last, now));
            var denial := Denial(Dispatch(ts.spec, Op(last, ts.hist[last], Finished, None), now), |ts.ops|, now);
            && |denial| <= 1
            && (denial == [] ==> FailsNext(ts, started))
            && (denial != [] ==> FailsNext(ts, Step(started, denial[0])) && !denial[0].Read?)
  {
    hide SplitRepository, AfterRun;
  }

  /** It stores and posts its failure, and then writer `k` posts what it has to say. */
  lemma OvertakenPosts(ts: TaskState, f: TaskState, k: nat, now: int)
    requires FailsNext(ts, f) && k < |ts.ops| && IsPost(ts.ops[k].stage)
    requires !ts.hist[|ts.hist| - 1].phase.IsTerminal()
    ensures var j := |ts.ops|;
            var stored := Step(f, Answer(j, Wrote(Stored), now));
            var posted := Step(stored, Answer(j, Posted(true), now));
            Step(posted, Answer(k, Posted(true), now)).comments ==
              ts.comments + [Comment(j, |ts.hist|, FailureComment),
                             Comment(k, ts.ops[k].version, KindOf(ts.ops[k].stage, ts.ops[k].st))]
  {
    hide SplitRepository, AfterRun, KindOf;
    var j := |ts.ops|;
    assert f.ops[k] == ts.ops[k] by {
      assert f.ops[..|ts.ops|][k] == f.ops[k];
    }
    StoresFailure(ts, f, now);
    var stored := Step(f, Answer(j, Wrote(Stored), now));
    hide FailsNext;
    PostsFailure(stored, j, now);
    hide Step;
    Posts(Step(stored, Answer(j, Posted(true), now)), k, now);
  }

  lemma StoresFailure(ts: TaskState, f: TaskState, now: int)
    requires FailsNext(ts, f) && !ts.hist[|ts.hist| - 1].phase.IsTerminal()
    ensures var stored, j := Step(f, Answer(|ts.ops|, Wrote(Stored), now)), |ts.ops|;
            && |stored.ops| == |ts.ops| + 1 && stored.ops[j].stage.PostingFailure? && stored.ops[j].version == |ts.hist|
            && stored.comments == ts.comments && (forall i :: 0 <= i < j ==> stored.ops[i] == f.ops[i])
            && stored.spec == ts.spec
  {
    hide SplitRepository;
  }

  lemma PostsFailure(stored: TaskState, j: nat, now: int)
    requires |stored.hist| > 0 && j < |stored.ops| && stored.ops[j].stage.PostingFailure?
    ensures var posted := Step(stored, Answer(j, Posted(true), now));
            && posted.comments == stored.comments + [Comment(j, stored.ops[j].version, FailureComment)]
            && |posted.ops| == |stored.ops|
            && (forall i :: 0 <= i < |stored.ops| && i != j ==> posted.ops[i] == stored.ops[i])
  {
    hide SplitRepository;
  }

  lemma Posts(ts: TaskState, k: nat, now: int)
    requires |ts.hist| > 0 && k < |ts.ops| && IsPost(ts.ops[k].stage)
    ensures Step(ts, Answer(k, Posted(true), now)).comments
            == ts.comments + [Comment(k, ts.ops[k].version, KindOf(ts.ops[k].stage, ts.ops[k].st))]
  {
    hide SplitRepository, KindOf;
  }

  /** From any reachable state with an outstanding comment of a live task, one more reconcile can
      overtake it: the failure it reports is posted before the older change. */
  lemma OvertakingLosesOrder(ts: TaskState, k: nat)
    requires Reachable(ts) && k < |ts.ops| && IsPost(ts.ops[k].stage)
    requires |ts.hist| > 0 && !ts.hist[|ts.hist| - 1].phase.IsTerminal()
    ensures Run(ts, Overtaking(ts, k)).comments ==
              ts.comments + [Comment(|ts.ops|, |ts.hist|, FailureComment),
                             Comment(k, ts.ops[k].version, KindOf(ts.ops[k].stage, ts.ops[k].st))]
    ensures !InOrder(Run(ts, Overtaking(ts, k)).comments)
  {
    hide Reachable, Step, IsPost, KindOf, Dispatch, FailsNext, InOrder, LateNow, Denial, Run;
    PosterNotNew(ts, k);
    LiveLast(ts);
    LiveCanFail(ts);
    var last := |ts.hist| - 1;
    var now, j := LateNow(ts.hist[last]), |ts.ops|;
    var denial := Denial(Dispatch(ts.spec, Op(last, ts.hist[last], Finished, None), now), j, now);
    var started := Step(ts, Read(last, now));
    var f := if denial == [] then started else Step(started, denial[0]);
    OvertakenPosts(ts, f, k, now);
    RunPieces(ts, Read(last, now), denial, Answer(j, Wrote(Stored), now), Answer(j, Posted(true), now),
        Answer(k, Posted(true), now));
    LastTwoReversed(ts.comments, Comment(j, |ts.hist|, FailureComment),
        Comment(k, ts.ops[k].version, KindOf(ts.ops[k].stage, ts.ops[k].st)));
  }

  /** A task with an outstanding comment has been started. */
  lemma PosterNotNew(ts: TaskState, k: nat)
    requires Reachable(ts) && k < |ts.ops| && IsPost(ts.ops[k].stage)
    ensures 0 < ts.ops[k].version < |ts.hist| && !ts.hist[|ts.hist| - 1].phase.IsNew()
  {
    ReachableComments(ts);
    assert PosterOk(ts, k);
    hide IsPost, Reports, KindOf, HasPosted;
    AllowedTransitions(ts);
  }

  lemma LiveLast(ts: TaskState)
    requires Reachable(ts) && |ts.hist| > 0 && ts.hist[|ts.hist| - 1].phase.IsLive()
    ensures var st := ts.hist[|ts.hist| - 1];
            st.startTime.Some? && st.claimName != "" && SplitRepository(ts.spec.repository).Some?
  {
    hide Reachable, Keeps, ClaimNameOf, SplitRepository;
    IdentityFixed(ts);
  }

  lemma LastTwoReversed(cs: seq<Comment>, c: Comment, d: Comment)
    requires d.version < c.version
    ensures !InOrder(cs + [c, d])
  {
    var all, n := cs + [c, d], |cs|;
    assert all[n] == c && all[n + 1] == d;
  }

  lemma RunSnoc(ts: TaskState, acts: seq<Action>, a: Action)
    requires |ts.hist| > 0
    ensures Run(ts, acts + [a]) == Step(Run(ts, acts), a)
  {
    hide Step;
    assert (acts + [a])[..|acts|] == acts;
  }

  lemma RunPieces(ts: TaskState, a: Action, denial: seq<Action>, b: Action, c: Action, d: Action)
    requires |ts.hist| > 0 && |denial| <= 1
    ensures var started := Step(ts, a);
            var f := if denial == [] then started else Step(started, denial[0]);
            Run(ts, [a] + denial + [b, c, d]) == Step(Step(Step(f, b), c), d)
  {
    RunTwo(ts, a, denial);
    hide Step, Run;
    var early := [a] + denial;
    RunSnoc(ts, early, b);
    RunSnoc(ts, early + [b], c);
    RunSnoc(ts, early + [b] + [c], d);
    OneByOne(early, b, c, d);
  }

  lemma RunTwo(ts: TaskState, a: Action, denial: seq<Action>)
    requires |ts.hist| > 0 && |denial| <= 1
    ensures Run(ts, [a] + denial) == if denial == [] then Step(ts, a) else Step(Step(ts, a), denial[0])
  {
    assert Run(ts, []) == ts;
    hide Step, Run;
    assert [] + [a] == [a];
    RunSnoc(ts, [], a);
    if denial != [] {
      assert denial == [denial[0]];
      RunSnoc(ts, [a], denial[0]);
    } else {
      assert [a] + denial == [a];
    }
  }

  lemma OneByOne(early: seq<Action>, b: Action, c: Action, d: Action)
    ensures early + [b, c, d] == early + [b] + [c] + [d]
  {
  }

  lemma {:induction false} GatedRunReachable(ts: TaskState, acts: seq<Action>)
    requires IsFresh(ts)
    ensures Reachable(GatedRun(ts, acts))
  {
    FreshReachable(ts);
    hide Reachable, Step, HasPoster;
    if acts != [] {
      var before := acts[..|acts| - 1];
      GatedRunReachable(ts, before);
      ReachableStep(GatedRun(ts, before), acts[|acts| - 1]);
    }
  }

  /** The gate only holds up reads. */
  lemma {:induction false} NothingToHoldUp(ts: TaskState, acts: seq<Action>)
    requires |ts.hist| > 0 && forall i :: 0 <= i < |acts| ==> !acts[i].Read?
    ensures GatedRun(ts, acts) == Run(ts, acts)
  {
    hide Step, Outstanding;
    if acts != [] {
      NothingToHoldUp(ts, acts[..|acts| - 1]);
    }
  }

  lemma {:induction false} RunFirst(ts: TaskState, a: Action, rest: seq<Action>)
    requires |ts.hist| > 0
    ensures Run(ts, [a] + rest) == Run(Step(ts, a), rest)
    decreases |rest|
  {
    hide Step;
    if rest == [] {
      assert [a] + rest == [a] && [a][..0] == [];
    } else {
      var n := |rest| - 1;
      RunFirst(ts, a, rest[..n]);
      assert ([a] + rest)[..n + 1] == [a] + rest[..n];
    }
  }

  /** The part of the overtaking after its read. */
  lemma OvertakingReadsOnce(ts: TaskState, k: nat) returns (v: nat, now: int, more: seq<Action>)
    requires |ts.hist| > 0
    ensures Overtaking(ts, k) == [Read(v, now)] + more && forall i :: 0 <= i < |more| ==> !more[i].Read?
  {
    hide Dispatch, LateNow;
    v := |ts.hist| - 1;
    now := LateNow(ts.hist[v]);
    more := Overtaking(ts, k)[1..];
  }

  /** The condition is exact. In any state that the gate has led to, letting one more reconcile
      start can cost the order of comments if and only if a comment of a live task is outstanding. */
  lemma GateIsExact(ts0: TaskState, acts: seq<Action>)
    requires IsFresh(ts0)
    ensures var ts := GatedRun(ts0, acts);
            Outstanding(ts) <==>
              exists v: nat, now: int, more :: !InOrder(GatedRun(Step(ts, Read(v, now)), more).comments)
  {
    hide Reachable, Inv, OrderInv, InOrder, Step, GatedRun, Run, IsPost, Overtaking;
    var ts := GatedRun(ts0, acts);
    if Outstanding(ts) {
      var k :| 0 <= k < |ts.ops| && IsPost(ts.ops[k].stage);
      GatedRunReachable(ts0, acts);
      OvertakingLosesOrder(ts, k);
      var v, now, more := OvertakingReadsOnce(ts, k);
      RunFirst(ts, Read(v, now), more);
      NothingToHoldUp(Step(ts, Read(v, now)), more);
      assert !InOrder(GatedRun(Step(ts, Read(v, now)), more).comments);
    } else {
      FreshOrdered(ts0);
      GatedRunOrdered(ts0, acts);
      forall v: nat, now: int, more ensures InOrder(GatedRun(Step(ts, Read(v, now)), more).comments) {
        StepKeepsOrder(ts, Read(v, now));
        GatedRunOrdered(Step(ts, Read(v, now)), more);
        OrderedComments(GatedRun(Step(ts, Read(v, now)), more));
      }
    }
  }

  lemma OrderedComments(ts: TaskState)
    requires OrderInv(ts)
    ensures InOrder(ts.comments)
  {
  }

  // ---------- no two reconciles at once ----------

  predicate Active(op: Op) {
    !op.stage.Finished? && !op.stage.Resuming?
  }

  predicate Idle(ts: TaskState) {
    forall k :: 0 <= k < |ts.ops| ==> !Active(ts.ops[k])
  }

  /** A controller that never works on one task twice at the same time. */
  function SerialStep(ts: TaskState, a: Action): TaskState
    requires |ts.hist| > 0
  {
    if a.Read? && !Idle(ts) then ts else Step(ts, a)
  }

  function SerialRun(ts: TaskState, acts: seq<Action>): (ts': TaskState)
    requires |ts.hist| > 0
    ensures |ts'.hist| > 0
  {
    if acts == [] then ts
    else SerialStep(SerialRun(ts, acts[..|acts| - 1]), acts[|acts| - 1])
  }

  /** A serial controller passes the gate. */
  lemma SerialIsGated(ts: TaskState, a: Action)
    requires |ts.hist| > 0
    ensures SerialStep(ts, a) == ts || SerialStep(ts, a) == GatedStep(ts, a)
  {
    hide Step;
    assert forall k :: 0 <= k < |ts.ops| && IsPost(ts.ops[k].stage) ==> Active(ts.ops[k]);
  }

  lemma {:induction false} SerialRunOrdered(ts: TaskState, acts: seq<Action>)
    requires Inv(ts) && OrderInv(ts)
    ensures Inv(SerialRun(ts, acts)) && OrderInv(SerialRun(ts, acts))
  {
    assert |ts.hist| > 0;
    hide Inv, OrderInv, SerialStep, GatedStep;
    if acts != [] {
      var before := acts[..|acts| - 1];
      SerialRunOrdered(ts, before);
      SerialIsGated(SerialRun(ts, before), acts[|acts| - 1]);
      StepKeepsOrder(SerialRun(ts, before), acts[|acts| - 1]);
    }
  }

  /** A corollary: comments are in order when a task is never reconciled twice at the same time. */
  lemma SerialCommentsInOrder(ts: TaskState, acts: seq<Action>)
    requires IsFresh(ts)
    ensures InOrder(SerialRun(ts, acts).comments)
  {
    FreshOrdered(ts);
    SerialRunOrdered(ts, acts);
  }
}
