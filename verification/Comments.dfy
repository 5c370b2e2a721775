/** Comments on GitHub over whole runs: each is posted by the writer of the phase change it reports,
    after that change is committed, and at most once. */
module Comments {
  import opened Text
  import opened Tasks
  import opened Protocol
  import opened Lifecycle

  /** `kind` reports the change from `a` to `b`. */
  predicate Reports(kind: CommentKind, a: Status, b: Status) {
    match kind
    case StartComment => a.phase.IsNew() && b.phase.Running?
    case QuestionComment(round) =>
      a.phase.Running? && b.phase.WaitingForClarification? && |a.clarifications| + 1 == |b.clarifications| == round
    case CompletionComment => !a.phase.IsTerminal() && b.phase.Completed?
    case FailureComment => !a.phase.IsTerminal() && b.phase.Failed?
  }

  ghost predicate CommentOk(ts: TaskState, c: Comment) {
    && 0 < c.version < |ts.hist| == |ts.commits|
    && c.op < |ts.ops| && ts.commits[c.version].op == c.op
    && Reports(c.kind, ts.hist[c.version - 1], ts.hist[c.version])
  }

  predicate HasPosted(comments: seq<Comment>, k: nat) {
    exists i :: 0 <= i < |comments| && comments[i].op == k
  }

  /** A writer about to post is the author of the change it will report. */
  ghost predicate PosterOk(ts: TaskState, k: nat)
    requires k < |ts.ops|
  {
    var op := ts.ops[k];
    && (IsPost(op.stage) ==>
          && 0 < op.version < |ts.hist| == |ts.commits|
          && ts.commits[op.version].op == k
          && Reports(KindOf(op.stage, op.st), ts.hist[op.version - 1], ts.hist[op.version]))
    && (HasPosted(ts.comments, k) ==> op.stage.Releasing? || op.stage.Finished?)
  }

  ghost predicate CommentInv(ts: TaskState) {
    && (forall i :: 0 <= i < |ts.comments| ==> CommentOk(ts, ts.comments[i]))
    && (forall k :: 0 <= k < |ts.ops| ==> PosterOk(ts, k))
    && (forall i, j :: 0 <= i < j < |ts.comments| ==> ts.comments[i].op != ts.comments[j].op)
  }

  /** A write that leads to a comment changes the phase, so it is a new version, by its writer. */
  lemma WriteLeadsToComment(spec: Spec, b: Status, op: Op, now: int)
    requires Good(spec, b) && OpOk(spec, b, op) && IsWrite(op.stage)
    ensures !IsPost(AfterWrite(spec, op, false, now).stage)
    ensures var op' := AfterWrite(spec, op, true, now);
            IsPost(op'.stage) ==> op'.st == op.st != b && Reports(KindOf(op'.stage, op'.st), b, op.st)
  {
    hide SplitRepository, ClaimNameOf, MaxRounds;
  }

  lemma CallNeverPosts(spec: Spec, op: Op, r: Response, now: int)
    requires Fits(spec, op, r) && !IsWrite(op.stage)
    ensures var op' := AfterCall(spec, op, r, now);
            && !IsPost(op'.stage) && !op.stage.Finished?
            && (IsPost(op.stage) || op.stage.Releasing? ==> op'.stage.Releasing? || op'.stage.Finished?)
  {
    hide SplitRepository, ClaimNameOf, Cost.Accumulate, Markers.Clarification, Markers.PullRequestURL, Contains;
  }

  /** Writer `k` commits and may go on to report it. */
  lemma StoringKeepsComments(ts: TaskState, k: nat, op': Op, c: Commit)
    requires |ts.hist| == |ts.commits| && CommentInv(ts) && k < |ts.ops| && IsWrite(ts.ops[k].stage) && c.op == k
    requires IsPost(op'.stage) ==>
               && op'.version == |ts.hist| > 0
               && Reports(KindOf(op'.stage, op'.st), ts.hist[|ts.hist| - 1], ts.ops[k].st)
    ensures CommentInv(ts.(hist := ts.hist + [ts.ops[k].st], commits := ts.commits + [c], ops := ts.ops[k := op']))
  {
    hide Reports, KindOf;
    var ts' := ts.(hist := ts.hist + [ts.ops[k].st], commits := ts.commits + [c], ops := ts.ops[k := op']);
    forall j | 0 <= j < |ts'.ops| ensures PosterOk(ts', j) {
      assert PosterOk(ts, j);
    }
    forall i | 0 <= i < |ts'.comments| ensures CommentOk(ts', ts'.comments[i]) {
      assert CommentOk(ts, ts.comments[i]);
    }
  }

  /** Writer `k` moves on to something that is not a comment. */
  lemma ReplacingKeepsComments(ts: TaskState, k: nat, op': Op)
    requires CommentInv(ts) && k < |ts.ops| && !IsPost(op'.stage)
    requires HasPosted(ts.comments, k) ==> op'.stage.Releasing? || op'.stage.Finished?
    ensures CommentInv(ts.(ops := ts.ops[k := op']))
  {
    hide Reports, KindOf;
    var ts' := ts.(ops := ts.ops[k := op']);
    forall j | 0 <= j < |ts'.ops| ensures PosterOk(ts', j) {
      assert PosterOk(ts, j);
    }
    forall i | 0 <= i < |ts'.comments| ensures CommentOk(ts', ts'.comments[i]) {
      assert CommentOk(ts, ts.comments[i]);
    }
  }

  /** Writer `k` posts its comment. */
  lemma PostingKeepsComments(ts: TaskState, k: nat, op': Op)
    requires CommentInv(ts) && k < |ts.ops| && IsPost(ts.ops[k].stage)
    requires op'.stage.Releasing? || op'.stage.Finished?
    ensures var op := ts.ops[k];
            CommentInv(ts.(ops := ts.ops[k := op'],
                           comments := ts.comments + [Comment(k, op.version, KindOf(op.stage, op.st))]))
  {
    hide Reports, KindOf;
    var op := ts.ops[k];
    var comments := ts.comments + [Comment(k, op.version, KindOf(op.stage, op.st))];
    var ts' := ts.(ops := ts.ops[k := op'], comments := comments);
    assert PosterOk(ts, k);
    forall j | 0 <= j < |ts'.ops| ensures PosterOk(ts', j) {
      assert PosterOk(ts, j);
      if j != k && HasPosted(comments, j) {
        var i :| 0 <= i < |comments| && comments[i].op == j;
        assert ts.comments[i].op == j;
      }
    }
    forall i | 0 <= i < |comments| ensures CommentOk(ts', comments[i]) {
      assert i < |ts.comments| ==> CommentOk(ts, ts.comments[i]);
    }
    assert forall i :: 0 <= i < |ts.comments| && ts.comments[i].op == k ==> HasPosted(ts.comments, k);
  }

  lemma WriteKeepsComments(ts: TaskState, k: nat, outcome: Outcome, now: int)
    requires Inv(ts) && CommentInv(ts) && k < |ts.ops| && IsWrite(ts.ops[k].stage)
    requires Applies(outcome) ==> ts.ops[k].version + 1 == |ts.hist|
    ensures CommentInv(StepWrite(ts, k, outcome, now))
  {
    hide Inv, Good, Follows, OpOk, AfterWrite, Reports, KindOf, CommentInv, IsPost, HasPosted;
    WriterBase(ts, k);
    OneCommitEach(ts);
    var op := ts.ops[k];
    var ts' := StepWrite(ts, k, outcome, now);
    var op' := ts'.ops[k];
    WriteLeadsToComment(ts.spec, ts.hist[op.version], op, now);
    WritesFirst(ts, k);
    if Applies(outcome) && op.st != ts.hist[|ts.hist| - 1] {
      StoringKeepsComments(ts, k, op', Commit(k, op.ran));
      assert ts' == ts.(hist := ts.hist + [op.st], commits := ts.commits + [Commit(k, op.ran)],
             ops := ts.ops[k := op']);
    } else {
      ReplacingKeepsComments(ts, k, op');
      assert ts' == ts.(ops := ts.ops[k := op']);
    }
  }

  lemma OneCommitEach(ts: TaskState)
    requires Inv(ts)
    ensures |ts.hist| == |ts.commits| > 0
  {
    hide Good, Follows, OpOk, IsInitial;
  }

  /** A writer that still has something to store has posted nothing. */
  lemma WritesFirst(ts: TaskState, k: nat)
    requires CommentInv(ts) && k < |ts.ops| && IsWrite(ts.ops[k].stage)
    ensures !HasPosted(ts.comments, k)
  {
    hide HasPosted;
    if HasPosted(ts.comments, k) {
      PostedMeansDone(ts, k);
    }
  }

  lemma PostedMeansDone(ts: TaskState, k: nat)
    requires CommentInv(ts) && k < |ts.ops| && HasPosted(ts.comments, k)
    ensures ts.ops[k].stage.Releasing? || ts.ops[k].stage.Finished?
  {
    assert PosterOk(ts, k);
  }

  lemma CallKeepsComments(ts: TaskState, k: nat, r: Response, now: int)
    requires CommentInv(ts) && k < |ts.ops| && Fits(ts.spec, ts.ops[k], r) && !IsWrite(ts.ops[k].stage)
    ensures CommentInv(StepCall(ts, k, r, now))
  {
    hide AfterCall, CommentInv, HasPosted, KindOf, IsResume, Fits;
    var op := ts.ops[k];
    var op' := AfterCall(ts.spec, op, r, now);
    CallNeverPosts(ts.spec, op, r, now);
    if HasPosted(ts.comments, k) {
      PostedMeansDone(ts, k);
    }
    if r.Posted? && r.shown && IsPost(op.stage) {
      PostingKeepsComments(ts, k, op');
    } else {
      ReplacingKeepsComments(ts, k, op');
      ExecsDoNotMatter(ts.(ops := ts.ops[k := op']), StepCall(ts, k, r, now).execs);
    }
  }

  lemma ExecsDoNotMatter(ts: TaskState, execs: seq<Exec>)
    requires CommentInv(ts)
    ensures CommentInv(ts.(execs := execs))
  {
    hide Reports, KindOf;
    var ts' := ts.(execs := execs);
    forall j | 0 <= j < |ts'.ops| ensures PosterOk(ts', j) {
      assert PosterOk(ts, j);
    }
    forall i | 0 <= i < |ts'.comments| ensures CommentOk(ts', ts'.comments[i]) {
      assert CommentOk(ts, ts.comments[i]);
    }
  }

  /** A new writer has posted nothing. */
  lemma StartingKeepsComments(ts: TaskState, op: Op)
    requires CommentInv(ts) && !IsPost(op.stage)
    ensures CommentInv(ts.(ops := ts.ops + [op]))
  {
    hide Reports, KindOf, IsPost;
    var ts' := ts.(ops := ts.ops + [op]);
    forall i | 0 <= i < |ts'.comments| ensures CommentOk(ts', ts'.comments[i]) && ts'.comments[i].op < |ts.ops| {
      assert CommentOk(ts, ts.comments[i]);
    }
    forall j | 0 <= j < |ts'.ops| ensures PosterOk(ts', j) {
      assert j < |ts.ops| ==> PosterOk(ts, j);
    }
  }

  lemma NewPostsNothing(ts: TaskState, a: Action)
    requires (a.Read? || a.Hear?) && Enabled(ts, a)
    ensures !IsPost(NewOp(ts, a).stage)
  {
    hide SplitRepository;
  }

  lemma AnswerKeepsComments(ts: TaskState, k: nat, r: Response, now: int)
    requires Inv(ts) && CommentInv(ts) && |ts.hist| > 0 && Enabled(ts, Answer(k, r, now))
    ensures CommentInv(Step(ts, Answer(k, r, now)))
  {
    hide Inv, CommentInv, StepWrite, StepCall, AfterWrite, AfterCall, ClaimNameOf, SplitRepository;
    if IsWrite(ts.ops[k].stage) {
      assert r.Wrote?;
      WriteKeepsComments(ts, k, r.outcome, now);
    } else {
      CallKeepsComments(ts, k, r, now);
    }
  }

  lemma StepKeepsComments(ts: TaskState, a: Action)
    requires Inv(ts) && CommentInv(ts) && |ts.hist| > 0
    ensures CommentInv(Step(ts, a))
  {
    hide Inv, CommentInv, StepWrite, StepCall, Fits, NewOp, HasPosted, IsPost, IsWrite;
    if Enabled(ts, a) {
      match a
      case Answer(k, r, now) => AnswerKeepsComments(ts, k, r, now);
      case Crash(k) => CrashKeepsComments(ts, k);
      case _ =>
        NewPostsNothing(ts, a);
        StartingKeepsComments(ts, NewOp(ts, a));
    }
  }

  lemma CrashKeepsComments(ts: TaskState, k: nat)
    requires CommentInv(ts) && k < |ts.ops|
    ensures CommentInv(ts.(ops := ts.ops[k := ts.ops[k].(stage := Finished)]))
  {
    hide CommentInv, HasPosted;
    ReplacingKeepsComments(ts, k, ts.ops[k].(stage := Finished));
  }

  lemma {:induction false} RunKeepsComments(ts: TaskState, acts: seq<Action>)
    requires Inv(ts) && CommentInv(ts)
    ensures CommentInv(Run(ts, acts))
  {
    assert |ts.hist| > 0;
    hide Inv, CommentInv, Step;
    if acts != [] {
      var before := acts[..|acts| - 1];
      RunKeepsComments(ts, before);
      RunKeepsInv(ts, before);
      StepKeepsComments(Run(ts, before), acts[|acts| - 1]);
    }
  }

  lemma ReachableComments(ts: TaskState)
    requires Reachable(ts)
    ensures CommentInv(ts)
  {
    var ts0, acts :| IsFresh(ts0) && Run(ts0, acts) == ts;
    FreshInv(ts0);
    assert CommentInv(ts0);
    hide CommentInv, Inv;
    RunKeepsComments(ts0, acts);
  }

  /** Every comment reports a committed phase change, and no change is reported twice. */
  lemma CommentsReportCommits(ts: TaskState)
    requires Reachable(ts)
    ensures forall i :: 0 <= i < |ts.comments| ==>
              var c := ts.comments[i];
              0 < c.version < |ts.hist| && Reports(c.kind, ts.hist[c.version - 1], ts.hist[c.version])
    ensures forall i, j :: 0 <= i < j < |ts.comments| ==> ts.comments[i].version != ts.comments[j].version
  {
    ReachableComments(ts);
    assert forall i :: 0 <= i < |ts.comments| ==> CommentOk(ts, ts.comments[i]);
    hide Reports;
  }

  predicate IsFinal(kind: CommentKind) {
    kind.CompletionComment? || kind.FailureComment?
  }

  /** At most one start comment, at most one comment that ends the task, and at most one question
      comment for each entry of the ledger. */
  lemma CommentsAtMostOnce(ts: TaskState, i: nat, j: nat)
    requires Reachable(ts) && i < j < |ts.comments|
    ensures ts.comments[i].kind != ts.comments[j].kind
    ensures !(IsFinal(ts.comments[i].kind) && IsFinal(ts.comments[j].kind))
  {
    CommentsReportCommits(ts);
    AllowedTransitions(ts);
    QuestionLedger(ts);
    var c, d := ts.comments[i], ts.comments[j];
    var u, v := c.version, d.version;
    hide PhaseStep;
    if u < v {
      assert LedgerExtends(ts.hist[u].clarifications, ts.hist[v - 1].clarifications);
      assert u - 1 < v - 1 && !ts.hist[v - 1].phase.IsNew() && !ts.hist[u].phase.IsTerminal();
    } else {
      assert LedgerExtends(ts.hist[v].clarifications, ts.hist[u - 1].clarifications);
      assert v - 1 < u - 1 && !ts.hist[u - 1].phase.IsNew() && !ts.hist[v].phase.IsTerminal();
    }
  }
}
