/** When a live task that shares its claim name with others is sure of its sandbox: exactly when all
    the others have ended and none of their writers still cleans up. */
module SharedClaims {
  import opened Options
  import opened Tasks
  import opened Protocol
  import opened Lifecycle
  import opened CommentOrder
  import opened Sandboxes

  predicate OnlyOn(moves: seq<Move>, u: nat) {
    forall i :: 0 <= i < |moves| ==> moves[i].Do? && moves[i].task == u
  }

  /** `w'` comes from `w` by moves of task `u` alone. */
  ghost predicate LedBy(w: World, w': World, u: nat) {
    Sane(w) && exists moves :: RunFrom(w, moves) == w' && OnlyOn(moves, u)
  }

  lemma LedBySelf(w: World, u: nat)
    requires Sane(w)
    ensures LedBy(w, w, u)
  {
    assert RunFrom(w, []) == w;
  }

  /** One more move of task `u`. */
  lemma Lead(w: World, w1: World, u: nat, a: Action) returns (w2: World)
    requires WorldReachable(w1) && LedBy(w, w1, u) && u < |w1.tasks|
    requires Consistent(w1.claims, w1.tasks[u], a)
    ensures |w1.tasks[u].hist| > 0
    ensures WorldReachable(w2) && LedBy(w, w2, u) && u < |w2.tasks|
    ensures w2.tasks[u] == Step(w1.tasks[u], a) && w2.tasks[u].spec == w1.tasks[u].spec
    ensures w2.claims == ClaimsAfter(w1.claims, w1.tasks[u], a)
  {
    WorldReachableStep(w1, Do(u, a));
    hide WorldReachable, Step, Consistent, ClaimsAfter;
    HistoryGrows(w1.tasks[u], a);
    w2 := WorldStep(w1, Do(u, a));
    var moves :| RunFrom(w, moves) == w1 && OnlyOn(moves, u);
    assert (moves + [Do(u, a)])[..|moves|] == moves;
    assert RunFrom(w, moves + [Do(u, a)]) == w2;
    assert OnlyOn(moves + [Do(u, a)], u);
  }

  lemma {:induction false} OthersKeepTask(w: World, moves: seq<Move>, u: nat, t: nat)
    requires Sane(w) && OnlyOn(moves, u) && t < |w.tasks| && t != u
    ensures |RunFrom(w, moves).tasks| == |w.tasks| && RunFrom(w, moves).tasks[t] == w.tasks[t]
  {
    hide WorldStep, Sane;
    if moves != [] {
      var n := |moves| - 1;
      OthersKeepTask(w, moves[..n], u, t);
      MoveTouchesOneTask(RunFrom(w, moves[..n]), u, moves[n].action, t);
    }
  }

  /** The answer says nothing about which claims there are. */
  predicate Neutral(a: Action) {
    a.Read? || (a.Answer? && !a.response.Created? && !a.response.AlreadyExists? && !a.response.ClaimError?
                && !a.response.Deleted?)
  }

  lemma NeutralMove(claims: set<string>, ts: TaskState, a: Action)
    requires Neutral(a)
    ensures Consistent(claims, ts, a) && ClaimsAfter(claims, ts, a) == claims
  {
    hide Enabled, SplitRepository, ClaimNameOf;
  }

  /** A writer that cleans up deletes the claim, after its comment if that is still to be posted. */
  lemma CleanUpGoesOn(ts: TaskState, k: nat)
    requires Inv(ts) && |ts.hist| > 0 && k < |ts.ops| && CleansUp(ts.ops[k])
    ensures var ts' := Step(ts, Answer(k, Posted(false), 0));
            ts.ops[k].stage.Releasing? || (k < |ts'.ops| && ts'.ops[k].stage.Releasing?)
  {
    hide Inv, Good, OpOk, SplitRepository, ClaimNameOf;
    WriterBase(ts, k);
    if ts.ops[k].stage.PostingFailure? {
      FailedHasClaim(ts.spec, ts.hist[ts.ops[k].version], ts.ops[k]);
    }
  }

  lemma FailedHasClaim(spec: Spec, b: Status, op: Op)
    requires Good(spec, b) && OpOk(spec, b, op) && op.stage.PostingFailure?
    ensures op.st.claimName != ""
  {
    hide SplitRepository, ClaimNameOf, MaxRounds;
    ClaimNameNotEmpty(spec);
  }

  /** The claim of task `u` can be deleted by a writer that releases it. */
  lemma ReleaseDeletes(w: World, w1: World, u: nat, k: nat) returns (w2: World)
    requires WorldReachable(w1) && LedBy(w, w1, u) && u < |w1.tasks|
    requires k < |w1.tasks[u].ops| && w1.tasks[u].ops[k].stage.Releasing?
    ensures LedBy(w, w2, u) && SplitRepository(w1.tasks[u].spec.repository).Some?
    ensures ClaimNameOf(w1.tasks[u].spec) !in w2.claims
  {
    hide WorldReachable, LedBy, Inv, SplitRepository, ClaimNameOf, Reachable, Step;
    WorldTaskInv(w1, u);
    ReleasingIsTerminal(w1.tasks[u], k);
    w2 := Lead(w, w1, u, Answer(k, Deleted(true), 0));
  }

  lemma CleanUpDeletes(w: World, w1: World, u: nat, k: nat) returns (w2: World)
    requires WorldReachable(w1) && LedBy(w, w1, u) && u < |w1.tasks|
    requires k < |w1.tasks[u].ops| && CleansUp(w1.tasks[u].ops[k])
    ensures LedBy(w, w2, u) && SplitRepository(w1.tasks[u].spec.repository).Some?
    ensures ClaimNameOf(w1.tasks[u].spec) !in w2.claims
  {
    hide WorldReachable, LedBy, Inv, SplitRepository, ClaimNameOf, Reachable, Step, Consistent, ClaimsAfter, CleansUp;
    RunsSane(w1);
    WorldTaskInv(w1, u);
    CleanUpGoesOn(w1.tasks[u], k);
    if w1.tasks[u].ops[k].stage.Releasing? {
      w2 := ReleaseDeletes(w, w1, u, k);
    } else {
      NeutralMove(w1.claims, w1.tasks[u], Answer(k, Posted(false), 0));
      w2 := Lead(w, w1, u, Answer(k, Posted(false), 0));
      w2 := ReleaseDeletes(w, w2, u, k);
    }
  }

  /** A live task can be made to fail and to delete its claim. */
  lemma LiveDeletes(w: World, w1: World, u: nat) returns (w2: World)
    requires WorldReachable(w1) && LedBy(w, w1, u) && u < |w1.tasks|
    requires var hist := w1.tasks[u].hist; |hist| > 0 && hist[|hist| - 1].phase.IsLive()
    ensures LedBy(w, w2, u) && SplitRepository(w1.tasks[u].spec.repository).Some?
    ensures ClaimNameOf(w1.tasks[u].spec) !in w2.claims
  {
    hide WorldReachable, LedBy, Inv, SplitRepository, ClaimNameOf, Reachable, Step, Consistent, ClaimsAfter;
    hide Dispatch, FailsNext, LateNow, Denial;
    var ts := w1.tasks[u];
    WorldTaskInv(w1, u);
    LiveLast(ts);
    LiveCanFail(ts);
    var last, j := |ts.hist| - 1, |ts.ops|;
    var now := LateNow(ts.hist[last]);
    var denial := Denial(Dispatch(ts.spec, Op(last, ts.hist[last], Finished, None), now), j, now);
    NeutralMove(w1.claims, ts, Read(last, now));
    w2 := Lead(w, w1, u, Read(last, now));
    if denial != [] {
      DenialIsNeutral(Dispatch(ts.spec, Op(last, ts.hist[last], Finished, None), now), j, now);
      NeutralMove(w2.claims, w2.tasks[u], denial[0]);
      w2 := Lead(w, w2, u, denial[0]);
    }
    StoresFailure(ts, w2.tasks[u], now);
    NeutralMove(w2.claims, w2.tasks[u], Answer(j, Wrote(Stored), now));
    w2 := Lead(w, w2, u, Answer(j, Wrote(Stored), now));
    w2 := CleanUpDeletes(w, w2, u, j);
  }

  lemma DenialIsNeutral(op: Op, j: nat, now: int)
    ensures var denial := Denial(op, j, now); denial != [] ==> Neutral(denial[0])
  {
  }

  /** A new task whose claim is there can start. */
  lemma NewStarts(ts: TaskState)
    requires |ts.hist| > 0 && ts.hist[|ts.hist| - 1].phase.IsNew() && SplitRepository(ts.spec.repository).Some?
    ensures var last, j := |ts.hist| - 1, |ts.ops|;
            var s2 := Step(Step(ts, Read(last, 0)), Answer(j, AlreadyExists, 0));
            var hist := Step(s2, Answer(j, Wrote(Stored), 0)).hist;
            hist[|hist| - 1].phase.Running?
  {
    hide SplitRepository, ClaimNameOf;
    var last, j := |ts.hist| - 1, |ts.ops|;
    var s1 := Step(ts, Read(last, 0));
    assert s1 == ts.(ops := ts.ops + [Op(last, ts.hist[last], Claiming, None)]);
    var s2 := Step(s1, Answer(j, AlreadyExists, 0));
    assert s2.hist == ts.hist && |s2.ops| == j + 1;
    assert s2.ops[j].stage.Starting? && s2.ops[j].version == last && s2.ops[j].st.phase.Running?;
    StartingStores(s2, j);
  }

  lemma StartingStores(ts: TaskState, j: nat)
    requires |ts.hist| > 0 && j < |ts.ops| && ts.ops[j].stage.Starting? && ts.ops[j].version + 1 == |ts.hist|
    requires ts.ops[j].st.phase.Running?
    ensures var hist := Step(ts, Answer(j, Wrote(Stored), 0)).hist; hist[|hist| - 1].phase.Running?
  {
    hide AfterWrite;
  }

  lemma NewDeletes(w: World, w1: World, u: nat) returns (w2: World)
    requires WorldReachable(w1) && LedBy(w, w1, u) && u < |w1.tasks|
    requires var hist := w1.tasks[u].hist; |hist| > 0 && hist[|hist| - 1].phase.IsNew()
    requires SplitRepository(w1.tasks[u].spec.repository).Some? && ClaimNameOf(w1.tasks[u].spec) in w1.claims
    ensures LedBy(w, w2, u) && ClaimNameOf(w1.tasks[u].spec) !in w2.claims
  {
    hide WorldReachable, LedBy, Inv, SplitRepository, ClaimNameOf, Reachable, Step, ClaimsAfter, Consistent;
    var ts := w1.tasks[u];
    var last, j := |ts.hist| - 1, |ts.ops|;
    NewStarts(ts);
    NeutralMove(w1.claims, ts, Read(last, 0));
    w2 := Lead(w, w1, u, Read(last, 0));
    ExistsIsConsistent(w2.claims, w2.tasks[u], j);
    w2 := Lead(w, w2, u, Answer(j, AlreadyExists, 0));
    NeutralMove(w2.claims, w2.tasks[u], Answer(j, Wrote(Stored), 0));
    w2 := Lead(w, w2, u, Answer(j, Wrote(Stored), 0));
    w2 := LiveDeletes(w, w2, u);
  }

  lemma ExistsIsConsistent(claims: set<string>, ts: TaskState, j: nat)
    requires SplitRepository(ts.spec.repository).Some? && ClaimNameOf(ts.spec) in claims
    ensures Consistent(claims, ts, Answer(j, AlreadyExists, 0))
  {
  }

  /** As long as another task of the name is not over, its moves alone can delete the claim of a live
      task, which does not move. */
  lemma OtherCanDelete(w: World, t: nat, u: nat) returns (moves: seq<Move>)
    requires WorldReachable(w) && Sane(w) && t < |w.tasks| && u < |w.tasks| && t != u
    requires SameName(w.tasks[u].spec, w.tasks[t].spec) && !Over(w.tasks[u])
    requires ClaimNameOf(w.tasks[t].spec) in w.claims
    ensures OnlyOn(moves, u) && t < |RunFrom(w, moves).tasks| && RunFrom(w, moves).tasks[t] == w.tasks[t]
    ensures ClaimNameOf(w.tasks[t].spec) !in RunFrom(w, moves).claims
  {
    hide WorldReachable, SplitRepository, ClaimNameOf, RunFrom, OnlyOn;
    LedBySelf(w, u);
    var hist := w.tasks[u].hist;
    var w';
    if k :| 0 <= k < |w.tasks[u].ops| && CleansUp(w.tasks[u].ops[k]) {
      w' := CleanUpDeletes(w, w, u, k);
    } else if hist[|hist| - 1].phase.IsNew() {
      w' := NewDeletes(w, w, u);
    } else {
      w' := LiveDeletes(w, w, u);
    }
    moves :| RunFrom(w, moves) == w' && OnlyOn(moves, u);
    OthersKeepTask(w, moves, u, t);
  }

  /** Task `t` has its claim if it is live. */
  ghost predicate HasSandbox(w: World, t: nat) {
    t < |w.tasks| && |w.tasks[t].hist| > 0
    && var st := w.tasks[t].hist[|w.tasks[t].hist| - 1]; st.phase.IsLive() ==> st.claimName in w.claims
  }

  /** The condition is exact. A live task that has its claim is sure to keep it for as long as it lives,
      while no further task of its name is created, if and only if every other task of the name is
      over. */
  lemma QuietIsExact(w: World, t: nat)
    requires WorldReachable(w) && Sane(w) && t < |w.tasks|
    requires var st := w.tasks[t].hist[|w.tasks[t].hist| - 1]; st.phase.IsLive() && st.claimName in w.claims
    ensures Quiet(w, t) <==> forall moves :: NoneCreated(moves, w.tasks[t].spec) ==> HasSandbox(RunFrom(w, moves), t)
  {
    hide WorldReachable, SplitRepository, ClaimNameOf, RunFrom, Over, Inv, Reachable, NeedsClaim;
    WorldTaskInv(w, t);
    LiveNeedsClaim(w.tasks[t]);
    if Quiet(w, t) {
      forall moves | NoneCreated(moves, w.tasks[t].spec) ensures HasSandbox(RunFrom(w, moves), t) {
        LaterTaskKeepsSandbox(w, t, moves);
      }
    } else {
      var u :| 0 <= u < |w.tasks| && u != t && SameName(w.tasks[u].spec, w.tasks[t].spec) && !Over(w.tasks[u]);
      var moves := OtherCanDelete(w, t, u);
      assert NoneCreated(moves, w.tasks[t].spec) && !HasSandbox(RunFrom(w, moves), t);
    }
  }
}
