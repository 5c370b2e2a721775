/** internal/controller/claudetask_controller.go: the reconciler's methods. Each changes its copy of
    the task in place and calls the cluster; every call is only allowed where the state machine
    waits for it, with exactly the status, name or comment that the machine has, and at the end
    nothing is left to do. So whatever is proved of the machine holds of this code. */
module Reconciler {
  import opened Text
  import opened Options
  import opened ClaudeOutput
  import opened Cost
  import opened Markers
  import opened Tasks
  import opened Protocol
  import opened Sandboxes
  import opened Clusters

  class ClaudeTaskReconciler {
    const cluster: Cluster

    constructor (cluster: Cluster)
      ensures this.cluster == cluster
    {
      this.cluster := cluster;
    }

    /** Writer `me` has nothing left to do. */
    ghost predicate Done(task: ClaudeTask, me: nat)
      reads cluster
    {
      exists op :: cluster.Waits(task, me, op) && op.stage.Finished?
    }

    /** The copy is that of writer `op`. */
    ghost predicate Copies(task: ClaudeTask, op: Op)
      reads task, task.costReport
    {
      op.st == task.View() && op.version == task.resourceVersion
    }

    method Reconcile(name: nat) returns (task: ClaudeTask, me: nat)
      requires WorldReachable(cluster.world) && name < |cluster.world.tasks|
      modifies cluster
      ensures task.name == name && me == |old(cluster.world).tasks[name].ops|
      ensures Evolves(old(cluster.world), cluster.world) && Done(task, me)
    {
      hide Has, WorldReachable, Evolves;
      task, me := cluster.Get(name);
      ghost var w1 := cluster.world;
      ghost var op := Op(task.resourceVersion, task.View(), Finished, None);
      match task.phase
      case Unset | Pending =>
        ReconcilePending(task, me, op);
        EvolvesChain(old(cluster.world), w1, cluster.world);
      case Running =>
        ReconcileRunning(task, me, op);
        EvolvesChain(old(cluster.world), w1, cluster.world);
      case WaitingForClarification =>
        ReconcileWaitingForClarification(task, me, op);
        EvolvesChain(old(cluster.world), w1, cluster.world);
      case _ =>
        assert cluster.Waits(task, me, op);
    }

    method ReconcilePending(task: ClaudeTask, me: nat, ghost op: Op)
      requires Copies(task, op) && task.phase.IsNew() && cluster.Waits(task, me, Dispatch(task.spec, op, cluster.now))
      modifies cluster, task
      ensures Evolves(old(cluster.world), cluster.world) && Done(task, me)
    {
      hide Has, WorldReachable, Evolves, ClaimNameOf, ClaimNames.ClaimName, Dispatch, AfterCall, SplitRepository;
      DispatchNew(task.spec, op, cluster.now);
      var parts := SplitRepository(task.spec.repository);
      if parts.None? {
        FailTask(task, me, op);
        return;
      }
      var claimName := ClaimNames.ClaimName(parts.value.0, parts.value.1, task.spec.issue);
      NameOf(task.spec);
      var err := cluster.CreateClaim(task, me, claimName, Go(op, Claiming));
      ghost var w1 := cluster.world;
      if err.OtherError? {
        assert cluster.Waits(task, me, Go(op, Finished));
        return;
      }
      StartRunning(task, me, claimName, op);
      EvolvesChain(old(cluster.world), w1, cluster.world);
    }

    /** reconcilePending once the claim is there. */
    method StartRunning(task: ClaudeTask, me: nat, claimName: string, ghost op: Op)
      requires Copies(task, op) && SplitRepository(task.spec.repository).Some? && claimName == ClaimNameOf(task.spec)
      requires cluster.Waits(task, me, AfterCall(task.spec, Go(op, Claiming), Created, cluster.now))
      modifies cluster, task
      ensures Evolves(old(cluster.world), cluster.world) && Done(task, me)
    {
      hide Has, WorldReachable, Evolves, ClaimNameOf, SplitRepository;
      task.phase := Running;
      task.claimName := claimName;
      task.startTime := Some(cluster.now);
      ghost var op1 := AfterCall(task.spec, Go(op, Claiming), Created, cluster.now);
      var err := cluster.UpdateStatus(task, me, op1);
      ghost var w1 := cluster.world;
      ghost var op2 := AfterWrite(task.spec, op1, !err, cluster.now).(version := task.resourceVersion);
      if err {
        assert cluster.Waits(task, me, op2);
        return;
      }
      cluster.CommentOnTask(task, me, StartComment, op2);
      EvolvesChain(old(cluster.world), w1, cluster.world);
      assert cluster.Waits(task, me, AfterCall(task.spec, op2, Posted(true), cluster.now));
    }

    lemma DispatchNew(spec: Spec, op: Op, now: int)
      requires op.st.phase.IsNew()
      ensures Dispatch(spec, op, now) ==
              if SplitRepository(spec.repository).None? then Fail(op, now) else Go(op, Claiming)
    {
      hide SplitRepository;
    }

    lemma NameOf(spec: Spec)
      requires SplitRepository(spec.repository).Some?
      ensures var parts := SplitRepository(spec.repository).value;
              ClaimNameOf(spec) == ClaimNames.ClaimName(parts.0, parts.1, spec.issue)
    {
    }

    method ReconcileWaitingForClarification(task: ClaudeTask, me: nat, ghost op: Op)
      requires Copies(task, op) && task.phase.WaitingForClarification?
      requires cluster.Waits(task, me, Dispatch(task.spec, op, cluster.now))
      modifies cluster, task
      ensures Evolves(old(cluster.world), cluster.world) && Done(task, me)
    {
      hide Has, WorldReachable, Evolves;
      if task.startTime.Some? {
        var elapsed := cluster.now - task.startTime.value;
        if elapsed > CLARIFICATION_WAIT_TIMEOUT {
          FailTask(task, me, op);
          return;
        }
      }
      assert cluster.Waits(task, me, Go(op, Finished));
      Unmoved(task, me, Go(op, Finished));
    }

    lemma Unmoved(task: ClaudeTask, me: nat, op: Op)
      requires cluster.Waits(task, me, op)
      ensures Evolves(cluster.world, cluster.world)
    {
      EvolvesSelf(cluster.world);
    }

    method ReconcileRunning(task: ClaudeTask, me: nat, ghost op: Op)
      requires Copies(task, op) && task.phase.Running? && cluster.Waits(task, me, Dispatch(task.spec, op, cluster.now))
      modifies cluster, task, task.costReport
      ensures Evolves(old(cluster.world), cluster.world) && Done(task, me)
    {
      hide Has, WorldReachable, Evolves, AfterRun, AfterWrite;
      var claimName := task.claimName;
      if claimName == "" {
        FailTask(task, me, op);
        return;
      }
      var parts := SplitRepository(task.spec.repository);
      if parts.None? {
        FailTask(task, me, op);
        return;
      }
      ghost var op1 := op;
      Unmoved(task, me, Dispatch(task.spec, op, cluster.now));
      if task.podName == "" {
        var ready := EnsurePod(task, me, op);
        if !ready {
          return;
        }
        op1 := op.(st := task.View(), version := task.resourceVersion);
      }
      ghost var w1 := cluster.world;
      // Detect a resume after clarification.
      var isResume := false;
      var n := |task.clarifications|;
      if n > 0 && task.clarifications[n - 1].answer != "" {
        isResume := true;
      }
      var ok := cluster.GetCloneToken(task, me, Go(op1, FetchingToken));
      ghost var w2 := cluster.world;
      EvolvesChain(old(cluster.world), w1, w2);
      if !ok {
        FailTask(task, me, Go(op1, FetchingToken));
        EvolvesChain(old(cluster.world), w2, cluster.world);
        return;
      }
      ghost var op2 := Go(op1, Executing);
      var output, failed := cluster.Exec(task, me, task.podName, isResume, op2);
      ghost var w3 := cluster.world;
      EvolvesChain(old(cluster.world), w2, w3);
      FinishRun(task, me, output, failed, op2);
      EvolvesChain(old(cluster.world), w3, cluster.world);
    }

    /** The part of reconcileRunning that waits for the sandbox and records the pod. */
    method EnsurePod(task: ClaudeTask, me: nat, ghost op: Op) returns (ready: bool)
      requires Copies(task, op) && task.podName == "" && cluster.Waits(task, me, Go(op, AwaitingSandbox))
      modifies cluster, task
      ensures Evolves(old(cluster.world), cluster.world)
      ensures if ready
              then cluster.Waits(task, me, Go(op, FetchingToken).(st := task.View(), version := task.resourceVersion))
              else Done(task, me)
      ensures ready ==> task.costReport == old(task.costReport)
    {
      hide Has, WorldReachable, Evolves;
      var pod := cluster.WaitForReady(task, me, task.claimName, Go(op, AwaitingSandbox));
      ghost var w1 := cluster.world;
      if pod.None? {
        FailTask(task, me, Go(op, AwaitingSandbox));
        EvolvesChain(old(cluster.world), w1, cluster.world);
        return false;
      }
      task.podName := pod.value;
      ghost var op1 := AfterCall(task.spec, Go(op, AwaitingSandbox), Sandbox(pod), cluster.now);
      var err := cluster.UpdateStatus(task, me, op1);
      EvolvesChain(old(cluster.world), w1, cluster.world);
      assert cluster.Waits(task, me, AfterWrite(task.spec, op1, !err, cluster.now).(version := task.resourceVersion));
      return !err;
    }

    /** reconcileRunning from the end of the run on. */
    method FinishRun(task: ClaudeTask, me: nat, output: string, failed: bool, ghost op: Op)
      requires Copies(task, op)
      requires var (cr, text) := Parsed(output, cluster.decode);
               cluster.Waits(task, me, AfterRun(op, cr, text, failed, cluster.now))
      modifies cluster, task, task.costReport
      ensures Evolves(old(cluster.world), cluster.world) && Done(task, me)
    {
      hide Has, WorldReachable, Evolves, Accumulate, Clarification, PullRequestURL, AfterWrite, Contains;
      var cr, resultText := ParseClaudeOutput(output, cluster.decode);
      task.costReport := AccumulateCost(task.costReport, cr);
      ghost var op1 := op.(st := task.View(), ran := Some(cr));
      var question := ParseClarification(resultText);
      if question != "" {
        SaveAndAsk(task, me, question, op1);
        return;
      }
      if failed {
        FailTask(task, me, op1);
        return;
      }
      if Contains(resultText, MARKER_FAILED) && !Contains(resultText, MARKER_COMPLETE) {
        FailTask(task, me, op1);
        return;
      }
      var prURL := PullRequestURL(resultText);
      task.phase := Completed;
      task.completionTime := Some(cluster.now);
      if prURL != "" {
        task.pullRequestURL := prURL;
      }
      Complete(task, me, Go(op1.(st := task.View()), Completing));
    }

    /** The write of Completed, the comment and the cleanup. */
    method Complete(task: ClaudeTask, me: nat, ghost op: Op)
      requires Copies(task, op) && op.stage.Completing? && cluster.Waits(task, me, op)
      modifies cluster, task
      ensures Evolves(old(cluster.world), cluster.world) && Done(task, me)
    {
      hide Has, WorldReachable, Evolves;
      var err := cluster.UpdateStatus(task, me, op);
      ghost var w1 := cluster.world;
      ghost var op1 := AfterWrite(task.spec, op, !err, cluster.now).(version := task.resourceVersion);
      if err {
        assert cluster.Waits(task, me, op1);
        return;
      }
      cluster.CommentOnTask(task, me, CompletionComment, op1);
      ghost var w2 := cluster.world;
      EvolvesChain(old(cluster.world), w1, w2);
      ghost var op2 := Go(op1, Releasing);
      cluster.DeleteClaim(task, me, task.claimName, op2);
      EvolvesChain(old(cluster.world), w2, cluster.world);
      assert cluster.Waits(task, me, Go(op2, Finished));
    }

    /** The cost is saved first; a failure of that write is ignored. */
    method SaveAndAsk(task: ClaudeTask, me: nat, question: string, ghost op: Op)
      requires Copies(task, op) && cluster.Waits(task, me, Go(op, SavingCost(question)))
      modifies cluster, task
      ensures Evolves(old(cluster.world), cluster.world) && Done(task, me)
    {
      hide Has, WorldReachable, Evolves;
      var err := cluster.UpdateStatus(task, me, Go(op, SavingCost(question)));
      ghost var w1 := cluster.world;
      HandleClarification(task, me, question, Go(op, SavingCost(question)).(version := task.resourceVersion));
      EvolvesChain(old(cluster.world), w1, cluster.world);
    }

    method HandleClarification(task: ClaudeTask, me: nat, question: string, ghost op: Op)
      requires Copies(task, op) && cluster.Waits(task, me, Ask(task.spec, op, question, cluster.now))
      modifies cluster, task
      ensures Evolves(old(cluster.world), cluster.world) && Done(task, me)
    {
      hide Has, WorldReachable, Evolves;
      var maxRounds := task.spec.maxClarifications;
      if maxRounds == 0 {
        maxRounds := DEFAULT_MAX_CLARIFICATIONS;
      }
      if |task.clarifications| >= maxRounds {
        FailTask(task, me, op);
        return;
      }
      task.clarifications := task.clarifications + [Exchange(question, "")];
      task.phase := WaitingForClarification;
      ghost var op1 := Go(op.(st := task.View()), Asking);
      var err := cluster.UpdateStatus(task, me, op1);
      ghost var w1 := cluster.world;
      ghost var op2 := AfterWrite(task.spec, op1, !err, cluster.now).(version := task.resourceVersion);
      if err {
        assert cluster.Waits(task, me, op2);
        return;
      }
      cluster.CommentOnTask(task, me, QuestionComment(|task.clarifications|), op2);
      EvolvesChain(old(cluster.world), w1, cluster.world);
      assert cluster.Waits(task, me, AfterCall(task.spec, op2, Posted(true), cluster.now));
    }

    method FailTask(task: ClaudeTask, me: nat, ghost op: Op)
      requires Copies(task, op) && cluster.Waits(task, me, Fail(op, cluster.now))
      modifies cluster, task
      ensures Evolves(old(cluster.world), cluster.world) && Done(task, me)
    {
      hide Has, WorldReachable, Evolves;
      task.phase := Failed;
      task.completionTime := Some(cluster.now);
      ghost var op1 := Fail(op, cluster.now);
      var err := cluster.UpdateStatus(task, me, op1);
      ghost var w1 := cluster.world;
      ghost var op2 := AfterWrite(task.spec, op1, !err, cluster.now).(version := task.resourceVersion);
      if err {
        assert cluster.Waits(task, me, op2);
        return;
      }
      var parts := SplitRepository(task.spec.repository);
      if parts.Some? {
        cluster.CommentOnTask(task, me, FailureComment, op2);
        op2 := AfterCall(task.spec, op2, Posted(true), cluster.now);
        EvolvesChain(old(cluster.world), w1, cluster.world);
      }
      ghost var w2 := cluster.world;
      if task.claimName != "" {
        cluster.DeleteClaim(task, me, task.claimName, op2);
        EvolvesChain(old(cluster.world), w2, cluster.world);
        op2 := Go(op2, Finished);
      }
      assert cluster.Waits(task, me, op2);
    }
  }
}
