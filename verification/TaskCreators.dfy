/** cmd/main.go: what the webhook handlers call. */
module TaskCreators {
  import opened Options
  import opened Tasks
  import opened Protocol
  import opened Lifecycle
  import opened Sandboxes
  import opened Clusters
  import opened Webhook
  import opened Allowlist

  /** The task is waiting and belongs to the repository and the issue or pull request that the
      request names. */
  predicate Matches(req: TaskRequest, spec: Spec, st: Status) {
    && st.phase.WaitingForClarification?
    && spec.repository == req.owner + "/" + req.repo
    && !(req.issue > 0 && spec.issue != req.issue)
    && !(req.pullRequest > 0 && spec.pullRequest != req.pullRequest)
  }

  /** The copy of a task that a resume stores. */
  function WithReply(st: Status, answer: string): Status {
    st.(phase := Running, clarifications := WithAnswer(st.clarifications, answer))
  }

  /** The specification of the task that a request asks for. */
  function SpecOf(req: TaskRequest): Spec {
    Spec(repository := req.owner + "/" + req.repo, issue := req.issue, pullRequest := req.pullRequest,
         taskType := req.taskType, branch := req.branch, prompt := req.prompt,
         reviewCommentID := req.reviewCommentID, maxClarifications := 0)
  }

  datatype UserAccess = Allow | Deny | LookupError

  /** The permission lookup on GitHub; `None` is an error. */
  type Permissions = (Client, string, string) -> Option<string>

  /** Who may trigger the operator, given the merged lists and the client to ask. */
  function UserVerdict(users: seq<string>, roles: seq<string>, username: string,
                       client: Option<Client>, fullName: string, permissions: Permissions): UserAccess {
    if users == [] && roles == [] then Allow
    else if username in users then Allow
    else if roles == [] || client.None? then Deny
    else
      match permissions(client.value, fullName, username)
      case None => LookupError
      case Some(perm) => if perm in roles then Allow else Deny
  }

  /** Who is allowed, for any lists and any client: everybody without lists, whoever is listed, and
      whoever has a listed role according to the client. Only a lookup that is needed and fails is an
      error. */
  lemma VerdictMeans(users: seq<string>, roles: seq<string>, username: string,
                     client: Option<Client>, fullName: string, permissions: Permissions)
    ensures var verdict := UserVerdict(users, roles, username, client, fullName, permissions);
            var role := if client.None? then None else permissions(client.value, fullName, username);
            var open := users == [] && roles == [];
            && (verdict.Allow? <==> open || username in users || (role.Some? && role.value in roles))
            && (verdict.LookupError? <==>
                  !open && username !in users && roles != [] && client.Some? && role.None?)
  {
  }

  class TaskCreator {
    const cluster: Cluster
    const allowlist: AllowlistCache
    const ghClient: Option<Client>
    const permissions: Permissions

    constructor (cluster: Cluster, allowlist: AllowlistCache, ghClient: Option<Client>, permissions: Permissions)
      ensures this.cluster == cluster && this.allowlist == allowlist
      ensures this.ghClient == ghClient && this.permissions == permissions
    {
      this.cluster, this.allowlist := cluster, allowlist;
      this.ghClient, this.permissions := ghClient, permissions;
    }

    /** Fill in the answer, set the phase and store the copy. */
    method Reply(task: ClaudeTask, answer: string) returns (err: bool)
      requires WorldReachable(cluster.world) && answer != "" && cluster.Listed(task)
      requires task.phase.WaitingForClarification?
      modifies cluster, task
      ensures Evolves(old(cluster.world), cluster.world) && WorldReachable(cluster.world)
      ensures task.View() == WithReply(old(task.View()), answer)
      ensures task.name < |cluster.world.tasks| && cluster.world.tasks[task.name].spec == task.spec
      ensures !err ==>
                && var hist, v := cluster.world.tasks[task.name].hist, task.resourceVersion;
                   0 < v < |hist| && hist[v - 1] == old(task.View()) && hist[v] == task.View()
      ensures AnswerMoves(old(cluster.world), cluster.world, task.name, old(task.resourceVersion), answer, err)
    {
      hide Evolves, WorldReachable, AnswerMoves;
      ghost var before := task.View();
      if |task.clarifications| > 0 {
        var n := |task.clarifications| - 1;
        task.clarifications := task.clarifications[..n] + [task.clarifications[n].(answer := answer)];
      }
      task.phase := Running;
      err := cluster.UpdateAnswered(task, answer, before);
    }

    /** The first listed task that matches, or the length of the list. */
    method FirstMatch(items: seq<ClaudeTask>, req: TaskRequest) returns (hit: nat)
      ensures hit <= |items|
      ensures forall i :: 0 <= i < hit ==> !Matches(req, items[i].spec, items[i].View())
      ensures hit < |items| ==> Matches(req, items[hit].spec, items[hit].View())
      ensures forall i :: 0 <= i < hit ==>
                || !items[i].phase.WaitingForClarification?
                || items[i].spec.repository != req.owner + "/" + req.repo
                || (req.issue > 0 && items[i].spec.issue != req.issue)
                || (req.pullRequest > 0 && items[i].spec.pullRequest != req.pullRequest)
      ensures hit < |items| ==>
                && items[hit].phase.WaitingForClarification?
                && items[hit].spec.repository == req.owner + "/" + req.repo
                && (req.issue > 0 ==> items[hit].spec.issue == req.issue)
                && (req.pullRequest > 0 ==> items[hit].spec.pullRequest == req.pullRequest)
    {
      var fullRepo := req.owner + "/" + req.repo;
      hit := 0;
      while hit < |items|
        invariant 0 <= hit <= |items|
        invariant forall i :: 0 <= i < hit ==> !Matches(req, items[i].spec, items[i].View())
      {
        var skip := Skips(req, fullRepo, items[hit]);
        if !skip {
          return;
        }
        hit := hit + 1;
      }
    }

    /** ResumeClarification on the listed tasks: the first that matches gets the answer and is stored;
        no other copy is touched. `hit` is its position, or the length of the list. */
    method ResumeFirst(items: seq<ClaudeTask>, req: TaskRequest) returns (resumed: bool, err: bool, hit: nat)
      requires WorldReachable(cluster.world) && req.clarificationAnswer != ""
      requires forall i :: 0 <= i < |items| ==> cluster.Listed(items[i])
      requires forall i, j :: 0 <= i < j < |items| ==> items[i].name != items[j].name
      modifies cluster, items
      ensures Evolves(old(cluster.world), cluster.world) && WorldReachable(cluster.world)
      ensures hit <= |items|
      ensures forall i :: 0 <= i < hit ==> !old(Matches(req, items[i].spec, items[i].View()))
      ensures forall i :: 0 <= i < |items| && i != hit ==> items[i].View() == old(items[i].View())
      ensures forall i :: 0 <= i < hit ==>
                || !old(items[i].phase).WaitingForClarification?
                || items[i].spec.repository != req.owner + "/" + req.repo
                || (req.issue > 0 && items[i].spec.issue != req.issue)
                || (req.pullRequest > 0 && items[i].spec.pullRequest != req.pullRequest)
      ensures hit < |items| ==>
                && old(items[hit].phase).WaitingForClarification?
                && items[hit].spec.repository == req.owner + "/" + req.repo
                && (req.issue > 0 ==> items[hit].spec.issue == req.issue)
                && (req.pullRequest > 0 ==> items[hit].spec.pullRequest == req.pullRequest)
      ensures hit == |items| ==> !resumed && !err && cluster.world == old(cluster.world)
      ensures hit < |items| ==>
                && old(Matches(req, items[hit].spec, items[hit].View()))
                && items[hit].View() == WithReply(old(items[hit].View()), req.clarificationAnswer)
                && err == !resumed
                && Answers(old(cluster.world), cluster.world, items[hit].name, old(items[hit].resourceVersion), req,
                   err)
      ensures resumed ==> hit < |items| && ResumedAt(cluster.world, items[hit].name, items[hit].resourceVersion, req)
    {
      hide Evolves, WorldReachable, WithReply, AnswerMoves, Matches;
      hit := FirstMatch(items, req);
      if hit == |items| {
        SelfEvolves();
        return false, false, hit;
      }
      MatchWaits(req, items[hit].spec, items[hit].View());
      err := Reply(items[hit], req.clarificationAnswer);
      resumed := !err;
      if resumed {
        ReplyIsLast(cluster.world, items[hit].name, items[hit].resourceVersion - 1, req.clarificationAnswer);
      }
    }

    lemma ReplyIsLast(w: World, t: nat, v: nat, answer: string)
      requires WorldReachable(w) && t < |w.tasks| && v < |w.tasks[t].hist|
      requires w.tasks[t].hist[v].phase.WaitingForClarification?
      ensures var st := w.tasks[t].hist[v];
              && st.clarifications != []
              && var n := |st.clarifications| - 1;
                 WithReply(st, answer) ==
                   st.(phase := Running,
                       clarifications := st.clarifications[..n] + [Exchange(st.clarifications[n].question, answer)])
    {
      hide WorldReachable, Reachable;
      WorldTaskInv(w, t);
      QuestionLedger(w.tasks[t]);
    }

    lemma MatchWaits(req: TaskRequest, spec: Spec, st: Status)
      requires Matches(req, spec, st)
      ensures st.phase.WaitingForClarification?
    {
    }

    lemma SelfEvolves()
      requires WorldReachable(cluster.world)
      ensures Evolves(cluster.world, cluster.world)
    {
      RunsSane(cluster.world);
      EvolvesSelf(cluster.world);
    }

    /** The conditions under which the loop goes on to the next task. */
    method Skips(req: TaskRequest, fullRepo: string, task: ClaudeTask) returns (skip: bool)
      requires fullRepo == req.owner + "/" + req.repo
      ensures skip <==> !Matches(req, task.spec, task.View())
    {
      if !task.phase.WaitingForClarification? {
        return true;
      }
      if task.spec.repository != fullRepo {
        return true;
      }
      if req.issue > 0 && task.spec.issue != req.issue {
        return true;
      }
      if req.pullRequest > 0 && task.spec.pullRequest != req.pullRequest {
        return true;
      }
      return false;
    }

    method ResumeClarification(req: TaskRequest) returns (resumed: bool, err: bool)
      requires WorldReachable(cluster.world) && req.clarificationAnswer != ""
      modifies cluster
      ensures Evolves(old(cluster.world), cluster.world) && WorldReachable(cluster.world)
      ensures resumed ==> !err && exists t, v :: ResumedAt(cluster.world, t, v, req)
      ensures (cluster.world == old(cluster.world) && !resumed)
              || exists t, v :: Answers(old(cluster.world), cluster.world, t, v, req, err)
    {
      hide Evolves, WorldReachable, ResumedAt, Answers, Matches, WithReply;
      var failed: bool := *;
      if failed {
        SelfEvolves();
        return false, true;
      }
      var items := cluster.List();
      var hit;
      resumed, err, hit := ResumeFirst(items, req);
      if resumed {
        assert ResumedAt(cluster.world, items[hit].name, items[hit].resourceVersion, req);
      }
    }

    /** Version `v` of task `t` is the resume of a waiting version by `req`: the task has the repository
        of the request and the numbers that it names, and the reply is the last answer. */
    ghost predicate ResumedAt(w: World, t: nat, v: nat, req: TaskRequest) {
      && t < |w.tasks| && 0 < v < |w.tasks[t].hist|
      && var spec, before, after := w.tasks[t].spec, w.tasks[t].hist[v - 1], w.tasks[t].hist[v];
         && before.phase.WaitingForClarification?
         && spec.repository == req.owner + "/" + req.repo
         && (req.issue > 0 ==> spec.issue == req.issue)
         && (req.pullRequest > 0 ==> spec.pullRequest == req.pullRequest)
         && after.phase.Running? && before.clarifications != []
         && var n := |before.clarifications| - 1;
            after == before.(phase := Running,
                             clarifications := before.clarifications[..n]
                               + [Exchange(before.clarifications[n].question, req.clarificationAnswer)])
    }

    /** The call made the moves of one resume, of a version of a task that belongs to the request. */
    ghost predicate Answers(w: World, w': World, t: nat, v: nat, req: TaskRequest, err: bool) {
      && t < |w.tasks| && v < |w.tasks[t].hist|
      && w.tasks[t].hist[v].phase.WaitingForClarification?
      && w.tasks[t].spec.repository == req.owner + "/" + req.repo
      && (req.issue > 0 ==> w.tasks[t].spec.issue == req.issue)
      && (req.pullRequest > 0 ==> w.tasks[t].spec.pullRequest == req.pullRequest)
      && AnswerMoves(w, w', t, v, req.clarificationAnswer, err)
    }

    /** CreateTask stores a task with the request's repository, numbers, type, branch and prompt, the
        default number of clarifications and an empty status; after an error that may have happened
        or not, and nothing else has. */
    method CreateTask(req: TaskRequest) returns (ok: bool)
      requires WorldReachable(cluster.world)
      modifies cluster
      ensures WorldReachable(cluster.world) && Evolves(old(cluster.world), cluster.world)
      ensures cluster.world == WorldStep(old(cluster.world), Sandboxes.Create(SpecOf(req)))
              || (!ok && cluster.world == old(cluster.world))
      ensures cluster.world.claims == old(cluster.world).claims
      ensures cluster.world != old(cluster.world) ==>
                && |cluster.world.tasks| == |old(cluster.world).tasks| + 1
                && var n := |old(cluster.world).tasks|;
                   && cluster.world.tasks[..n] == old(cluster.world).tasks
                   && IsFresh(cluster.world.tasks[n])
                   && var spec := cluster.world.tasks[n].spec;
                      && spec.repository == req.owner + "/" + req.repo
                      && spec.issue == req.issue && spec.pullRequest == req.pullRequest
                      && spec.taskType == req.taskType && spec.branch == req.branch && spec.prompt == req.prompt
                      && spec.reviewCommentID == req.reviewCommentID && spec.maxClarifications == 0
    {
      ok := cluster.CreateTask(SpecOf(req));
    }

    /** Search of a name in a list, as both loops of IsUserAllowed do. */
    method IsListed(list: seq<string>, name: string) returns (found: bool)
      ensures found <==> name in list
    {
      var i := 0;
      while i < |list|
        invariant 0 <= i <= |list|
        invariant name !in list[..i]
      {
        if list[i] == name {
          return true;
        }
        i := i + 1;
      }
      return false;
    }

    /** The client to ask about a repository: its own, else the global one; none without a global one. */
    function ClientFor(fullName: string): Option<Client>
      reads allowlist
    {
      if ghClient.Some? && fullName in allowlist.clients then Some(allowlist.clients[fullName]) else ghClient
    }

    method IsRepoAllowed(owner: string, repo: string) returns (allowed: bool)
      requires allowlist.Valid()
      ensures allowed <==> Allowed(allowlist.regex, allowlist.history, owner + "/" + repo)
    {
      allowed := allowlist.IsAllowed(owner + "/" + repo);
    }

    method IsUserAllowed(owner: string, repo: string, username: string) returns (verdict: UserAccess)
      requires allowlist.Valid()
      ensures exists users, roles :: allowlist.Merged(owner + "/" + repo, users, roles)
                && verdict == UserVerdict(users, roles, username, ClientFor(owner + "/" + repo), owner + "/" + repo,
                   permissions)
      ensures exists users, roles ::
                && allowlist.Merged(owner + "/" + repo, users, roles)
                && var fullName := owner + "/" + repo;
                   var client := if ghClient.None? then None
                                 else if fullName in allowlist.clients then Some(allowlist.clients[fullName])
                                 else ghClient;
                   var role := if client.None? then None else permissions(client.value, fullName, username);
                   var open := users == [] && roles == [];
                   && (verdict.Allow? <==> open || username in users || (role.Some? && role.value in roles))
                   && (verdict.LookupError? <==>
                         !open && username !in users && roles != [] && client.Some? && role.None?)
    {
      hide AllowlistCache.Merged, AllowlistCache.Valid, UserVerdict;
      var users, roles := allowlist.GetMergedAllowlist(owner + "/" + repo);
      verdict := Check(users, roles, owner + "/" + repo, username);
      VerdictMeans(users, roles, username, ClientFor(owner + "/" + repo), owner + "/" + repo, permissions);
      assert allowlist.Merged(owner + "/" + repo, users, roles);
    }

    /** IsUserAllowed on the merged lists. */
    method Check(users: seq<string>, roles: seq<string>, fullName: string, username: string)
        returns (verdict: UserAccess)
      ensures verdict == UserVerdict(users, roles, username, ClientFor(fullName), fullName, permissions)
    {
      if |users| == 0 && |roles| == 0 {
        return Allow;
      }
      var listed := IsListed(users, username);
      if listed {
        return Allow;
      }
      if |roles| > 0 && ghClient.Some? {
        var ghc := ghClient.value;
        var c := allowlist.GetClient(fullName);
        if c.Some? {
          ghc := c.value;
        }
        var perm := permissions(ghc, fullName, username);
        if perm.None? {
          return LookupError;
        }
        listed := IsListed(roles, perm.value);
        if listed {
          return Allow;
        }
      }
      return Deny;
    }

    method GetAutoLabels(owner: string, repo: string) returns (labels: seq<string>)
      requires allowlist.Valid()
      ensures if Allowed(allowlist.regex, allowlist.history, owner + "/" + repo)
              then exists r :: Entry(allowlist.regex, allowlist.history, owner + "/" + repo, r) && labels == r.labels
              else labels == []
    {
      hide Entry, Allowed, AllowlistCache.Valid;
      var r := allowlist.Get(owner + "/" + repo);
      if r == null {
        return [];
      }
      return r.labels;
    }
  }

  /** With a client and a lookup that succeeds, a user is allowed exactly when there is no
      restriction, or the user is listed, or the user's role is. */
  lemma UserAllowedIff(users: seq<string>, roles: seq<string>, username: string,
                       client: Option<Client>, fullName: string, permissions: Permissions)
    requires client.Some? && permissions(client.value, fullName, username).Some?
    ensures var role := permissions(client.value, fullName, username).value;
            UserVerdict(users, roles, username, client, fullName, permissions) ==
              if (users == [] && roles == []) || username in users || role in roles then Allow else Deny
  {
  }
}
