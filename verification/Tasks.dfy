/** api/v1alpha1/claudetask_types.go: the fields of a ClaudeTask that its lifecycle depends on. */
module Tasks {
  import opened Text
  import opened Options
  import opened Cost
  import opened ClaimNames

  /** `Unset` is the empty phase of a task that was just created. */
  datatype Phase = Unset | Pending | Running | WaitingForClarification | Completed | Failed
  {
    predicate IsNew() {
      Unset? || Pending?
    }

    predicate IsTerminal() {
      Completed? || Failed?
    }

    predicate IsLive() {
      Running? || WaitingForClarification?
    }
  }

  /** One question and its answer, empty until there is one. */
  datatype Exchange = Exchange(question: string, answer: string)

  datatype Spec = Spec(
    repository: string,
    issue: nat,
    pullRequest: int,
    taskType: string,
    branch: string,
    prompt: string,
    reviewCommentID: int,
    maxClarifications: nat)

  /** Times are in seconds. */
  datatype Status = Status(
    phase: Phase,
    claimName: string,
    podName: string,
    startTime: Option<int>,
    completionTime: Option<int>,
    pullRequestURL: string,
    costReport: Option<Costs>,
    clarifications: seq<Exchange>)

  const DEFAULT_MAX_CLARIFICATIONS := 3
  const CLARIFICATION_WAIT_TIMEOUT := 24 * 60 * 60
  const REQUEUE_INTERVAL := 5 * 60

  function MaxRounds(spec: Spec): (n: nat)
    ensures n > 0
  {
    if spec.maxClarifications == 0 then DEFAULT_MAX_CLARIFICATIONS else spec.maxClarifications
  }

  /** strings.SplitN(repository, "/", 2) when it has two parts. */
  function SplitRepository(repository: string): Option<(string, string)> {
    var i := Index(repository, "/");
    if i == -1 then None else Some((repository[..i], repository[i + 1..]))
  }

  /** The repository that a webhook composes splits into its parts again, and whatever splits does so
      at its first slash. */
  lemma SplitJoined(owner: string, repo: string, repository: string)
    ensures !Contains(owner, "/") ==> SplitRepository(owner + "/" + repo) == Some((owner, repo))
    ensures SplitRepository(repository).Some? <==> Contains(repository, "/")
    ensures SplitRepository(repository).Some? ==>
              var parts := SplitRepository(repository).value;
              parts.0 + "/" + parts.1 == repository && !Contains(parts.0, "/")
  {
    var s := owner + "/" + repo;
    if !Contains(owner, "/") {
      forall j | 0 <= j < |owner| ensures !At(s, "/", j) {
        assert At(s, "/", j) ==> At(owner, "/", j) && Occurs(owner, "/");
      }
      IndexIs(s, "/", |owner|);
      assert s[..|owner|] == owner && s[|owner| + 1..] == repo;
    }
    var i := Index(repository, "/");
    if i != -1 {
      IndexInPrefix(repository, "/", i);
    }
  }

  function ClaimNameOf(spec: Spec): string
    requires SplitRepository(spec.repository).Some?
  {
    var parts := SplitRepository(spec.repository).value;
    ClaimName(parts.0, parts.1, spec.issue)
  }

  /** The status of a task that no controller has touched. */
  predicate IsInitial(st: Status) {
    st.phase.IsNew() && st == Status(st.phase, "", "", None, None, "", None, [])
  }

  predicate AllAnswered(cs: seq<Exchange>) {
    forall i :: 0 <= i < |cs| ==> cs[i].answer != ""
  }

  predicate LastOpen(cs: seq<Exchange>) {
    cs != [] && cs[|cs| - 1].answer == "" && AllAnswered(cs[..|cs| - 1])
  }

  /** Fill in the answer of the last exchange, if there is one. */
  function WithAnswer(cs: seq<Exchange>, answer: string): seq<Exchange> {
    if cs == [] then [] else cs[..|cs| - 1] + [cs[|cs| - 1].(answer := answer)]
  }
}
