/** The operator and GitHub together: deliveries of all four events into a world of tasks, among them
    the operator's own comments, which GitHub delivers back to it. */
module Deliveries {
  import opened Options
  import opened Protocol
  import opened Sandboxes
  import opened Webhook
  import opened TaskCreators

  datatype Event =
    | OnIssueComment(comment: Option<IssueCommentEvent>)
    | OnReview(review: Option<ReviewEvent>)
    | OnReviewComment(reviewComment: Option<ReviewCommentEvent>)
    | OnIssues(issues: Option<IssuesEvent>)

  /** Settings of the handler: the bot's name, and buildReviewCommentPrompt. */
  datatype Settings = Settings(botName: string, prompt: ReviewCommentEvent -> string)

  /** What a comment or review is to its handler. */
  function TriggerOf(e: Event, s: Settings): Option<Trigger> {
    match e
    case OnIssueComment(c) => if c.None? then None else Some(IssueCommentTrigger(c.value))
    case OnReview(r) => if r.None? then None else Some(ReviewTrigger(r.value))
    case OnReviewComment(r) => if r.None? then None else Some(ReviewCommentTrigger(r.value, s.prompt))
    case OnIssues(_) => None
  }

  /** What the handler of an event does; the handlers' contracts say so. */
  function Handle(e: Event, s: Settings, a: Answers): Verdict {
    if e.OnIssues? then DecideIssues(e.issues, a) else DecideEvent(TriggerOf(e, s), s.botName, a)
  }

  /** Every guard of the event's handler is passed. */
  predicate Accepts(e: Event, s: Settings, a: Answers) {
    if e.OnIssues? then LabelAccepted(e.issues, a)
    else TriggerOf(e, s).Some? && Accepted(TriggerOf(e, s).value, s.botName, a)
  }

  /** Who caused a delivery: the operator by one of the comments that it has posted, or anybody else. */
  datatype Source = Operator(task: nat, comment: nat) | Other

  /** GitHub delivers a comment of the operator only after it was posted, as a comment or a review, and
      under the bot's login. */
  predicate CanDeliver(w: World, source: Source, e: Event, s: Settings) {
    source.Operator? ==>
      && source.task < |w.tasks| && source.comment < |w.tasks[source.task].comments|
      && !e.OnIssues?
      && (TriggerOf(e, s).Some? ==>
            TriggerOf(e, s).value.author == s.botName || TriggerOf(e, s).value.author == s.botName + "[bot]")
  }

  /** A delivery with what the task creator answers during it, `kept` when a create that was reported as
      an error was stored all the same; or a move of a writer. */
  datatype LoopMove =
    | Deliver(source: Source, event: Event, answers: Answers, kept: bool)
    | Write(task: nat, action: Action)

  function LoopStep(w: World, s: Settings, m: LoopMove): World
    requires Sane(w)
  {
    match m
    case Write(t, a) => WorldStep(w, Do(t, a))
    case Deliver(source, e, a, kept) =>
      var calls := Handle(e, s, a).calls;
      if CanDeliver(w, source, e, s) && calls != [] && calls[|calls| - 1].Create? && (a.created || kept)
      then WorldStep(w, Sandboxes.Create(SpecOf(calls[|calls| - 1].req)))
      else w
  }

  function LoopRun(s: Settings, moves: seq<LoopMove>): (w: World)
    ensures Sane(w)
  {
    if moves == [] then World([], {})
    else
      var before := LoopRun(s, moves[..|moves| - 1]);
      LoopSane(before, s, moves[|moves| - 1]);
      LoopStep(before, s, moves[|moves| - 1])
  }

  lemma LoopSane(w: World, s: Settings, m: LoopMove)
    requires Sane(w)
    ensures Sane(LoopStep(w, s, m))
  {
    hide Sane, WorldStep, Handle, CanDeliver;
    match m
    case Write(t, a) => StepSane(w, Do(t, a));
    case Deliver(_, e, a, _) =>
      var calls := Handle(e, s, a).calls;
      if calls != [] && calls[|calls| - 1].Create? {
        StepSane(w, Sandboxes.Create(SpecOf(calls[|calls| - 1].req)));
      }
  }

  /** The deliveries of others that passed every guard. */
  function AcceptedFromOthers(s: Settings, moves: seq<LoopMove>): nat {
    if moves == [] then 0
    else
      var m := moves[|moves| - 1];
      AcceptedFromOthers(s, moves[..|moves| - 1])
      + (if m.Deliver? && m.source.Other? && Accepts(m.event, s, m.answers) then 1 else 0)
  }

  /** A handler creates at most one task, as its last call, and only when every guard is passed. */
  lemma CreatesOnlyAccepted(e: Event, s: Settings, a: Answers)
    ensures var calls := Handle(e, s, a).calls;
            && (forall i :: 0 <= i < |calls| && calls[i].Create? ==> i == |calls| - 1)
            && (calls != [] && calls[|calls| - 1].Create? ==> Accepts(e, s, a))
  {
    hide HasBotMention, IsBotComment;
    if e.OnIssues? {
      IssuesDecisionExact(e.issues, a);
    }
  }

  /** No delivery of the operator's own comment makes any call: it creates and resumes nothing. */
  lemma OwnCommentDoesNothing(w: World, s: Settings, m: LoopMove)
    requires Sane(w) && m.Deliver? && m.source.Operator? && CanDeliver(w, m.source, m.event, s)
    ensures Handle(m.event, s, m.answers).calls == [] && LoopStep(w, s, m) == w
  {
    hide HasBotMention;
    if TriggerOf(m.event, s).Some? {
      DecisionExact(TriggerOf(m.event, s).value, s.botName, m.answers);
    }
  }

  lemma LoopStepGrows(w: World, s: Settings, m: LoopMove)
    requires Sane(w)
    ensures |LoopStep(w, s, m).tasks| <= |w.tasks| +
              (if m.Deliver? && m.source.Other? && Accepts(m.event, s, m.answers) then 1 else 0)
    ensures WorldReachable(w) ==> WorldReachable(LoopStep(w, s, m))
  {
    hide Handle, CanDeliver, Accepts, WorldReachable, Step, NewTask, Consistent, ClaimsAfter;
    match m
    case Write(t, a) =>
      if WorldReachable(w) {
        WorldReachableStep(w, Do(t, a));
      }
    case Deliver(source, e, a, kept) =>
      CreatesOnlyAccepted(e, s, a);
      if source.Operator? && CanDeliver(w, source, e, s) {
        OwnCommentDoesNothing(w, s, m);
      }
      var calls := Handle(e, s, a).calls;
      if WorldReachable(w) && calls != [] && calls[|calls| - 1].Create? {
        WorldReachableStep(w, Sandboxes.Create(SpecOf(calls[|calls| - 1].req)));
      }
  }

  /** No loop. In every run of the operator with GitHub, whatever comments it posts and gets delivered
      back, the tasks in the store never outnumber the accepted deliveries of others. */
  lemma {:induction false} NoSelfFeeding(s: Settings, moves: seq<LoopMove>)
    ensures WorldReachable(LoopRun(s, moves))
    ensures |LoopRun(s, moves).tasks| <= AcceptedFromOthers(s, moves)
  {
    if moves == [] {
      assert RunFrom(EMPTY, []) == World([], {});
    } else {
      hide WorldReachable, LoopStep, Accepts;
      NoSelfFeeding(s, moves[..|moves| - 1]);
      LoopStepGrows(LoopRun(s, moves[..|moves| - 1]), s, moves[|moves| - 1]);
    }
  }
}
