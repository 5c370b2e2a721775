/** internal/webhook/github.go: the handlers of GitHub events. The three for comments and reviews
    refine one decision; the event bodies are taken as decoded, `None` when that failed. */
module Webhook {
  import opened Text
  import opened Options

  datatype TaskRequest = TaskRequest(
    owner: string,
    repo: string,
    issue: nat,
    pullRequest: int,
    taskType: string,
    branch: string,
    prompt: string,
    reviewCommentID: int,
    clarificationAnswer: string)

  const OK := 200
  const CREATED := 201
  const BAD_REQUEST := 400
  const INTERNAL_SERVER_ERROR := 500

  datatype Check = Yes | No | CheckError
  datatype Resumption = Resumed | NotFound | ResumeError

  /** What the task creator answers during one delivery. */
  datatype Answers = Answers(repo: Check, user: Check, resume: Resumption, created: bool, autoLabels: seq<string>)

  datatype Call =
    | RepoCheck(owner: string, repo: string)
    | UserCheck(owner: string, repo: string, user: string)
    | Labels(owner: string, repo: string)
    | Resume(req: TaskRequest)
    | Create(req: TaskRequest)

  predicate HasBotMention(body: string, botName: string) {
    Contains(body, "@" + botName)
  }

  predicate IsBotComment(login: string, botName: string) {
    login == botName || login == botName + "[bot]"
  }

  /** The TaskCreator that a handler calls, with a log of the calls. */
  class Creator {
    const answers: Answers
    var calls: seq<Call>

    constructor (answers: Answers)
      ensures this.answers == answers && calls == []
    {
      this.answers, calls := answers, [];
    }

    method IsRepoAllowed(owner: string, repo: string) returns (r: Check)
      modifies this
      ensures r == answers.repo && calls == old(calls) + [RepoCheck(owner, repo)]
    {
      calls := calls + [RepoCheck(owner, repo)];
      return answers.repo;
    }

    method IsUserAllowed(owner: string, repo: string, user: string) returns (r: Check)
      modifies this
      ensures r == answers.user && calls == old(calls) + [UserCheck(owner, repo, user)]
    {
      calls := calls + [UserCheck(owner, repo, user)];
      return answers.user;
    }

    method GetAutoLabels(owner: string, repo: string) returns (labels: seq<string>)
      modifies this
      ensures labels == answers.autoLabels && calls == old(calls) + [Labels(owner, repo)]
    {
      calls := calls + [Labels(owner, repo)];
      return answers.autoLabels;
    }

    method ResumeClarification(req: TaskRequest) returns (r: Resumption)
      modifies this
      ensures r == answers.resume && calls == old(calls) + [Resume(req)]
    {
      calls := calls + [Resume(req)];
      return answers.resume;
    }

    method CreateTask(req: TaskRequest) returns (ok: bool)
      modifies this
      ensures ok == answers.created && calls == old(calls) + [Create(req)]
    {
      calls := calls + [Create(req)];
      return answers.created;
    }
  }

  // ---------- one decision ----------

  /** What matters of a comment or review: whether its action is the one handled, its text and
      author, and the requests that it gives rise to. */
  datatype Trigger = Trigger(
    handled: bool,
    body: string,
    author: string,
    resume: TaskRequest,
    create: TaskRequest)

  datatype Verdict = Verdict(status: int, calls: seq<Call>)

  /** The delivery is for the operator, as far as its content goes. */
  predicate Addressed(t: Trigger, botName: string) {
    t.handled && HasBotMention(t.body, botName) && !IsBotComment(t.author, botName)
  }

  /** Everything that must hold before a task is resumed or created. */
  predicate Accepted(t: Trigger, botName: string, a: Answers) {
    Addressed(t, botName) && a.repo.Yes? && a.user.Yes?
  }

  function Decide(t: Trigger, botName: string, a: Answers): Verdict {
    var owner, repo := t.create.owner, t.create.repo;
    var repoCall, userCall := RepoCheck(owner, repo), UserCheck(owner, repo, t.author);
    if !t.handled || !HasBotMention(t.body, botName) || IsBotComment(t.author, botName) then Verdict(OK, [])
    else if !a.repo.Yes? then Verdict(if a.repo.No? then OK else INTERNAL_SERVER_ERROR, [repoCall])
    else if !a.user.Yes? then Verdict(if a.user.No? then OK else INTERNAL_SERVER_ERROR, [repoCall, userCall])
    else if a.resume.Resumed? then Verdict(OK, [repoCall, userCall, Resume(t.resume)])
    else Verdict(if a.created then CREATED else INTERNAL_SERVER_ERROR,
                 [repoCall, userCall, Resume(t.resume), Create(t.create)])
  }

  function DecideEvent(t: Option<Trigger>, botName: string, a: Answers): Verdict {
    if t.None? then Verdict(BAD_REQUEST, []) else Decide(t.value, botName, a)
  }

  const NO_REQUEST := TaskRequest("", "", 0, 0, "", "", "", 0, "")

  datatype IssueCommentEvent = IssueCommentEvent(action: string, body: string, author: string, number: nat,
      owner: string, repo: string)

  datatype ReviewEvent = ReviewEvent(action: string, body: string, author: string, number: int, branch: string,
      owner: string, repo: string)

  datatype ReviewCommentEvent = ReviewCommentEvent(action: string, id: int, body: string, path: string, line: int,
    diffHunk: string, author: string, number: int, branch: string, owner: string, repo: string)

  datatype IssuesEvent = IssuesEvent(action: string, number: nat, addedLabel: Option<string>, sender: string,
      owner: string, repo: string)

  function IssueCommentTrigger(e: IssueCommentEvent): Trigger {
    var base := NO_REQUEST.(owner := e.owner, repo := e.repo, issue := e.number);
    Trigger(e.action == "created", e.body, e.author,
            base.(clarificationAnswer := e.body), base.(taskType := "IssueSolve"))
  }

  function ReviewTrigger(e: ReviewEvent): Trigger {
    var base := NO_REQUEST.(owner := e.owner, repo := e.repo, pullRequest := e.number);
    Trigger(e.action == "submitted", e.body, e.author,
            base.(clarificationAnswer := e.body), base.(taskType := "PRReviewFix", branch := e.branch))
  }

  function ReviewCommentTrigger(e: ReviewCommentEvent, prompt: ReviewCommentEvent -> string): Trigger {
    var base := NO_REQUEST.(owner := e.owner, repo := e.repo, pullRequest := e.number);
    Trigger(e.action == "created", e.body, e.author,
            base.(clarificationAnswer := e.body),
            base.(taskType := "PRReviewFix", branch := e.branch, prompt := prompt(e), reviewCommentID := e.id))
  }

  function IssuesRequest(e: IssuesEvent): TaskRequest {
    NO_REQUEST.(owner := e.owner, repo := e.repo, issue := e.number, taskType := "IssueSolve")
  }

  /** The decision on a label event. */
  function DecideIssues(body: Option<IssuesEvent>, a: Answers): Verdict {
    if body.None? then Verdict(BAD_REQUEST, [])
    else if body.value.action != "labeled" then Verdict(OK, [])
    else
      var e := body.value;
      var repoCall, labelsCall, userCall :=
        RepoCheck(e.owner, e.repo), Labels(e.owner, e.repo), UserCheck(e.owner, e.repo, e.sender);
      if !a.repo.Yes? then Verdict(if a.repo.No? then OK else INTERNAL_SERVER_ERROR, [repoCall])
      else if !LabelMatches(e, a) then Verdict(OK, [repoCall, labelsCall])
      else if !a.user.Yes? then
        Verdict(if a.user.No? then OK else INTERNAL_SERVER_ERROR, [repoCall, labelsCall, userCall])
      else Verdict(if a.created then CREATED else INTERNAL_SERVER_ERROR,
                   [repoCall, labelsCall, userCall, Create(IssuesRequest(e))])
  }

  predicate Labeled(body: Option<IssuesEvent>) {
    body.Some? && body.value.action == "labeled"
  }

  predicate LabelMatches(event: IssuesEvent, a: Answers) {
    event.addedLabel.Some? && event.addedLabel.value in a.autoLabels
  }

  predicate LabelAccepted(body: Option<IssuesEvent>, a: Answers) {
    Labeled(body) && a.repo.Yes? && LabelMatches(body.value, a) && a.user.Yes?
  }

  // ---------- the decisions, from the fields of the events ----------

  /** Every check is about this repository and this user, and nothing is resumed or created before
      both were checked. */
  ghost predicate OnlyAbout(calls: seq<Call>, owner: string, repo: string, user: string) {
    forall i :: 0 <= i < |calls| ==>
      match calls[i]
      case RepoCheck(o, r) => o == owner && r == repo
      case Labels(o, r) => o == owner && r == repo
      case UserCheck(o, r, u) => o == owner && r == repo && u == user
      case _ => RepoCheck(owner, repo) in calls[..i] && UserCheck(owner, repo, user) in calls[..i]
  }

  /** What a handler of comments or reviews does for one delivery, given whether it handles the action,
      the text and its author, the repository, and the two requests. */
  ghost predicate MeetsMention(handled: bool, text: string, author: string, owner: string, repo: string,
                               resume: TaskRequest, create: TaskRequest, botName: string, a: Answers,
                               calls: seq<Call>, status: int)
  {
    var addressed := handled && Contains(text, "@" + botName) && author != botName && author != botName + "[bot]";
    var passed := addressed && a.repo.Yes? && a.user.Yes?;
    && OnlyAbout(calls, owner, repo, author)
    && (RepoCheck(owner, repo) in calls <==> addressed)
    && (UserCheck(owner, repo, author) in calls <==> addressed && a.repo.Yes?)
    && (forall req :: Resume(req) in calls <==> passed && req == resume)
    && (forall req :: Create(req) in calls <==> passed && !a.resume.Resumed? && req == create)
    && (status == 201 <==> passed && !a.resume.Resumed? && a.created)
    && (status == 500 <==>
          || (addressed && a.repo.CheckError?)
          || (addressed && a.repo.Yes? && a.user.CheckError?)
          || (passed && !a.resume.Resumed? && !a.created))
    && (status != 201 && status != 500 ==> status == 200)
  }

  /** What the handler of label events does for one delivery. */
  ghost predicate MeetsLabel(action: string, addedLabel: Option<string>, sender: string, owner: string, repo: string,
                             create: TaskRequest, a: Answers, calls: seq<Call>, status: int)
  {
    var matched := action == "labeled" && a.repo.Yes? && addedLabel.Some? && addedLabel.value in a.autoLabels;
    var passed := matched && a.user.Yes?;
    && OnlyAbout(calls, owner, repo, sender)
    && (RepoCheck(owner, repo) in calls <==> action == "labeled")
    && (UserCheck(owner, repo, sender) in calls <==> matched)
    && (forall req :: Resume(req) !in calls)
    && (forall req :: Create(req) in calls <==> passed && req == create)
    && (status == 201 <==> passed && a.created)
    && (status == 500 <==>
          || (action == "labeled" && a.repo.CheckError?)
          || (matched && a.user.CheckError?)
          || (passed && !a.created))
    && (status != 201 && status != 500 ==> status == 200)
  }

  lemma ChecksFirst(calls: seq<Call>, owner: string, repo: string, user: string)
    requires |calls| >= 1 && calls[0] == RepoCheck(owner, repo)
    requires |calls| >= 2 ==> calls[1] == UserCheck(owner, repo, user)
    requires forall i :: 2 <= i < |calls| ==> calls[i].Resume? || calls[i].Create?
    ensures OnlyAbout(calls, owner, repo, user)
  {
    forall i | 2 <= i < |calls|
      ensures RepoCheck(owner, repo) in calls[..i] && UserCheck(owner, repo, user) in calls[..i]
    {
      assert calls[..i][0] == calls[0] && calls[..i][1] == calls[1];
    }
  }

  lemma DecideMeets(t: Trigger, botName: string, a: Answers)
    ensures var v := Decide(t, botName, a);
            MeetsMention(t.handled, t.body, t.author, t.create.owner, t.create.repo, t.resume, t.create,
                         botName, a, v.calls, v.status)
  {
    hide Contains, OnlyAbout, HasBotMention, IsBotComment;
    BotMeans(t.body, t.author, botName);
    var v := Decide(t, botName, a);
    NoCalls(t.create.owner, t.create.repo, t.author);
    if v.calls != [] {
      ChecksFirst(v.calls, t.create.owner, t.create.repo, t.author);
      assert v.calls[0] == RepoCheck(t.create.owner, t.create.repo);
      assert |v.calls| > 1 ==> v.calls[1] == UserCheck(t.create.owner, t.create.repo, t.author);
      assert |v.calls| > 2 ==> v.calls[2] == Resume(t.resume);
      assert |v.calls| > 3 ==> v.calls[3] == Create(t.create);
    }
  }

  lemma BotMeans(body: string, login: string, botName: string)
    ensures HasBotMention(body, botName) <==> Contains(body, "@" + botName)
    ensures IsBotComment(login, botName) <==> login == botName || login == botName + "[bot]"
  {
    hide Contains;
  }

  lemma NoCalls(owner: string, repo: string, user: string)
    ensures OnlyAbout([], owner, repo, user)
  {
  }

  lemma IssueCommentMeets(e: IssueCommentEvent, botName: string, a: Answers)
    ensures var v := Decide(IssueCommentTrigger(e), botName, a);
            MeetsMention(e.action == "created", e.body, e.author, e.owner, e.repo,
                         TaskRequest(e.owner, e.repo, e.number, 0, "", "", "", 0, e.body),
                         TaskRequest(e.owner, e.repo, e.number, 0, "IssueSolve", "", "", 0, ""),
                         botName, a, v.calls, v.status)
  {
    hide MeetsMention, Decide;
    DecideMeets(IssueCommentTrigger(e), botName, a);
  }

  lemma ReviewMeets(e: ReviewEvent, botName: string, a: Answers)
    ensures var v := Decide(ReviewTrigger(e), botName, a);
            MeetsMention(e.action == "submitted", e.body, e.author, e.owner, e.repo,
                         TaskRequest(e.owner, e.repo, 0, e.number, "", "", "", 0, e.body),
                         TaskRequest(e.owner, e.repo, 0, e.number, "PRReviewFix", e.branch, "", 0, ""),
                         botName, a, v.calls, v.status)
  {
    hide MeetsMention, Decide;
    DecideMeets(ReviewTrigger(e), botName, a);
  }

  lemma ReviewCommentMeets(e: ReviewCommentEvent, prompt: ReviewCommentEvent -> string, botName: string, a: Answers)
    ensures var v := Decide(ReviewCommentTrigger(e, prompt), botName, a);
            MeetsMention(e.action == "created", e.body, e.author, e.owner, e.repo,
                         TaskRequest(e.owner, e.repo, 0, e.number, "", "", "", 0, e.body),
                         TaskRequest(e.owner, e.repo, 0, e.number, "PRReviewFix", e.branch, prompt(e), e.id, ""),
                         botName, a, v.calls, v.status)
  {
    hide MeetsMention, Decide;
    DecideMeets(ReviewCommentTrigger(e, prompt), botName, a);
  }

  /** The same when labels are looked up in between. */
  lemma ChecksAndLabelsFirst(calls: seq<Call>, owner: string, repo: string, user: string)
    requires |calls| >= 1 && calls[0] == RepoCheck(owner, repo)
    requires |calls| >= 2 ==> calls[1] == Labels(owner, repo)
    requires |calls| >= 3 ==> calls[2] == UserCheck(owner, repo, user)
    requires forall i :: 3 <= i < |calls| ==> calls[i].Create?
    ensures OnlyAbout(calls, owner, repo, user)
  {
    forall i | 3 <= i < |calls|
      ensures RepoCheck(owner, repo) in calls[..i] && UserCheck(owner, repo, user) in calls[..i]
    {
      assert calls[..i][0] == calls[0] && calls[..i][2] == calls[2];
    }
  }

  lemma IssuesMeets(e: IssuesEvent, a: Answers)
    ensures var v := DecideIssues(Some(e), a);
            MeetsLabel(e.action, e.addedLabel, e.sender, e.owner, e.repo,
                       TaskRequest(e.owner, e.repo, e.number, 0, "IssueSolve", "", "", 0, ""), a, v.calls, v.status)
  {
    hide OnlyAbout;
    var v := DecideIssues(Some(e), a);
    NoCalls(e.owner, e.repo, e.sender);
    if v.calls != [] {
      ChecksAndLabelsFirst(v.calls, e.owner, e.repo, e.sender);
      assert v.calls[0] == RepoCheck(e.owner, e.repo);
      assert |v.calls| > 1 ==> v.calls[1] == Labels(e.owner, e.repo);
      assert |v.calls| > 2 ==> v.calls[2] == UserCheck(e.owner, e.repo, e.sender);
      assert |v.calls| > 3 ==> v.calls[3] == Create(IssuesRequest(e));
    }
  }

  class Handler {
    const botName: string
    const creator: Creator
    /** buildReviewCommentPrompt */
    const prompt: ReviewCommentEvent -> string

    constructor (botName: string, creator: Creator, prompt: ReviewCommentEvent -> string)
      ensures this.botName == botName && this.creator == creator && this.prompt == prompt
    {
      this.botName, this.creator, this.prompt := botName, creator, prompt;
    }

    method HandleIssueComment(body: Option<IssueCommentEvent>) returns (status: int)
      modifies creator
      ensures var t := if body.None? then None else Some(IssueCommentTrigger(body.value));
              var v := DecideEvent(t, botName, creator.answers);
              status == v.status && creator.calls == old(creator.calls) + v.calls
      ensures body.None? ==> status == 400 && creator.calls == old(creator.calls)
      ensures body.Some? ==>
                var e := body.value;
                MeetsMention(e.action == "created", e.body, e.author, e.owner, e.repo,
                             TaskRequest(e.owner, e.repo, e.number, 0, "", "", "", 0, e.body),
                             TaskRequest(e.owner, e.repo, e.number, 0, "IssueSolve", "", "", 0, ""),
                             botName, creator.answers, creator.calls[|old(creator.calls)|..], status)
    {
      hide MeetsMention, HasBotMention, IsBotComment;
      if body.None? {
        return BAD_REQUEST;
      }
      IssueCommentMeets(body.value, botName, creator.answers);
      var event := body.value;
      if event.action != "created" {
        return OK;
      }
      if !HasBotMention(event.body, botName) {
        return OK;
      }
      if IsBotComment(event.author, botName) {
        return OK;
      }
      var owner, repo := event.owner, event.repo;
      var allowed := creator.IsRepoAllowed(owner, repo);
      if allowed.CheckError? {
        return INTERNAL_SERVER_ERROR;
      }
      if allowed.No? {
        return OK;
      }
      allowed := creator.IsUserAllowed(owner, repo, event.author);
      if allowed.CheckError? {
        return INTERNAL_SERVER_ERROR;
      }
      if allowed.No? {
        return OK;
      }
      var issueNum := event.number;
      var resumed := creator.ResumeClarification(
        NO_REQUEST.(owner := owner, repo := repo, issue := issueNum, clarificationAnswer := event.body));
      if resumed.Resumed? {
        return OK;
      }
      var req := NO_REQUEST.(owner := owner, repo := repo, issue := issueNum, taskType := "IssueSolve");
      var ok := creator.CreateTask(req);
      if !ok {
        return INTERNAL_SERVER_ERROR;
      }
      return CREATED;
    }

    method HandlePRReview(body: Option<ReviewEvent>) returns (status: int)
      modifies creator
      ensures var t := if body.None? then None else Some(ReviewTrigger(body.value));
              var v := DecideEvent(t, botName, creator.answers);
              status == v.status && creator.calls == old(creator.calls) + v.calls
      ensures body.None? ==> status == 400 && creator.calls == old(creator.calls)
      ensures body.Some? ==>
                var e := body.value;
                MeetsMention(e.action == "submitted", e.body, e.author, e.owner, e.repo,
                             TaskRequest(e.owner, e.repo, 0, e.number, "", "", "", 0, e.body),
                             TaskRequest(e.owner, e.repo, 0, e.number, "PRReviewFix", e.branch, "", 0, ""),
                             botName, creator.answers, creator.calls[|old(creator.calls)|..], status)
    {
      hide MeetsMention, HasBotMention, IsBotComment;
      if body.None? {
        return BAD_REQUEST;
      }
      ReviewMeets(body.value, botName, creator.answers);
      var event := body.value;
      if event.action != "submitted" {
        return OK;
      }
      if !HasBotMention(event.body, botName) {
        return OK;
      }
      if IsBotComment(event.author, botName) {
        return OK;
      }
      var owner, repo := event.owner, event.repo;
      var allowed := creator.IsRepoAllowed(owner, repo);
      if allowed.CheckError? {
        return INTERNAL_SERVER_ERROR;
      }
      if allowed.No? {
        return OK;
      }
      allowed := creator.IsUserAllowed(owner, repo, event.author);
      if allowed.CheckError? {
        return INTERNAL_SERVER_ERROR;
      }
      if allowed.No? {
        return OK;
      }
      var prNum := event.number;
      var resumed := creator.ResumeClarification(
        NO_REQUEST.(owner := owner, repo := repo, pullRequest := prNum, clarificationAnswer := event.body));
      if resumed.Resumed? {
        return OK;
      }
      var req := NO_REQUEST.(owner := owner, repo := repo, pullRequest := prNum, taskType := "PRReviewFix",
          branch := event.branch);
      var ok := creator.CreateTask(req);
      if !ok {
        return INTERNAL_SERVER_ERROR;
      }
      return CREATED;
    }

    method HandlePRReviewComment(body: Option<ReviewCommentEvent>) returns (status: int)
      modifies creator
      ensures var t := if body.None? then None else Some(ReviewCommentTrigger(body.value, prompt));
              var v := DecideEvent(t, botName, creator.answers);
              status == v.status && creator.calls == old(creator.calls) + v.calls
      ensures body.None? ==> status == 400 && creator.calls == old(creator.calls)
      ensures body.Some? ==>
                var e := body.value;
                MeetsMention(e.action == "created", e.body, e.author, e.owner, e.repo,
                             TaskRequest(e.owner, e.repo, 0, e.number, "", "", "", 0, e.body),
                             TaskRequest(e.owner, e.repo, 0, e.number, "PRReviewFix", e.branch, prompt(e), e.id, ""),
                             botName, creator.answers, creator.calls[|old(creator.calls)|..], status)
    {
      hide MeetsMention, HasBotMention, IsBotComment;
      if body.None? {
        return BAD_REQUEST;
      }
      ReviewCommentMeets(body.value, prompt, botName, creator.answers);
      var event := body.value;
      if event.action != "created" {
        return OK;
      }
      if !HasBotMention(event.body, botName) {
        return OK;
      }
      if IsBotComment(event.author, botName) {
        return OK;
      }
      var owner, repo := event.owner, event.repo;
      var allowed := creator.IsRepoAllowed(owner, repo);
      if allowed.CheckError? {
        return INTERNAL_SERVER_ERROR;
      }
      if allowed.No? {
        return OK;
      }
      allowed := creator.IsUserAllowed(owner, repo, event.author);
      if allowed.CheckError? {
        return INTERNAL_SERVER_ERROR;
      }
      if allowed.No? {
        return OK;
      }
      var prNum := event.number;
      var resumed := creator.ResumeClarification(
        NO_REQUEST.(owner := owner, repo := repo, pullRequest := prNum, clarificationAnswer := event.body));
      if resumed.Resumed? {
        return OK;
      }
      var req := NO_REQUEST.(owner := owner, repo := repo, pullRequest := prNum, taskType := "PRReviewFix",
                             branch := event.branch, prompt := prompt(event), reviewCommentID := event.id);
      var ok := creator.CreateTask(req);
      if !ok {
        return INTERNAL_SERVER_ERROR;
      }
      return CREATED;
    }

    /** Labels trigger without a mention. */
    method HandleIssuesEvent(body: Option<IssuesEvent>) returns (status: int)
      modifies creator
      ensures var v := DecideIssues(body, creator.answers);
              status == v.status && creator.calls == old(creator.calls) + v.calls
      ensures body.None? ==> status == 400 && creator.calls == old(creator.calls)
      ensures body.Some? ==>
                var e := body.value;
                MeetsLabel(e.action, e.addedLabel, e.sender, e.owner, e.repo,
                           TaskRequest(e.owner, e.repo, e.number, 0, "IssueSolve", "", "", 0, ""),
                           creator.answers, creator.calls[|old(creator.calls)|..], status)
    {
      hide MeetsLabel;
      if body.None? {
        return BAD_REQUEST;
      }
      IssuesMeets(body.value, creator.answers);
      var event := body.value;
      if event.action != "labeled" {
        return OK;
      }
      var owner, repo := event.owner, event.repo;
      var allowed := creator.IsRepoAllowed(owner, repo);
      if allowed.CheckError? {
        return INTERNAL_SERVER_ERROR;
      }
      if allowed.No? {
        return OK;
      }
      var autoLabels := creator.GetAutoLabels(owner, repo);
      if |autoLabels| == 0 {
        return OK;
      }
      if event.addedLabel.None? {
        return OK;
      }
      var matched := false;
      var i := 0;
      while i < |autoLabels| && !matched
        invariant 0 <= i <= |autoLabels|
        invariant matched <==> event.addedLabel.value in autoLabels[..i]
      {
        if autoLabels[i] == event.addedLabel.value {
          matched := true;
        }
        i := i + 1;
      }
      if !matched {
        return OK;
      }
      allowed := creator.IsUserAllowed(owner, repo, event.sender);
      if allowed.CheckError? {
        return INTERNAL_SERVER_ERROR;
      }
      if allowed.No? {
        return OK;
      }
      var req := NO_REQUEST.(owner := owner, repo := repo, issue := event.number, taskType := "IssueSolve");
      var ok := creator.CreateTask(req);
      if !ok {
        return INTERNAL_SERVER_ERROR;
      }
      return CREATED;
    }
  }

  // ---------- consequences of the decision ----------

  /** A resume is tried exactly when every guard passed, a create exactly when in addition no resume
      was reported; 201 is returned exactly when a create succeeded, 500 exactly when a check that
      was reached or the create failed. */
  lemma DecisionExact(t: Trigger, botName: string, a: Answers)
    ensures var v := Decide(t, botName, a);
            && (forall req :: Resume(req) in v.calls <==> Accepted(t, botName, a) && req == t.resume)
            && (forall req :: Create(req) in v.calls
                  <==> Accepted(t, botName, a) && !a.resume.Resumed? && req == t.create)
            && (v.status == CREATED <==> Create(t.create) in v.calls && a.created)
            && (v.status == INTERNAL_SERVER_ERROR <==>
                  || (Addressed(t, botName) && (a.repo.CheckError? || (a.repo.Yes? && a.user.CheckError?)))
                  || (Create(t.create) in v.calls && !a.created))
            && (v.calls == [] <==> !Addressed(t, botName))
            && (a.resume.Resumed? ==> forall req :: Create(req) !in v.calls)
  {
    hide HasBotMention, IsBotComment;
    var v := Decide(t, botName, a);
    if Accepted(t, botName, a) {
      assert v.calls[2] == Resume(t.resume);
      assert !a.resume.Resumed? ==> v.calls[3] == Create(t.create);
    }
  }

  /** Label events: a task is created exactly for a "labeled" event with one of the configured labels,
      in an allowed repository, by an allowed sender; nothing is ever resumed; 201, 400 and 500 are
      returned exactly for their causes. */
  lemma IssuesDecisionExact(body: Option<IssuesEvent>, a: Answers)
    ensures var v := DecideIssues(body, a);
            && (forall req :: Create(req) in v.calls <==> LabelAccepted(body, a) && req == IssuesRequest(body.value))
            && (forall req :: Resume(req) !in v.calls)
            && (v.status == CREATED <==> LabelAccepted(body, a) && a.created)
            && (v.status == BAD_REQUEST <==> body.None?)
            && (v.status == INTERNAL_SERVER_ERROR <==>
                  || (LabelAccepted(body, a) && !a.created)
                  || (Labeled(body) && a.repo.CheckError?)
                  || (Labeled(body) && a.repo.Yes? && LabelMatches(body.value, a) && a.user.CheckError?))
  {
    var v := DecideIssues(body, a);
    if LabelAccepted(body, a) {
      assert v.calls[3] == Create(IssuesRequest(body.value));
    }
  }

  /** An answer that reaches the task creator is the text of the comment or review, mentions the bot
      and so is never empty. */
  lemma AnswersNotEmpty(t: Trigger, botName: string, a: Answers, req: TaskRequest)
    requires t.resume.clarificationAnswer == t.body && Resume(req) in Decide(t, botName, a).calls
    ensures req.clarificationAnswer == t.body != "" && HasBotMention(req.clarificationAnswer, botName)
  {
    DecisionExact(t, botName, a);
    assert Accepted(t, botName, a);
    hide Decide;
    var i := Index(t.body, "@" + botName);
    assert At(t.body, "@" + botName, i);
  }

  /** The comment of handleClarification. */
  function QuestionText(question: string, botName: string, cost: string): string {
    ("**Claude needs clarification to continue:**\n\n> " + question + "\n\nPlease reply mentioning ") +
    ("@" + botName) + (" with your answer." + cost)
  }

  lemma OccursInside(a: string, m: string, b: string)
    ensures Contains(a + m + b, m)
  {
    assert (a + m + b)[|a|..|a| + |m|] == m;
    assert At(a + m + b, m, |a|);
  }

  /** The operator's own question mentions the bot, so only the author check keeps it from
      answering itself: in an allowed repository it is ignored exactly when it is delivered under
      the bot's login. */
  lemma OwnQuestionIgnored(t: Trigger, botName: string, a: Answers, question: string, cost: string)
    requires t.body == QuestionText(question, botName, cost) && t.handled && a.repo.Yes? && a.user.Yes?
    ensures Decide(t, botName, a).calls == [] <==> IsBotComment(t.author, botName)
    ensures !IsBotComment(t.author, botName) ==> Resume(t.resume) in Decide(t, botName, a).calls
  {
    OccursInside("**Claude needs clarification to continue:**\n\n> " + question + "\n\nPlease reply mentioning ",
                 "@" + botName, " with your answer." + cost);
    assert HasBotMention(t.body, botName);
    DecisionExact(t, botName, a);
    hide QuestionText, HasBotMention, IsBotComment;
  }
}
