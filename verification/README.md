# A verified model of the claude operator

The operator turns GitHub comments, reviews and labels into ClaudeTask resources. A reconciler runs
Claude for each task in a sandbox, and webhooks resume tasks that wait for an answer. Both write one
status record, each from its own, possibly stale copy. This project models that protocol, the text
and number functions it depends on, the webhook handlers and the allowlist cache, and proves what
they keep over every run and every interleaving.

`dafny verify dfyconfig.toml` checks everything.

## How it is organised

- `Text`, `Json`, `Options`: Go string operations, the JSON texts of RFC 8259 as syntax trees.
- `ClaudeOutput`, `Markers`, `Cost`, `ClaimNames`, `ShellQuoting`: the text and number functions.
- `Tasks`, `Protocol`: a task's fields, and the state machine of its writers. A `TaskState` holds every
  committed status in order (the index is the resourceVersion), all writers in flight with their
  copies, and logs of commits, runs and comments. `Sandboxes` puts all tasks together with the set of
  SandboxClaims that they share.
- `Decisions`: what every answer makes a writer do, spelled out on the steps of the machine.
- `Lifecycle`, `Billing`, `FailureFree`, `Comments`, `CommentOrder`, `Runs`, `Timeouts`, `Sandboxes`, `SharedClaims`: what
  every reachable state satisfies. `Scenarios`: runs that show where a guarantee ends.
- `Deliveries`: the operator and GitHub together, with all four events and the operator's own comments.
- `Clusters`, `Reconciler`, `TaskCreators`, `Webhook`, `Allowlist`: the source's methods in imperative
  form. The reconciler's methods change their copy in place and call a cluster whose state only
  moves by steps of the state machine; each call requires exactly the status, name or comment that
  the machine has at that point, and each method ends with nothing left to do. So what is proved of
  the machine holds of the code's control flow.

## What is assumed of the environment

- A status write is compare-and-swap on resourceVersion; it can be stored, refused, or stored and
  reported as an error. Storing an equal status keeps the version.
- Get and List return some committed version of a task. List returns a task at most once.
- Between any two calls of one writer, any other writers may move, crash or start.
- `exec` returns any text and any error; for an empty pod name it returns an error and no text.
- A claim is created and deleted only through the operator. CreateClaim answers "already exists" only
  if the claim is there; an error may or may not have had its effect.
- A task's specification never changes; `MaxClarifications` and issue numbers are not negative.
- JSON decoding succeeds only on JSON texts.
- GitHub sends a "labeled" event for each label, also for those an issue is created with, as README.md:137
  expects; only that action is handled.
- Strings are Go strings, one `char` for one byte. Spaces and letter case are those of ASCII.
- Money is an exact number instead of a float64; int64 counters wrap around.
- For `Deliveries` only: the operator's own comments are delivered after they were posted, and under the
  bot's login.

## Where the code and its documentation differ

- README.md:165 promises a failure after 24 hours without a response. The code counts from the start
  of the task, not from the question: a question can be failed at the very moment it is stored, exactly
  if 24 hours have passed since the start by then (`Timeouts.AskedTooLate`), and for every task there is
  such a run (`Scenarios.QuestionWithoutTime`).
- The comment at internal/controller/claudetask_controller.go:590 promises everything up to the next
  marker. That is true exactly when the next marker does not share colons with one that the loop
  handles earlier (`Markers.EndsAtNextMarker`, and `Markers.ClobberedInput` for an input).
- A repository that is listed by name and then edited into a pattern keeps its old exact entry, because
  the controller keys a pattern by its text. That entry alone answers for the name, and deleting the
  edited repository does not evict it (`Allowlist.PatternBehindExact`, `Allowlist.StaleExactAnswers`).
- Comments follow the phase history exactly as long as no reconcile starts with a comment of a live task
  still unposted (`CommentOrder.GateIsExact`). The methods do not see to that themselves; a work queue
  that never hands out one task twice at once is enough (`CommentOrder.SerialCommentsInOrder`).

## Model

| member | source | states |
|---|---|---|
| ClaudeOutput.ParseClaudeOutput | internal/controller/claudetask_controller.go:637-657 | the backwards loop returns the result of the last position whose suffix decodes, and the raw text with a zero result if there is none |
| ClaudeOutput.ReadsLastObject | internal/controller/claudetask_controller.go:632-657 | for every prefix and every decodable JSON object after it, that object is what is read: no brace in a nested object or a string literal is taken for its start |
| ClaudeOutput.TrailingTextHidesResult | internal/controller/claudetask_controller.go:647-656 | output whose last visible character is not a closing brace is never read as a result, whatever JSON it contains |
| ClaudeOutput.ReadsLastDecodable | internal/controller/claudetask_controller.go:637-657 | for every output the last brace from which the rest decodes is read, and without one the raw output is kept with an empty result |
| Json.InnerBrace | internal/controller/claudetask_controller.go:645-654 | no `{` after the first character of an RFC 8259 object text starts a JSON text |
| Json.QuoteParity | internal/controller/claudetask_controller.go:645-654 | of two scanners that disagree on being inside a string literal at most one accepts the rest |
| Markers.ParseClarification | internal/controller/claudetask_controller.go:583-597 | the loop over a shrinking remainder computes the three cuts in order |
| Markers.QuestionShape | internal/controller/claudetask_controller.go:583-597 | for every output the question is a trimmed, contiguous piece after the first clarification marker without any terminator |
| Markers.EndsAtNextMarker | internal/controller/claudetask_controller.go:589-596 | the question is the text up to the earliest terminator if and only if that one is not overlapped by a terminator handled before it |
| Markers.ClobberedInput | internal/controller/claudetask_controller.go:589-596 | an input on which the question is not the text up to the next marker |
| Markers.QuestionReadsBack | internal/controller/claudetask_controller.go:583-597 | a trimmed question without terminators, printed on its own lines between markers, is read back exactly |
| Markers.QuestionReadsBackIff | internal/controller/claudetask_controller.go:583-597 | a question followed by white space or nothing and then by its first terminator or the end is read back if and only if that terminator is not overlapped by one handled before it |
| Markers.QuestionAtEnd | internal/controller/claudetask_controller.go:583-597 | a question that ends the output without a terminator is read back exactly |
| Markers.QuestionBeforeMarker | internal/controller/claudetask_controller.go:583-597 | a question directly before its terminator is read back if and only if that terminator is not overlapped |
| Markers.URLReadsBack | internal/controller/claudetask_controller.go:599-616 | a URL without white space printed after its marker is read back exactly |
| Markers.URLShape | internal/controller/claudetask_controller.go:599-616 | what is read is one word, empty exactly when the marker or anything visible after it is missing |
| Cost.AccumulateCost | internal/controller/claudetask_controller.go:659-680 | the report is updated in place to the accumulated value, or a new one is returned for nil |
| Cost.ScanPrinted | internal/controller/claudetask_controller.go:671-677 | scanning what `$%.4f` printed gives the printed value exactly |
| Cost.WrapIsInt64 | internal/controller/claudetask_controller.go:665-670 | int64 addition gives the one value in range that is congruent to the exact sum |
| Cost.BilledTokens | internal/controller/claudetask_controller.go:665-670 | after any number of runs each integer field is their int64 sum |
| Cost.DriftBound | internal/controller/claudetask_controller.go:671-677 | after n rounds through the string the estimate is within n/20000 of the true sum |
| Cost.DriftReached | internal/controller/claudetask_controller.go:671-677 | the drift bound is reached for every n |
| ClaimNames.NameShape | internal/sandbox/client.go:46-52 | a claim name is a slug of the repository followed by "issue-" and the decimal issue number |
| ClaimNames.NameIsLabel | internal/sandbox/client.go:46-52 | a claim name is not empty, is over [a-z0-9-], and begins and ends with a letter or digit |
| ClaimNames.IssueOfName | internal/sandbox/client.go:46-52 | the digits after the last dash are the issue number |
| ClaimNames.SameName | internal/sandbox/client.go:46-52 | two claim names are equal if and only if the issues and the slugs are equal |
| ClaimNames.SanitizeRun | internal/sandbox/client.go:36-52 | every maximal run of other characters becomes one dash, whatever surrounds it |
| ClaimNames.PlainName | internal/sandbox/client.go:46-52 | for owners and repositories of small letters and digits the name is the formatted string itself |
| ClaimNames.LowerIsCase | internal/sandbox/client.go:46-52 | two strings lower to the same one if and only if they differ in the case of letters only; without capitals nothing changes |
| ClaimNames.PlainNamesDistinct | internal/sandbox/client.go:46-52 | for repositories of letters and digits, two claim names are equal if and only if the issues are equal and owners and repositories are the same up to the case of letters |
| ClaimNames.SlugsCollide | internal/sandbox/client.go:46-52 | two repositories can share a slug |
| ShellQuoting.QuotingRoundTrip | internal/controller/claudetask_controller.go:576-577 | lexing the quoted prompt under sections 2.2.1 and 2.2.2 of the POSIX Shell Command Language gives one word, the prompt, and ends unquoted |
| ShellQuoting.QuotingInjective | internal/controller/claudetask_controller.go:576-577 | different prompts give different arguments |
| Tasks.SplitJoined | internal/controller/claudetask_controller.go:156-160 | a repository composed from an owner and a name splits into them again, and splitting always happens at the first slash |
| Lifecycle.StepKeepsInv | internal/controller/claudetask_controller.go:122-441 | every step of every writer keeps the invariant on committed statuses and writers' copies |
| Lifecycle.AllowedTransitions | internal/controller/claudetask_controller.go:135-149 | every committed write is an edge of the lifecycle and terminal phases are never left, under any interleaving |
| Lifecycle.PhaseChangesBounded | internal/controller/claudetask_controller.go:376-390 | a task commits at most 2 max + 2 changes of phase, where max is 3 when MaxClarifications is 0 |
| Lifecycle.QuestionLedger | internal/controller/claudetask_controller.go:376-390 | the ledger only grows, never above max; no question or recorded answer changes; a waiting task has exactly its last entry open, a running or completed one has none |
| Lifecycle.OneAnswerPerQuestion | cmd/main.go:170-181 | of any number of concurrent replies to one question at most one is recorded, and it fills the open entry |
| Lifecycle.AnswerMustHaveText | cmd/main.go:171-175 | recording an answer keeps the status of a waiting task well formed if and only if the answer is not empty |
| Lifecycle.IdentityFixed | internal/controller/claudetask_controller.go:174-245 | pod, claim and start time never change once set; a live task has a start time and its non-empty claim name, so the branch at 217-219 is never taken |
| Decisions.ReadDecides | internal/controller/claudetask_controller.go:135-220 | what a reconcile does next for every version it can read, and every field of the copy it is about to store |
| Decisions.CallDecides | internal/controller/claudetask_controller.go:167-174 | what follows each answer about the claim, the sandbox, the token, a comment or a deletion: the next call and every field, with the claim name and the start time; the cleanup follows exactly the comments that end a task |
| Decisions.RunDecides | internal/controller/claudetask_controller.go:275-308 | after a run the question comes first; otherwise the task completes exactly when the command did not fail and the text has the completion marker or lacks the failure marker, with the URL read, or the old one; otherwise it fails |
| Decisions.QuestionDecides | internal/controller/claudetask_controller.go:376-390 | whatever happened to the cost write, the question is asked exactly when the ledger is shorter than the limit, three when none is set, and the task fails otherwise |
| Decisions.WriteDecides | internal/controller/claudetask_controller.go:175-189 | every other write is followed by its comment or the next call after a reported success, and by nothing otherwise |
| Decisions.HearDecides | cmd/main.go:170-176 | a webhook stores the waiting version as running with its answer in the last entry and changes nothing else |
| Scenarios.QuestionsUpToLimit | internal/controller/claudetask_controller.go:376-390 | for every task with a valid repository every number of questions up to the limit is asked in some run |
| Billing.CostExactlyOnce | internal/controller/claudetask_controller.go:275-286 | in every reachable state the stored cost is exactly what the billed runs add up to: integer sums, and the estimate within the drift bound |
| Billing.BilledOnce | internal/controller/claudetask_controller.go:275-286 | a run is billed once, with its own result, and exactly if its writer committed a write after adding its cost |
| Billing.FewRunsBilled | internal/controller/claudetask_controller.go:275-290 | at most max + 1 runs are billed, apart from those whose writer never committed its change of phase |
| FailureFree.FailureFreeDrift | internal/controller/claudetask_controller.go:275-330 | when no write failed and none is pending, at most max + 1 runs are billed and the estimate is within (max + 1)/20000 of the true cost |
| Comments.CommentsReportCommits | internal/controller/claudetask_controller.go:179-189 | every comment reports a committed change of phase, by its own writer, and no change is reported twice |
| Comments.CommentsAtMostOnce | internal/controller/claudetask_controller.go:310-322 | at most one start comment, one comment that ends the task, and one comment for each question, over whole runs |
| CommentOrder.GatedCommentsInOrder | internal/controller/claudetask_controller.go:179-189 | comments appear in the order of the changes they report in every run in which no reconcile starts while a comment of a live task is unposted, whatever else overlaps |
| CommentOrder.OvertakingLosesOrder | internal/controller/claudetask_controller.go:415-428 | from every reachable state with an unposted comment of a live task, one more reconcile can post its failure before that comment |
| CommentOrder.GateIsExact | internal/controller/claudetask_controller.go:388-401 | letting one more reconcile start can cost the order if and only if a comment of a live task is unposted |
| CommentOrder.SerialCommentsInOrder | internal/controller/claudetask_controller.go:388-401 | a corollary: comments are in order when a task is never reconciled twice at once, whatever webhooks do |
| Scenarios.OrderCanBeLost | internal/controller/claudetask_controller.go:179-189 | for every task with a valid repository, two concurrent reconciles can post the start comment after the failure comment |
| Runs.ResumeFollowsClone | internal/controller/claudetask_controller.go:227-265 | a run that skips the clone follows a cloning run of the same task in the same pod |
| Timeouts.WaitingReconcile | internal/controller/claudetask_controller.go:197-209 | a waiting task always has a deadline, and a reconcile fails it exactly after the deadline |
| Timeouts.LeavesInTime | internal/controller/claudetask_controller.go:195-209 | in every run with reconciles at most five minutes apart, and any moves of others before and within each, a waiting task has left the version it waits in at its first reconcile or at the latest five minutes after its deadline |
| Timeouts.AskedTooLate | internal/controller/claudetask_controller.go:197-209 | a question is failed by a reconcile at the moment it is stored if and only if 24 hours have passed since the task started |
| Timeouts.TimeToAnswer | internal/controller/claudetask_controller.go:197-209 | a stored question is failed by a reconcile exactly after 24 hours from the start of the task; it has 24 hours of its own if and only if it was stored no later than that start |
| Scenarios.QuestionWithoutTime | internal/controller/claudetask_controller.go:197-209 | for every task with a valid repository and every question there is a run in which it is stored after those 24 hours and the next reconcile fails it at once |
| Sandboxes.LiveTaskKeepsSandbox | internal/controller/claudetask_controller.go:163-181 | in every reachable world the claim of a running or waiting task exists, if no other task has its claim name |
| Sandboxes.LaterTaskKeepsSandbox | internal/controller/claudetask_controller.go:324-327 | a task keeps its claim for as long as it lives also if earlier tasks had its claim name, provided that they have ended and no writer of theirs still cleans up |
| SharedClaims.OtherCanDelete | internal/controller/claudetask_controller.go:430-435 | while another task of the name is not over, moves of that task alone can delete the claim of a live task |
| SharedClaims.QuietIsExact | internal/controller/claudetask_controller.go:324-327 | a live task with its claim is sure to keep it, while no further task of its name is created, if and only if every other task of the name has ended and no writer of it cleans up |
| Sandboxes.DifferentIssuesDifferentClaims | internal/sandbox/client.go:46-52 | tasks on different issues never share a claim, whatever their repositories |
| Scenarios.SharedNameLosesSandbox | internal/controller/claudetask_controller.go:430-435 | for any two tasks with one claim name there is a run in which one deletes the claim of the other, which is still running |
| Clusters.Cluster.UpdateStatus | internal/controller/claudetask_controller.go:175-177 | a status write leaves the writer where the machine's write leaves it; after a reported success the copy is the newest version and has its number, otherwise its number stays |
| Clusters.Cluster.UpdateAnswered | cmd/main.go:176-178 | a webhook's write of its answered copy: the world changes by one new writer, moves of others, and that writer's one write |
| Sandboxes.MoveTouchesOneTask | cmd/main.go:176-178 | a move on one task leaves the record of every other task as it is, and a resume leaves the claims |
| Clusters.Cluster.CreateClaim | internal/sandbox/client.go:88-92 | a claim is created, found to exist, or the writer gives up |
| Clusters.Cluster.DeleteClaim | internal/sandbox/client.go:95-97 | a deletion ends the writer, whether or not it took effect |
| Reconciler.ClaudeTaskReconciler.Reconcile | internal/controller/claudetask_controller.go:122-149 | one reconcile is a complete path of the machine from any committed version, under interference |
| Reconciler.ClaudeTaskReconciler.ReconcilePending | internal/controller/claudetask_controller.go:153-173 | the pending path makes exactly the machine's calls |
| Reconciler.ClaudeTaskReconciler.StartRunning | internal/controller/claudetask_controller.go:174-193 | the write of Running and the start comment follow the machine |
| Reconciler.ClaudeTaskReconciler.ReconcileWaitingForClarification | internal/controller/claudetask_controller.go:197-209 | the waiting path fails the task or does nothing, as the machine does |
| Reconciler.ClaudeTaskReconciler.ReconcileRunning | internal/controller/claudetask_controller.go:213-270 | the running path makes exactly the machine's calls up to the end of the run |
| Reconciler.ClaudeTaskReconciler.EnsurePod | internal/controller/claudetask_controller.go:228-242 | the pod name is stored before anything is executed |
| Reconciler.ClaudeTaskReconciler.FinishRun | internal/controller/claudetask_controller.go:271-308 | the parsers decide between question, failure and completion as the machine does, after the cost is added |
| Reconciler.ClaudeTaskReconciler.Complete | internal/controller/claudetask_controller.go:308-331 | the write, the comment and the cleanup of a completed task come in that order |
| Reconciler.ClaudeTaskReconciler.SaveAndAsk | internal/controller/claudetask_controller.go:279-286 | a failed cost write does not keep the question from being asked |
| Reconciler.ClaudeTaskReconciler.HandleClarification | internal/controller/claudetask_controller.go:373-405 | the question is appended and stored, then posted, or the task fails at the limit |
| Reconciler.ClaudeTaskReconciler.FailTask | internal/controller/claudetask_controller.go:408-439 | the write of Failed comes first, and cleanup touches only a recorded claim |
| TaskCreators.TaskCreator.FirstMatch | cmd/main.go:154-169 | the first listed task is found that waits, has the repository of the request, and has each of the two numbers that the request names |
| TaskCreators.TaskCreator.Reply | cmd/main.go:170-178 | a reported success means that the answered copy was stored directly after the version it was based on |
| TaskCreators.TaskCreator.ResumeFirst | cmd/main.go:154-183 | only the first matching task's copy is changed, by its answer; the store changes only by that resume's moves on that task, beside the moves of others; nothing matches before it; without a match nothing is written |
| TaskCreators.TaskCreator.ResumeClarification | cmd/main.go:148-184 | a reported resume is a committed version of a waiting task of the request's repository and number; the store changes by the moves of at most one resume of such a task, beside the moves of others |
| TaskCreators.TaskCreator.CreateTask | cmd/main.go:77-95 | success adds exactly one task with the request's repository, numbers, type, branch, prompt and review comment and an empty status; after an error that task was added or nothing has changed |
| TaskCreators.TaskCreator.IsRepoAllowed | cmd/main.go:97-99 | asks the cache about the full name |
| TaskCreators.TaskCreator.IsUserAllowed | cmd/main.go:101-137 | the verdict, spelled out, of the lists merged from exactly one matching entry, with the repository's own client if there is one and a global one otherwise |
| TaskCreators.TaskCreator.Check | cmd/main.go:102-137 | the two search loops and the permission lookup compute the verdict, errors included |
| TaskCreators.UserAllowedIff | cmd/main.go:101-137 | with a client and a lookup that succeeds a user is allowed exactly when both lists are empty, or the user is listed, or the user's role is |
| TaskCreators.VerdictMeans | cmd/main.go:101-137 | for any lists and client: allowed exactly without lists, or listed, or with a listed role; an error exactly when a lookup is needed and fails |
| TaskCreators.TaskCreator.GetAutoLabels | cmd/main.go:139-145 | the labels of an entry for the repository, none if it has none |
| Webhook.Handler.HandleIssueComment | internal/webhook/github.go:156-238 | refines the one decision; in the fields of the event: every check is about its repository and the author of the comment, both come before a resume or create, the two requests are stated field by field, and so are the causes of every status |
| Webhook.Handler.HandlePRReview | internal/webhook/github.go:373-456 | refines the one decision; in the fields of the event: every check is about its repository and the author of the review, both come before a resume or create, the two requests are stated field by field, and so are the causes of every status |
| Webhook.Handler.HandlePRReviewComment | internal/webhook/github.go:488-581 | refines the one decision; in the fields of the event: every check is about its repository and the author of the review comment, both come before a resume or create, the two requests are stated field by field, and so are the causes of every status |
| Webhook.Handler.HandleIssuesEvent | internal/webhook/github.go:265-366 | refines the decision on label events; in the fields of the event: every check is about its repository and the sender, both come before a create, whose request is stated field by field, as are the causes of every status |
| Webhook.IssuesDecisionExact | internal/webhook/github.go:265-366 | a task is created exactly for a "labeled" event with a configured label, in an allowed repository, by an allowed sender; nothing is ever resumed; 201, 400 and 500 are returned exactly for their causes |
| Webhook.DecisionExact | internal/webhook/github.go:166-238 | a resume is tried exactly when every guard passed, a create exactly when no resume was reported then; 201 is returned exactly when a create succeeded, 500 exactly when a check that was reached or the create failed |
| Webhook.AnswersNotEmpty | internal/webhook/github.go:171-174 | an answer that reaches the task creator is the comment's text, mentions the bot and is not empty |
| Webhook.OwnQuestionIgnored | internal/webhook/github.go:176-181 | the operator's own question is ignored if and only if it is delivered under the bot's login |
| Deliveries.OwnCommentDoesNothing | internal/webhook/github.go:81-90 | a delivery of a comment that the operator has posted makes no call and leaves the world as it is |
| Deliveries.NoSelfFeeding | internal/webhook/github.go:176-181 | over any run of the operator with deliveries of all four events, its own comments among them, the tasks in the store never outnumber the accepted deliveries of others |
| Allowlist.StoredIff | internal/controller/allowlist_cache.go:61-86 | after any history of Set and Delete each map holds exactly the surviving entries |
| Allowlist.MapsAnswerForHistory | internal/controller/allowlist_cache.go:89-125 | the two maps answer every question about a name as the history does |
| Allowlist.SetMeans | internal/controller/allowlist_cache.go:61-77 | a repository answers for the names its pattern matches exactly if it has one that compiles, and otherwise for its key alone |
| Allowlist.AllowedHasEntry | internal/controller/allowlist_cache.go:89-125 | a name is allowed exactly when it has an entry to be described by |
| Allowlist.DeletedIsGone | internal/controller/allowlist_cache.go:80-86 | a deleted key has no entry until it is set again |
| Allowlist.PatternBehindExact | internal/controller/allowlist_cache.go:61-77 | a pattern set under any key answers for a name that it matches if and only if no other exact entry is stored under that name; one that is stored alone answers |
| Allowlist.StaleExactAnswers | internal/controller/clauderepository_controller.go:103-121 | a repository listed by name and then edited into a pattern is still answered by its old entry alone; deleting the edited repository leaves the name allowed by that entry, unless the pattern is the name |
| Allowlist.AllowlistCache.Set | internal/controller/allowlist_cache.go:61-77 | Set adds one event to the history the maps stand for, and keeps a private copy |
| Allowlist.AllowlistCache.Delete | internal/controller/allowlist_cache.go:80-86 | Delete adds one event to that history |
| Allowlist.AllowlistCache.FindPattern | internal/controller/allowlist_cache.go:97-104 | some matching pattern is found in any visiting order, none only if none matches |
| Allowlist.AllowlistCache.IsAllowed | internal/controller/allowlist_cache.go:89-106 | true exactly if some surviving exact entry has the name or some surviving pattern matches it |
| Allowlist.AllowlistCache.Get | internal/controller/allowlist_cache.go:110-125 | a fresh copy of a surviving entry, exact first, and nil exactly if the name is not allowed |
| Allowlist.AllowlistCache.GetMergedAllowlist | internal/controller/allowlist_cache.go:157-181 | the global lists followed by those of exactly one entry, or alone if there is none |

## Left out

- `execInPod`, the Kubernetes and GitHub clients, HTTP, flags and configuration: only their outcomes are modelled, as nondeterministic answers.
- `WaitForReady` and `waitForSandboxName`: one step that returns some pod name or an error; their watch loops and timeouts are not modelled.
- Regular expressions: `compiles` and `matches` are parameters. Nothing is claimed about matching a whole name.
- Reconciler.ClaudeTaskReconciler.Reconcile: leaves out an object that is not found, an unknown phase, requeue results, log lines and the text of comments.
- Clusters.Cluster.CreateTask: leaves out the generated name and the namespace of the new task.
- TaskCreators.TaskCreator.ResumeClarification: requires a non-empty answer, which is what the handlers pass (`Webhook.AnswersNotEmpty`); with an empty one the code would store an unanswered running task (`Lifecycle.AnswerMustHaveText`).
- TaskCreators.TaskCreator.ResumeFirst: requires a non-empty answer, as above.
- TaskCreators.TaskCreator.Reply: requires a non-empty answer, as above.
- Clusters.Cluster.UpdateAnswered: requires a non-empty answer, as above.
- Cost.ScanPrinted: models the decimal forms that `$%.4f` prints and simple variants; exponents, infinities and float64 rounding are not part of the model.
- ClaimNames.NameIsLabel: does not bound the length of a name, because the code does not.
- ShellQuoting.QuotingRoundTrip: models the quoting of the prompt; the rest of the command line, with its token and branch, is not modelled. The lexer stops at unquoted characters with other meanings.
- Allowlist.AllowlistCache.GetMergedAllowlist: the global lists are values, so sharing of their backing arrays between callers is not modelled.
- A missing GitHub client where one is needed stops a reconcile; that is one of the crashes.
- `buildPrompt`, `buildReviewCommentPrompt`, `truncateThread`, `fetchThreadContext`, `formatCostReport`: text for readers only.
- Signature checking, `DeleteClient` and `splitComma`: one-line or library-bound claims.
- The ClaudeRepository controller, MaxConcurrentTasks, ActiveTasks and MaxIterations: not part of this model; the cache is related to the history of its operations.
- Deletion of tasks, conditions, pod IPs and times below a second.
