# Verified model of the workflow engine

This project models the state machines at the heart of the workflow engine in Dafny and proves what
they promise over every run, not only for one call. `dafny verify dfyconfig.toml` checks all of it.

Each component has the same three layers: functions that say what an operation does to the stored
rows, lemmas about those functions over whole runs, and (where the code changes things step by step)
classes and loops proved to compute exactly those functions.

| component | files |
|---|---|
| component tree traversal | `WorkflowTree`, `WorkflowEngine`, `WorkflowRuns`, `WorkflowLaws` |
| approval expressions | `Lexer`, `Expression`, `ExpressionPrinter`, `ExpressionMeaning` |
| approval gates, policies, chains | `ApprovalPolicy`, `ApprovalChain`, `ApprovalGates`, `ApprovalLaws`, `ApprovalTiers`, `ApprovalCompletion`, `ApprovalVotes`, `ApprovalOrder`, `ApprovalReversal`, `ApprovalRequests`, `ApprovalCases`, `ApprovalService` |
| deal ingestion | `CanonicalJson`, `JsonStrings`, `BusinessDays`, `DealIngestion`, `DealActions` |
| failures and retries | `RetryBackoff`, `TaskFailures`, `FailureOutcomes` |
| document paths and redaction | `DocumentPaths`, `Redaction`, `RedactionResults`, `DocumentStore` |
| case claims | `CaseClaims` |
| shared | `Outcomes`, `Texts` |

## What the code does that its documentation does not say

- `GetNextSibling` compares `execution_order` strictly, and nothing keeps two siblings from having the
  same one: the second is never started, and the workflow completes without it
  (`WorkflowLaws.HiddenTaskFinishes`, `WorkflowLaws.FinishedIffAllTasks`).
- `CompleteComponent` does not look at the status it overwrites: a repeated report starts the next task
  or component again (`WorkflowLaws.ReportedTwice`).
- A gate always has a required count of at least one, which lets MAJORITY and CONSENSUS be satisfied
  before their own threshold, so that their first verdict depends on the order of the votes
  (`ApprovalPolicy.ArrivalOrderIrrelevantIff`). Tiers use zero.
- The rejection behaviour acts on every rejection before the gate is satisfied, whatever the verdict of the
  policy: how a gate ends depends on the order of the decisions unless only unanimity satisfies it,
  rejections have no such effect and verdicts are final, or rejections cannot be carried out
  (`ApprovalOrder.DecisionOrderIrrelevantIff`).
- The chain writes the status of its gate without looking at it, so a satisfied gate can fail
  (`ApprovalReversal.SatisfiedThenFailed`, `ApprovalReversal.SatisfiedUndoneIff`).
- Requests are only made for the first tier of a chain. As long as the gate is not created again with other
  tiers, no later tier is ever satisfied by its policy, a chain of several tiers never satisfies its gate, and
  it completes only by skipping all but the first (`ApprovalTiers.LaterTiersSkipped`, `ApprovalTiers.ChainNeverSatisfies`,
  `ApprovalCompletion.RunCompletesIff`).
- A chain with a repeated tier number runs in circles (`ApprovalChain.RepeatedNumberNeverCompletes`), and
  `can_skip_if` stays at a tier that is followed by one numbered 0 (`ApprovalChain.StallingChain`).
- `ReleaseCase` does not ask whether anybody holds the case (`CaseClaims.BalanceIffNoIdleRelease`).

## Conventions

- A database transaction is one atomic step, and one that fails changes nothing. The sweep is the
  exception: it logs a failed candidate and keeps what was written for it before.
- Clocks, generated identifiers, approver selection, escalation targets, materiality of a snapshot
  difference and the evaluation of chain expressions are parameters of the steps.
- `strconv.ParseFloat`, `fmt.Sprint` and the masking of a value are arbitrary functions. Numbers of the
  expression language are exact; the CONSENSUS threshold is the fraction 33/50.
- Children with equal `execution_order` have a fixed but arbitrary order; only the first root is started.

## Model

| member | source | states |
|---|---|---|
| `WorkflowTree.NextFrom` | workflow-engine-go/internal/repository/recursive.go:68-99 | the next sequential sibling is the first later child whose `execution_order` is strictly greater |
| `WorkflowEngine.Activate` | workflow-engine-go/internal/engine/traversal.go:35-89 | the activation cascade terminates on every tree and table (by position in a depth-first tour), only adds rows and never reopens a completed one |
| `WorkflowEngine.Complete` | workflow-engine-go/internal/engine/traversal.go:92-164 | the completion cascade terminates and only adds or completes rows |
| `WorkflowEngine.Start` | workflow-engine-go/internal/engine/traversal.go:14-32 | a start without roots fails; otherwise every row names a component of the first root |
| `WorkflowEngine.Engine.ActivateComponent` | workflow-engine-go/internal/engine/traversal.go:35-89 | the recursive procedure with its loop over parallel children computes the activation function on its own table |
| `WorkflowEngine.Engine.CompleteComponent` | workflow-engine-go/internal/engine/traversal.go:92-164 | the recursive procedure computes the completion function on its own table, and fails exactly when that does |
| `WorkflowRuns.ActivateAgrees` | workflow-engine-go/internal/engine/traversal.go:35-89 | from any mid-cascade table that agrees with a marking of the tree, activation ends in one that agrees with the marking in which the component is no longer pending |
| `WorkflowRuns.CompleteAgrees` | workflow-engine-go/internal/engine/traversal.go:92-164 | the same for completion, wherever in a cascade it is called |
| `WorkflowLaws.StartAgrees` | workflow-engine-go/internal/engine/traversal.go:14-32 | starting a workflow stores exactly the statuses that the tree has when no task is finished |
| `WorkflowLaws.ReportAgrees` | workflow-engine-go/internal/engine/traversal.go:92-164 | reporting an in-progress task succeeds and stores the statuses for one more finished task |
| `WorkflowLaws.EveryRun` | workflow-engine-go/internal/engine/traversal.go:35-164 | in every run the stored rows, one per started component, are a recursive function of the tree and the set of reported tasks |
| `WorkflowLaws.OrderIndependent` | workflow-engine-go/internal/engine/traversal.go:35-164 | two runs that report the same tasks in different orders store the same rows |
| `WorkflowLaws.PredecessorsCompleted` | workflow-engine-go/internal/engine/traversal.go:122-141 | at every moment, also inside a cascade, a sequential child with a row has COMPLETED predecessors in turn (siblings of equal `execution_order`, which never get a row, aside) |
| `WorkflowLaws.NeverStuck` | workflow-engine-go/internal/engine/traversal.go:69-86 | until the root is COMPLETED some task is IN_PROGRESS, empty containers included |
| `WorkflowLaws.RootCompletedIff` | workflow-engine-go/internal/engine/traversal.go:111-115 | the root is COMPLETED exactly when every reachable task was reported |
| `WorkflowLaws.CompletingRun` | workflow-engine-go/internal/engine/traversal.go:35-164 | from every table a run can reach there is a run that completes the root |
| `WorkflowLaws.HiddenTaskFinishes` | workflow-engine-go/internal/repository/recursive.go:68-99 | with a task behind a sequential sibling of equal `execution_order` there is a run that completes the root and has not reported that task |
| `WorkflowLaws.FinishedIffAllTasks` | workflow-engine-go/internal/repository/recursive.go:68-99 | “the root is COMPLETED exactly when every task was reported” holds of every run of a definition if and only if no task hides behind a sequential sibling of equal `execution_order` |
| `WorkflowLaws.ReportedTwice` | workflow-engine-go/internal/engine/traversal.go:92-140 | reporting a completed component again changes nothing when nothing follows it in sequence; otherwise what follows, already started, gets a second row unless its activation fails: it succeeds when it ends in waiting tasks without meeting an empty container, and fails when only empty containers follow |
| `Lexer.Tokenize` | workflow-engine-go/internal/approval/expression.go:78-166 | the index loop terminates on every input and yields the tokens of the lexical grammar, or fails exactly when the grammar does |
| `Lexer.ScanString` | workflow-engine-go/internal/approval/expression.go:115-139 | the inner loop over a quoted string removes its escapes and stops after the closing quote |
| `Lexer.PositionsIncrease` | workflow-engine-go/internal/approval/expression.go:78-166 | the positions of the tokens strictly increase and stay inside the text |
| `Expression.ParseOr` | workflow-engine-go/internal/approval/expression.go:209-231 | a successful parse consumes at least one token and stays inside the tokens |
| `Expression.ParsePrimary` | workflow-engine-go/internal/approval/expression.go:281-323 | a successful parse of an operand consumes at least one token |
| `Expression.LookupPath` | workflow-engine-go/internal/approval/expression.go:325-340 | the loop over the parts of a path finds what following the parts one by one finds |
| `Expression.ExprParser.ParseExpression` | workflow-engine-go/internal/approval/expression.go:205-231 | the parser that evaluates while it parses yields value v at position p exactly when parsing to a tree ends at p and the strict evaluation of the tree yields v |
| `Expression.ExprParser.ParseConjunction` | workflow-engine-go/internal/approval/expression.go:233-255 | the same for conjunctions |
| `Expression.ExprParser.ParseComparisonValue` | workflow-engine-go/internal/approval/expression.go:257-279 | the same for comparisons |
| `Expression.ExprParser.ParsePrimaryValue` | workflow-engine-go/internal/approval/expression.go:281-323 | the same for operands |
| `Expression.Evaluate` | workflow-engine-go/internal/approval/expression.go:15-50 | the whole evaluator succeeds with b exactly when tokenizing, parsing to a tree, evaluating and reading a truth value succeed with b |
| `ExpressionPrinter.OrBack` | workflow-engine-go/internal/approval/expression.go:209-323 | parsing the tokens of a minimally parenthesised print continues with the printed tree as left operand |
| `ExpressionPrinter.HeadBack` | workflow-engine-go/internal/approval/expression.go:78-166 | the tokenizer reads every spelled token back, escaped strings included |
| `ExpressionPrinter.LexBack` | workflow-engine-go/internal/approval/expression.go:78-166 | tokenizing rendered tokens gives them back |
| `ExpressionPrinter.PrintThenParse` | workflow-engine-go/internal/approval/expression.go:78-323 | printing a tree and parsing the text gives the same tree with nothing left over |
| `ExpressionPrinter.ShortestPrint` | workflow-engine-go/internal/approval/expression.go:205-323 | no tokens that parse to a tree are fewer than those of its print, so no parenthesis could be left out |
| `ExpressionPrinter.PrintThenEvaluate` | workflow-engine-go/internal/approval/expression.go:15-323 | evaluating the printed text gives the truth value of the tree's own meaning, and fails exactly when that has none |
| `ExpressionMeaning.NumbersCompare` | workflow-engine-go/internal/approval/expression.go:342-362 | when both operands stand for real numbers a and b (as numbers, or as texts that spell them), ==, !=, <, >, <=, >= mean a = b, a ≠ b, a < b, a > b, a ≤ b, a ≥ b, for the tree and for evaluating its printed text |
| `ExpressionMeaning.FloatsCompare` | workflow-engine-go/internal/approval/expression.go:342-362 | the same with the infinities at the two ends of the order, and NaN unequal to everything and in no order |
| `ExpressionMeaning.TextOrder` | workflow-engine-go/internal/approval/expression.go:379-397 | the order of texts is by code points: where they first differ, or by being a proper beginning |
| `ExpressionMeaning.TextsCompare` | workflow-engine-go/internal/approval/expression.go:379-397 | when the left operand is neither a number nor a truth value, the six comparisons are those of the two texts |
| `ExpressionMeaning.TruthsCompare` | workflow-engine-go/internal/approval/expression.go:364-377 | two truth values are compared by == and != only |
| `ExpressionMeaning.ComparisonFailsIff` | workflow-engine-go/internal/approval/expression.go:342-397 | a comparison fails exactly when an operand does, or a number meets something else, or a truth value meets something else or is put in an order |
| `ExpressionMeaning.ConnectivesMean` | workflow-engine-go/internal/approval/expression.go:209-255 | && and || of two truth values are their conjunction and disjunction |
| `ExpressionMeaning.ConnectiveFailsIff` | workflow-engine-go/internal/approval/expression.go:209-255 | a connective fails exactly when one of its operands, evaluated in any case, has no truth value |
| `ExpressionMeaning.FieldMeans` | workflow-engine-go/internal/approval/expression.go:325-340 | a dotted name has value v exactly when following one field per part of the name leads from the context to v |
| `ExpressionMeaning.FieldAgainstNumber` | workflow-engine-go/internal/approval/expression.go:15-397 | as written: `name > number` evaluates to a > b when the field holds a and the literal spells b, and so for the other operators |
| `ApprovalPolicy.FailFastSound` | workflow-engine-go/internal/approval/evaluator.go:190-250 | a Failed verdict of any policy and required count stays Failed however the pending requests are decided or expire |
| `ApprovalPolicy.SatisfiedFinalIff` | workflow-engine-go/internal/approval/evaluator.go:190-250 | a Satisfied verdict over `total` requests is final if and only if the policy is not MAJORITY or CONSENSUS, or the required count is not positive, or it is beyond the policy's own threshold |
| `ApprovalPolicy.SatisfiedLost` | workflow-engine-go/internal/approval/evaluator.go:227-246 | otherwise the same requests can be Satisfied first and Failed later |
| `ApprovalPolicy.HopelessIff` | workflow-engine-go/internal/approval/evaluator.go:190-250 | no way of deciding the pending requests satisfies the policy exactly when approving all of them does not |
| `ApprovalPolicy.FailedOrStuck` | workflow-engine-go/internal/approval/evaluator.go:190-250 | what cannot be satisfied any more has Failed, except exactly: SINGLE_APPROVER with nobody left to approve, ALL_MUST_APPROVE with an expired request and no rejection, MAJORITY when neither side can get its majority; those stay undecided for ever |
| `ApprovalPolicy.FirstIsLast` | workflow-engine-go/internal/approval/evaluator.go:190-250 | when verdicts are final, closing at the first verdict gives the verdict of the final counts |
| `ApprovalPolicy.ArrivalOrderIrrelevant` | workflow-engine-go/internal/approval/evaluator.go:190-250 | so the first verdict on the counts of a gate or tier does not depend on the order in which they came about; what else a rejection does to a gate is in `ApprovalOrder` |
| `ApprovalPolicy.ArrivalOrderMatters` | workflow-engine-go/internal/approval/evaluator.go:217-246 | otherwise the same votes, cast one at a time, are judged Satisfied first in one order and Failed first in another |
| `ApprovalPolicy.ArrivalOrderIrrelevantIff` | workflow-engine-go/internal/approval/evaluator.go:190-250 | the order of the votes of `total` approvers never matters to the first verdict if and only if a Satisfied verdict is final |
| `ApprovalVotes.NeedsAllIff` | workflow-engine-go/internal/approval/evaluator.go:190-250 | the policy is not satisfied by all approvals but one exactly when it is ALL_MUST_APPROVE or not known, or there are few enough requests: one for SINGLE_APPROVER, at most the required count for ANY_CAN_APPROVE, at most two (and at most a positive required count) for MAJORITY and CONSENSUS |
| `ApprovalVotes.VoteOrderIrrelevantIff` | workflow-engine-go/internal/approval/service.go:636-659 | in the voting machine, which applies to each vote the policy and the effect of a rejection, the order of the votes of n requests never matters to the final status if and only if: a Satisfied verdict is final, where a rejection does nothing more; all approvals but one do not satisfy the policy, where it fails the gate or starts rework; always, where it makes the decision fail |
| `ApprovalOrder.RejectionStands` | workflow-engine-go/internal/approval/service.go:821-1090 | what a rejection does to the status of a gate is told by its behaviour, its rework target and the rework count, limit and stages of its case |
| `ApprovalOrder.RunVotes` | workflow-engine-go/internal/approval/service.go:516-665 | a run of decisions on the pending requests of a gate without a chain is a run of the voting machine: same counts, same status, same failures |
| `ApprovalOrder.DecisionOrderIrrelevantIff` | workflow-engine-go/internal/approval/service.go:636-659 | for every open gate without a chain whose n requests are pending: every two orders of the same decisions, one per request, leave the same gate status if and only if the condition of `VoteOrderIrrelevantIff` holds of its policy, required count and rejection behaviour |
| `ApprovalOrder.FirstDecisionPrevails` | workflow-engine-go/internal/approval/service.go:655-659 | with ANY_CAN_APPROVE, required count one, several requests and a rejection that fails the gate, two orders of the same decisions end differently |
| `ApprovalChain.StepInside` | workflow-engine-go/internal/approval/evaluator.go:345-550 | one evaluation leaves an open chain where it is, or passes its tier and moves at most one tier on; a closed chain is left alone |
| `ApprovalChain.VisitsInOrder` | workflow-engine-go/internal/approval/evaluator.go:364-550 | with distinct tier numbers every run visits the tiers in list order, at most one further per call, never back |
| `ApprovalChain.ClosedStays` | workflow-engine-go/internal/approval/evaluator.go:345-347 | COMPLETED and FAILED are absorbing over every run |
| `ApprovalChain.CompletedMeansResolved` | workflow-engine-go/internal/approval/evaluator.go:364-550 | a chain that reaches COMPLETED has distinct tier numbers, and each tier was skipped by an expression or satisfied by its policy in a call that found the chain there |
| `ApprovalChain.RepeatedNumberNeverCompletes` | workflow-engine-go/internal/approval/evaluator.go:587-604 | a list that repeats a tier number never completes, however its requests are decided |
| `ApprovalChain.AdvancesIffPassed` | workflow-engine-go/internal/approval/evaluator.go:387-412 | with distinct numbers a call moves an open chain on if and only if the expressions it asks evaluate, the tier is skipped or satisfied, and the skip does not meet a next tier numbered 0 |
| `ApprovalChain.StallLasts` | workflow-engine-go/internal/approval/evaluator.go:392-396 | a chain at such a tier stays there for as long as `can_skip_if` holds |
| `ApprovalChain.StallingChain` | workflow-engine-go/internal/approval/evaluator.go:387-412 | two tiers that stall for ever with the program's own expression evaluator |
| `ApprovalTiers.LaterTiersNeverAsked` | workflow-engine-go/internal/approval/service.go:389-418 | over every run that does not change a gate's tiers, no tier but the first ever has a request |
| `ApprovalTiers.RunIsTrace` | workflow-engine-go/internal/approval/service.go:642-653 | the chain that a run of gate operations leaves is the end of a trace of its evaluations, each made by one decision of the run on the chain as it was then |
| `ApprovalTiers.LaterTiersSkipped` | workflow-engine-go/internal/approval/evaluator.go:387-443 | a run completes a chain of several tiers only if each tier after the first was skipped by an expression in a decision that found the chain there |
| `ApprovalTiers.ChainNeverSatisfies` | workflow-engine-go/internal/approval/evaluator.go:498-546 | a chain of several tiers never satisfies its gate: in every step of every run only the gate's own policy does |
| `ApprovalCompletion.RunCompletesIff` | workflow-engine-go/internal/approval/service.go:389-418 | some run of gate operations that does not change the tiers completes a chain if and only if the tier numbers are distinct, the first tier can be passed, and each later tier has a `required_if`, or a `can_skip_if` that is not followed by a tier numbered 0 |
| `ApprovalCompletion.CompletedCompletable` | workflow-engine-go/internal/approval/evaluator.go:345-550 | the only-if half: what any run completed meets that condition |
| `ApprovalCompletion.TwoPlainTiers` | workflow-engine-go/internal/approval/service.go:389-418 | no run completes two tiers with policies and without expressions |
| `ApprovalReversal.FailsGateIff` | workflow-engine-go/internal/approval/evaluator.go:387-496 | an evaluation fails the gate exactly when the chain is open, its current tier is found and not skipped, its expressions evaluate and its counts fail its policy |
| `ApprovalReversal.SatisfiedUndoneIff` | workflow-engine-go/internal/approval/service.go:636-659 | a satisfied gate with a chain stays SATISFIED under every step, except exactly an accepted decision on one of its own requests after which the current tier of its chain is asked and fails; then it is FAILED |
| `ApprovalReversal.SatisfiedThroughoutIff` | workflow-engine-go/internal/approval/service.go:636-659 | over every run it is SATISFIED throughout if and only if the run has no such decision |
| `ApprovalReversal.SatisfiedThenFailed` | workflow-engine-go/internal/approval/evaluator.go:455-496 | such a run exists: any of two may approve the gate, both must approve its only tier; the first approval satisfies the gate and the later rejection fails it |
| `ApprovalGates.CountRequests` | workflow-engine-go/internal/approval/evaluator.go:151-182 | the counting loop tallies the requests of a gate or tier by status, delegated ones left out |
| `ApprovalLaws.SatisfiedForGood` | workflow-engine-go/internal/approval/evaluator.go:68-128 | over every run, a gate without a chain is SATISFIED exactly when the event saying so was published, and after that no second one, no failure, no rework and no rejection of the case is published for it |
| `ApprovalLaws.SatisfiedAbsorbing` | workflow-engine-go/internal/approval/service.go:642-659 | from any state, SATISFIED survives every activate, approve, reject, delegate, expire and re-create step, and a late rejection sets nothing off |
| `ApprovalLaws.StepByPolicy` | workflow-engine-go/internal/approval/evaluator.go:80-125 | a gate without a chain becomes SATISFIED only when the counts at that moment satisfy its policy |
| `ApprovalLaws.RequestsConserved` | workflow-engine-go/internal/approval/service.go:718-780 | the requests of a gate or tier that count are conserved by every step, except that activation adds one per approver and a decision on a delegated request adds exactly one |
| `ApprovalLaws.FailFastOverRuns` | workflow-engine-go/internal/approval/evaluator.go:80-97 | once the counts fail the policy, no run of decisions, delegations and expiries changes the verdict or satisfies the gate |
| `ApprovalLaws.DecisionsFinal` | workflow-engine-go/internal/approval/transition_guard.go:39-41 | over every run an approved or rejected request never changes and no request disappears |
| `ApprovalRequests.RequestMoves` | workflow-engine-go/internal/approval/transition_guard.go:24-102 | in every step a request keeps its gate, approver and tier, and its status changes only as the step may move it: by a human approver with reasons, the delegate who is not the approver, the system for an expired one, a delegation, or a timeout with the gate's action; a step that may move it does, unless it fails as a whole |
| `ApprovalRequests.RequestsMade` | workflow-engine-go/internal/approval/service.go:389-418 | the requests a step makes are exactly one per approver in order, for the first tier, at an activation with nobody asked, and one of the same gate and tier for whom a request is handed to |
| `ApprovalRequests.DecisionAnnounced` | workflow-engine-go/internal/approval/service.go:599-634 | an accepted decision publishes what was decided before anything that follows from it |
| `ApprovalRequests.ActivationMeans` | workflow-engine-go/internal/approval/service.go:216-505 | an activation makes the gate ACTIVE unless it is SATISFIED or FAILED or nobody can be asked, and touches no other gate, chain or case |
| `ApprovalRequests.TimeoutMeans` | workflow-engine-go/internal/approval/sweep_job.go:134-330 | a pending request that times out counts as approved, rejected, expired or still pending as the gate's action says, and then the policy's verdict on the new counts closes an open gate, except after a plain expiry |
| `ApprovalRequests.CreationMeans` | workflow-engine-go/internal/approval/service.go:27-214 | a new gate is PENDING, needs at least one approval, and has a chain at its first tier exactly when it has tiers |
| `ApprovalRequests.CreationAgain` | workflow-engine-go/internal/approval/service.go:27-214 | creating a gate again replaces its configuration and keeps its status, its case and the progress of its chain |
| `ApprovalCases.CasesFollowRulings` | workflow-engine-go/internal/approval/service.go:655-659 | in every step the case events published are the ones due (a rejection that takes effect on a gate not passed by its policy: none, CASE_REJECTED, CASE_SENT_TO_REWORK, or CASE_MAX_REWORK_EXCEEDED when the limit is used up), the case of the gate changes as they say, and no other case changes |
| `ApprovalCases.RulingCarriedOut` | workflow-engine-go/internal/approval/service.go:842-1090 | whenever in a run a case is sent to rework it is IN_PROGRESS at the gate's target stage with its count one higher; at the rework limit or a terminal rejection it is REJECTED |
| `ApprovalCases.GateAfterDecision` | workflow-engine-go/internal/approval/service.go:636-659 | the status of a gate after every accepted decision, with or without a chain: an open gate is closed by its policy's verdict, then the chain makes it SATISFIED by the approval of its last tier or FAILED by the failure of the current one, then a ruling on the case makes it REJECTED_REWORK_INITIATED or FAILED |
| `ApprovalCases.CaseStory` | workflow-engine-go/internal/approval/service.go:821-1090 | over every run a case row is what the rulings on its gates, one after the other, make of the row it started as |
| `ApprovalCases.ReworkCounted` | workflow-engine-go/internal/approval/service.go:871-936 | over every run the rework count is its start plus the number of rework events of gates of that case |
| `ApprovalService.Approvals.EvaluateApprovalPolicy` | workflow-engine-go/internal/approval/evaluator.go:54-128 | the row-by-row evaluation is the policy function on the stored rows |
| `ApprovalService.Approvals.FindTierDefinition` | workflow-engine-go/internal/approval/evaluator.go:587-594 | the look-up loop finds the first tier with the number |
| `ApprovalService.Approvals.EvaluateApprovalChain` | workflow-engine-go/internal/approval/evaluator.go:310-551 | look-up, the two expressions, the tier's policy and the row updates, one after the other, do to the rows what one evaluation of the chain means |
| `ApprovalService.Approvals.EvaluateTierPolicy` | workflow-engine-go/internal/approval/evaluator.go:445-550 | counting the requests of the tier and applying its verdict fails, keeps or moves the chain and closes the gate |
| `ApprovalService.Approvals.ExecuteRejectionBehavior` | workflow-engine-go/internal/approval/service.go:821-1089 | rework, exhausted rework and terminal rejection update case, gate and events as specified |
| `ApprovalService.Approvals.Decide` | workflow-engine-go/internal/approval/service.go:516-665 | a decision updates request, gate, chain, case and events as specified, and on any failure everything is as before |
| `ApprovalService.Approvals.Delegate` | workflow-engine-go/internal/approval/service.go:667-819 | a delegation replaces one pending request by another of the same gate and tier |
| `ApprovalService.Approvals.Activate` | workflow-engine-go/internal/approval/service.go:216-480 | activation asks every approver once in a loop, unless requests are pending or the gate is closed |
| `ApprovalService.Approvals.ProcessCandidate` | workflow-engine-go/internal/approval/sweep_job.go:134-217 | an expired request is approved, rejected or handed over, and the gate re-evaluated; a missing target leaves it expired and the gate alone |
| `ApprovalService.Approvals.TimeOut` | workflow-engine-go/internal/approval/sweep_job.go:219-368 | marking expired and then taking the timeout action yields the specified requests |
| `ApprovalService.Approvals.Sweep` | workflow-engine-go/internal/approval/sweep_job.go:114-124 | the sweep loop is the run of its candidates' expiry steps |
| `CanonicalJson.SortKeys` | workflow-engine-go/internal/integration/deal_ingestion_service.go:1313-1318 | keys met in any order are sorted into the one increasing order |
| `CanonicalJson.InOrderUnique` | workflow-engine-go/internal/integration/deal_ingestion_service.go:1313-1318 | that order is unique, so the text does not depend on the iteration order of the map |
| `CanonicalJson.QuoteInjective` | workflow-engine-go/internal/integration/deal_ingestion_service.go:1324-1325 | a quoted string can be read back from the front of any text (escapes of section 7 of RFC 8259) |
| `JsonStrings.QuoteBack` | workflow-engine-go/internal/integration/deal_ingestion_service.go:1324-1325 | reading what is written for a string, by section 7 of RFC 8259, gives the string back and leaves what follows it |
| `CanonicalJson.CanonInjective` | workflow-engine-go/internal/integration/deal_ingestion_service.go:1311-1360 | the canonical text of a value can be read back in front of a delimiter |
| `CanonicalJson.SameTextIffSameValue` | workflow-engine-go/internal/integration/deal_ingestion_service.go:1296-1360 | two JSON values have the same canonical text if and only if they are the same value |
| `CanonicalJson.CanonicalizeJson` | workflow-engine-go/internal/integration/deal_ingestion_service.go:1311-1360 | the recursion that writes to buffers produces the canonical text |
| `BusinessDays.AddBusinessDays` | workflow-engine-go/internal/integration/deal_ingestion_service.go:1412-1426 | the loop terminates at the working day that ends exactly `days` working days after the start, or returns the start |
| `BusinessDays.SubtractBusinessDays` | workflow-engine-go/internal/integration/deal_ingestion_service.go:1428-1442 | the same backwards |
| `BusinessDays.AddedUnique` | workflow-engine-go/internal/integration/deal_ingestion_service.go:1412-1426 | there is only one such day |
| `BusinessDays.AddThenSubtract` | workflow-engine-go/internal/integration/deal_ingestion_service.go:1412-1442 | subtracting what was added leads back to the start, or to the Friday before a start in a weekend |
| `BusinessDays.SubtractThenAdd` | workflow-engine-go/internal/integration/deal_ingestion_service.go:1412-1442 | adding what was subtracted leads back to the start, or to the Monday after a start in a weekend |
| `DealIngestion.AtMostOneOpen` | workflow-engine-go/internal/integration/deal_ingestion_service.go:673-749 | after every run of deliveries and lifecycle steps that leave no terminal status, all cases of a deal but the newest are terminal, at most one is open, and no delivery gets the duplicate-open-cases error |
| `DealIngestion.ReopenedCaseBlocks` | workflow-engine-go/internal/integration/deal_ingestion_service.go:673-679 | reopening a terminal case after its successor was created makes the next delivery fail with that error |
| `DealIngestion.LateOrRepeatedChangesNothing` | workflow-engine-go/internal/integration/deal_ingestion_service.go:161-196 | any number of late or repeated deliveries, in any order and for any deals, change no record and no case |
| `DealIngestion.TimestampsGrow` | workflow-engine-go/internal/integration/deal_ingestion_service.go:183-201 | over every run the stored snapshot timestamp of a deal never decreases |
| `DealIngestion.OpenCaseCarriesSnapshot` | workflow-engine-go/internal/integration/deal_ingestion_service.go:887-937 | a case that has stayed open since its creation carries the hash of the stored snapshot |
| `DealIngestion.SameKeySameAnswer` | workflow-engine-go/internal/integration/deal_ingestion_service.go:65-76 | for 24 hours every delivery with an accepted delivery's key gets the same answer and changes nothing, whatever happened in between |
| `DealActions.DeclinedCancels` | workflow-engine-go/internal/integration/deal_ingestion_service.go:733-740 | after a new snapshot of a DECLINED or CLOSED deal no case is open: the one that was is CANCELLED and named in the answer, the others are unchanged |
| `DealActions.VerificationOpens` | workflow-engine-go/internal/integration/deal_ingestion_service.go:683-731 | after a new snapshot of a deal in DOCUMENT_VERIFICATION exactly one case is open unless the answer is exceptional, which it is exactly when none was open and the newest is not over; a new one is opened exactly when none was open otherwise |
| `DealActions.OpenCaseRefreshed` | workflow-engine-go/internal/integration/deal_ingestion_service.go:712-746 | otherwise the open case keeps its status and carries the new hash (not at a first ingestion in DOCUMENT_VERIFICATION), and the others are unchanged |
| `DealActions.NothingToDo` | workflow-engine-go/internal/integration/deal_ingestion_service.go:733-748 | without an open case, a deal in any other status is only recorded |
| `DealActions.FlaggedIff` | workflow-engine-go/internal/integration/deal_ingestion_service.go:712-721 | a change is flagged exactly for a material update of a deal in DOCUMENT_VERIFICATION with an open case |
| `DealActions.TurnedAwayIff` | workflow-engine-go/internal/integration/deal_ingestion_service.go:51-260 | exactly which deliveries are answered 422, 409 and 500, and that these change nothing |
| `DealActions.RespectfulRunsAct` | workflow-engine-go/internal/integration/deal_ingestion_service.go:673-679 | in runs whose lifecycle steps reopen no case, every new snapshot is acted on |
| `DealActions.CasesCounted` | workflow-engine-go/internal/integration/deal_ingestion_service.go:683-710 | over every run a deal has exactly one case for each that the history says was opened |
| `DealIngestion.IngestionService.GetOpenCases` | workflow-engine-go/internal/integration/deal_ingestion_service.go:610-630 | the open cases of a deal, newest first |
| `DealIngestion.IngestionService.DetermineAndApplyCaseAction` | workflow-engine-go/internal/integration/deal_ingestion_service.go:662-749 | opens, refreshes, flags or cancels the case as specified, or fails without a change |
| `DealIngestion.IngestionService.IngestDeal` | workflow-engine-go/internal/integration/deal_ingestion_service.go:51-264 | record, cases, history and cache change as specified, and a failure rolls everything back |
| `RetryBackoff.ComputeBackoffDuration` | workflow-engine-go/internal/exception/classifier.go:199-243 | the strategies, the cap and the errors, in wrapping 64-bit arithmetic |
| `RetryBackoff.Double` | workflow-engine-go/internal/exception/classifier.go:219-231 | the doubling loop never holds more than the larger of base and maximum when both fit |
| `RetryBackoff.ExponentialBackoff` | workflow-engine-go/internal/exception/classifier.go:199-243 | the exponential wait is min(base·2^(n−1), max) for every attempt n ≥ 1 |
| `RetryBackoff.ExponentialMonotone` | workflow-engine-go/internal/exception/classifier.go:219-231 | a later attempt never waits less |
| `TaskFailures.ResolveRetryableCodes` | workflow-engine-go/internal/exception/classifier.go:137-149 | the loop with its set of seen codes yields the cleaned list |
| `TaskFailures.CleanCodesSame` | workflow-engine-go/internal/exception/classifier.go:137-149 | which has exactly the normalized, non-empty codes, each once |
| `TaskFailures.ResolvePolicy` | workflow-engine-go/internal/exception/classifier.go:112-157 | a resolved policy never has negative retries, and 0 < base ≤ max |
| `TaskFailures.RetryDecision` | workflow-engine-go/internal/exception/service.go:326-381 | a retry stays within the row's maximum and below the poison-pill threshold |
| `TaskFailures.RetriesBounded` | workflow-engine-go/internal/exception/service.go:326-528 | in every run of failures, requeues and releases: total_failure_count is the number of failures handled, fewer than threshold retries are ever scheduled and at most (requeues+1)·max, and there is one active queue entry exactly while the task is FAILED |
| `TaskFailures.QuarantineLasts` | workflow-engine-go/internal/exception/dashboard.go:184-394 | from any state the total never decreases, and once it is one short of the threshold no retry is ever scheduled again |
| `FailureOutcomes.FailureOutcome` | workflow-engine-go/internal/exception/service.go:91-192 | a handled failure leaves the task PENDING with one more scheduled attempt and no new queue entry exactly when its normalized code is transient, or in neither list while the policy lists codes; the policy lists it or lists none; and the row's budget and the threshold allow one more; otherwise the task is FAILED with one new active entry. The wait is that of the strategy: the base, or n times it, or doubled n - 1 times, up to the maximum |
| `FailureOutcomes.HandledIff` | workflow-engine-go/internal/exception/service.go:79-94 | a failure is refused exactly when the task is terminal, or the wait of a retry within the budget has no value |
| `FailureOutcomes.DefaultsMean` | workflow-engine-go/internal/exception/classifier.go:112-169 | which settings of a definition are taken as they are, and the defaults otherwise |
| `FailureOutcomes.TransientRetried` | workflow-engine-go/internal/exception/classifier.go:112-121 | a new task with the default policy waits five seconds after its first transient failure |
| `FailureOutcomes.RetriesGranted` | workflow-engine-go/internal/exception/service.go:343-361 | a task that keeps failing with a retryable code is retried until its budget or the threshold is used up |
| `FailureOutcomes.ThenDeadLettered` | workflow-engine-go/internal/exception/service.go:157-192 | and the next failure puts it in the queue, as a poison pill exactly when the threshold is reached |
| `FailureOutcomes.NormalizedStays` | workflow-engine-go/internal/exception/classifier.go:52-60 | normalizing a code twice is the same as once |
| `FailureOutcomes.FlagsOverRuns` | workflow-engine-go/internal/exception/dashboard.go:184-394 | over every run an active entry belongs to a FAILED task and is a poison pill exactly when the total has reached the threshold, and the task is flagged exactly while such an entry is not released |
| `FailureOutcomes.RequeueStartsOver` | workflow-engine-go/internal/exception/dashboard.go:242-277 | after every run a requeue is accepted of the active entry only, and leaves the task PENDING with its whole budget and no active entry |
| `TaskFailures.FailureService.EvaluateRetryDecision` | workflow-engine-go/internal/exception/service.go:326-381 | the decision built field by field is the specified one |
| `TaskFailures.FailureService.HandleTaskFailure` | workflow-engine-go/internal/exception/service.go:58-216 | task, history and queue change as specified; a terminal task or a failed decision changes nothing |
| `TaskFailures.FailureService.RequeueDLQEntry` | workflow-engine-go/internal/exception/dashboard.go:184-358 | only an active entry is requeued: the task is PENDING with no retries used, the entry inactive, the total kept |
| `TaskFailures.FailureService.PoisonPillRelease` | workflow-engine-go/internal/exception/dashboard.go:361-394 | clears the flag and releases the active entries |
| `DocumentPaths.SplitSegments` | workflow-engine-go/internal/document/path_utils.go:30-45 | the loop keeps the trimmed, non-empty parts of a dotted path |
| `DocumentPaths.SplitJoined` | workflow-engine-go/internal/document/path_utils.go:30-45 | splitting segments joined with dots gives the segments back |
| `DocumentPaths.GetAfterSet` | workflow-engine-go/internal/document/path_utils.go:65-118 | what was set is found at the path, and so is everything inside it |
| `DocumentPaths.SetElsewhere` | workflow-engine-go/internal/document/path_utils.go:92-118 | setting changes no path apart from it, even where it replaces a step that is no map |
| `DocumentPaths.SetTwice` | workflow-engine-go/internal/document/path_utils.go:92-118 | the last write wins |
| `DocumentPaths.AbsentAfterDelete` | workflow-engine-go/internal/document/path_utils.go:120-143 | nothing is found at or below a deleted path |
| `DocumentPaths.DeleteElsewhere` | workflow-engine-go/internal/document/path_utils.go:120-143 | deleting changes no path apart from it |
| `DocumentPaths.DeleteAbsent` | workflow-engine-go/internal/document/path_utils.go:120-143 | deleting what is not there changes nothing |
| `Redaction.RedactionHides` | workflow-engine-go/internal/document/redaction.go:54-95 | whatever the rule order, no path appears, nothing is left at or below a path hidden from the role, and at most a text where one is masked or truncated |
| `Redaction.RedactionElsewhere` | workflow-engine-go/internal/document/redaction.go:54-95 | paths apart from all rules are unchanged |
| `Redaction.AllowedSeesAll` | workflow-engine-go/internal/document/redaction.go:69-74 | a role allowed by every rule sees the data as it is |
| `RedactionResults.RewrittenText` | workflow-engine-go/internal/document/redaction.go:76-90 | where something present is masked or truncated for this reader and no other rule for them is about the path or one through it, the result has exactly the rewritten text of the value |
| `RedactionResults.AbsentIff` | workflow-engine-go/internal/document/redaction.go:58-98 | a path is missing from the result exactly when it was missing before, or lies at or below a hidden path, or strictly below a masked or truncated one |
| `RedactionResults.SameRole` | workflow-engine-go/internal/document/redaction.go:58-74 | readers whose roles differ only in case and surrounding blanks see the same |
| `RedactionResults.RedactionFailsIff` | workflow-engine-go/internal/document/redaction.go:63-95 | a reader who is not the system gets an error exactly when some rule, whose path is in the data and not covered by an earlier rule, has unreadable roles, or applies with an unknown action |
| `DocumentStore.TreeGraft` | workflow-engine-go/internal/document/path_utils.go:92-143 | changing one of the nested maps in place changes the document at the path that leads to it and nowhere else |
| `DocumentStore.Document.constructor` | workflow-engine-go/internal/document/path_utils.go:47-63 | a copy has its own maps and forms the same document |
| `DocumentStore.Document.Find` | workflow-engine-go/internal/document/path_utils.go:65-90 | the walk finds exactly what the document has at the path |
| `DocumentStore.Document.SetByPath` | workflow-engine-go/internal/document/path_utils.go:92-118 | the in-place walk, creating or replacing maps on its way, sets the value in the document |
| `DocumentStore.Document.DeleteByPath` | workflow-engine-go/internal/document/path_utils.go:120-143 | the in-place walk deletes the path from the document and tells whether it was there |
| `DocumentStore.Document.ApplyRule` | workflow-engine-go/internal/document/redaction.go:56-92 | one rule applied in place is the specified redaction of one field |
| `DocumentStore.Document.RedactSensitiveData` | workflow-engine-go/internal/document/redaction.go:22-95 | the loop over the rules on the copied maps is the specified redaction, and fails exactly when that does |
| `DocumentStore.RedactCopy` | workflow-engine-go/internal/document/redaction.go:22-95 | copying the data, redacting the copy in place and reading it back is the specified redaction |
| `CaseClaims.ClaimsExclusive` | workflow-engine-go/internal/getnext/getnext.go:688-703 | under every interleaving of selects, claims, releases and lifecycle steps, between two CLAIMED rows of a case, whoever they name, the case was released |
| `CaseClaims.WinnerKeepsCase` | workflow-engine-go/internal/getnext/getnext.go:688-703 | after a claim succeeds, every claim of the case by anybody fails and changes nothing until it is released, whatever comes in between |
| `CaseClaims.RunHeld` | workflow-engine-go/internal/getnext/getnext.go:688-720 | the stored assignment is always the last word of the log on the case |
| `CaseClaims.ClaimedRowIffTransition` | workflow-engine-go/internal/getnext/getnext.go:688-720 | a CLAIMED row is written exactly when a case goes from ALLOCATABLE to IN_PROGRESS, and names who then holds it |
| `CaseClaims.ClaimsBalance` | workflow-engine-go/internal/engine/lifecycle.go:567-593 | claims plus idle releases equal releases plus one if the case is held |
| `CaseClaims.BalanceIffNoIdleRelease` | workflow-engine-go/internal/engine/lifecycle.go:567-593 | claims minus releases is 1 while held and 0 otherwise if and only if no release met a case in progress that nobody had claimed |
| `CaseClaims.IdleReleasePossible` | workflow-engine-go/internal/engine/lifecycle.go:25-35 | such a release is possible: a case moved to IN_PROGRESS without a claim can be released |
| `CaseClaims.SelectedIff` | workflow-engine-go/internal/getnext/getnext.go:303-318 | only a free case can be selected, and selecting it changes nothing about it |
| `CaseClaims.ClaimTakenIff` | workflow-engine-go/internal/getnext/getnext.go:688-724 | a claim changes something exactly when the selected case is still free, and then it is in progress, held by the claimant, and logged |
| `CaseClaims.OverStays` | workflow-engine-go/internal/engine/lifecycle.go:25-35 | a COMPLETED, CANCELLED or REJECTED case stays as it is over every run |
| `CaseClaims.ReleaseTakenIff` | workflow-engine-go/internal/engine/lifecycle.go:567-623 | a release changes something exactly when the case is in progress, and then it is free and logged |
| `CaseClaims.ReleasedIsClaimed` | workflow-engine-go/internal/engine/lifecycle.go:567-623 | a released case can be selected and claimed by the next operator |
| `CaseClaims.Allocation.GetNextClaim` | workflow-engine-go/internal/getnext/getnext.go:688-724 | the guarded update claims a free case and otherwise changes nothing |
| `CaseClaims.Allocation.ReleaseToPool` | workflow-engine-go/internal/engine/lifecycle.go:567-623 | a case in progress goes back to the pool with nobody assigned |

## Left out

- Frontend, HTTP handlers, migrations, seed data, metrics and logging: no logic of the kind modelled here.
- The orchestrator's stage advance, SLA calendars, tenancy, notifications, document storage and retention.
- Task rows in approvals: a satisfied gate also unblocks its task and a rejection cancels tasks; gates, requests, chains, cases and events are modelled, tasks are not.
- Audit-log rows, row versions, the NO_ELIGIBLE_APPROVER event and the gate's timestamps.
- SHA-256: results are about canonical texts; equal hashes of different texts are not considered. UTF-8 encoding of the text is not modelled either, strings being sequences of code points.
- Unicode blanks and letter case: trimming and case conversion are those of ASCII.
- Error messages and the position at which the fused evaluator fails, which can be another error than that of the separate steps.
- Floating-point rounding, in expressions and in the consensus share.
- Surrogate pairs in escapes of a JSON text that is read (`JsonStrings`); the canonical text has none.
- Ties of `created_at`: the cases of a deal are in the order of their creation.
- Validation of a deal snapshot, the computation of differences and warnings, and the tasks and tags of a new case.
- Escalation of a case and compensation after a failed task, and the extraction of an error code from an error.
- Scores, skills, capacity limits and skip counters of GetNext: which free case is selected is arbitrary.
- Lifecycle operations that assign a case by other routes than claiming it.
- The texts that masking and truncating produce.
- DocumentStore.Document.SetByPath: copies an object it is given instead of referring to it, which its callers, who only pass strings, never do.
- WorkflowLaws.ReportedTwice: leaves open whether a second activation fails that meets empty containers beside tasks.
- ApprovalService.Approvals.Delegate: does not model the unique index on pending requests by gate, approver and tier (`db/migrations/000022_approval_gates.up.sql`), by which a delegation to somebody already asked fails; the same for the requests of an activation.
- The order of decisions for a gate with a chain, or when some of its requests were delegated: `ApprovalOrder` is about pending requests of a gate without one.
- ApprovalTiers.LaterTiersSkipped: is about gates whose tiers are not changed by creating the gate again.
- ApprovalTiers.ChainNeverSatisfies: is about gates whose tiers are not changed by creating the gate again.
- RetryBackoff.ExponentialBackoff: stated for base and maximum intervals that fit in 64 bits, because the code multiplies them by a second without a check.
