# Verification of the distributed calculator

This project models, in Dafny, the path of an arithmetic expression through the distributed
calculator, from the text a user sends to the verdict stored for it, and proves what every run of the
system keeps.

**The compiler.** `tokenize` splits the text, `toRPN` converts the tokens to Reverse Polish Notation
with an operator stack, `validateRPN` simulates the result, and `Schedule` turns it into a plan: a
list of tasks whose operands are constants or results of earlier tasks. Each loop is a method over the
mutable `Stackx.Stack`, proved equal to a function; the theorems relate that function to something
defined without it: the grammar of infix expressions, the postorders of trees, the value of a tree.

**The protocol.** The repository is a class over two tables (maps from id to row) and each of its
methods is one transaction. `Machine` makes the methods the steps of a state machine, with any number
of workers in any interleaving: a claim can be submitted at any later time, any number of times, or
never. `FinishTask` has no condition on the old status of the row, so a late result makes a Failed task
Pending again when its other argument is there (`Duplicates.FailedIsRevived`), duplicates reopen
finished tasks (`Duplicates.ReopensExactly`), and statuses are not monotone. The verdict is determined
all the same.

**Main results**

- Every infix expression, written with any blanks, gets the verdict its tree demands in every run
  (`EndToEnd.InfixVerdict`), and every text that `Parse` accepts gets the verdict of its formula
  (`EndToEnd.VerdictIsMeaning`). Once given, a verdict never changes (`Verdict.VerdictIsStable`).
- `toRPN` yields the postorder of the tree of every derivation (`Grammar.ShuntingYardIsCorrect`);
  `validateRPN` accepts exactly the postorders (`Validation.ExactAcceptance`); running the plan of an
  accepted list gives the stack machine's value (`PlanMeaning.SchedulingPreservesMeaning`).
- No reachable state is stuck (`Verdict.NoDeadlock`) or a dead end (`Completion.CanAlwaysFinish`). An
  expression of n tasks and height h takes at most 2n claims and submissions, and 2h - 1 more for each
  repeated submission (`Repeats.WorkIsBounded`).
- Expressions do not interfere (`Isolation.RunIsIsolated`). A task is claimed at most once more often
  than it is reopened by a duplicate (`Duplicates.TakenOncePerOpening`), at most once when no submission
  is repeated (`Progress.PendingOnceTakenOnce`). A pending task is overtaken by no more claims than there
  are tasks no younger than it and results that have woken one of these (`Bypass.OvertakingIsBounded`).
- Left alone, a worker's turn is one claim and its submissions and nothing else (`Scripts.TurnAlone`);
  among others it still claims and submits no more than that by itself (`Scripts.TurnCounts`).

**Where the code does less than its documentation.** The comment on `Parse`
(`internal/calculator/calc/calc.go:22-23`) promises an error for an invalid expression. The code
accepts more than infix expressions, for instance any expression followed by one more `)`
(`StrayBrackets.AcceptsMoreThanInfix`). A stray `)` is not ignored: it silently puts everything before
it in brackets, so that `a+b)*c` means `(a+b)*c` (`StrayBrackets.StrayClosingText`).
`Soundness.ExactText` says exactly when an accepted text is an infix expression: when its brackets
balance and neighbouring tokens fit together. Blanks are ignored also inside a number
(`Tokenizer.ExactTokens`). `validateRPN` takes a bracket or an unknown symbol for
an operand and `Schedule` takes it for an operator; `PlanMeaning.ExactUnderflow` says when this makes
`Schedule` pop an empty stack, and such a text still gets the verdict of its formula, which is Failed.
Claims are not exclusive: `TwoHolders.RepeatedSubmissionClaimsTwice` is a run of the service on
`(a+b)*c` in which one repeated submission lets two workers hold the same task.

**References.** What is proved of a definition that both a method and the theorems use is stated in
terms that do not depend on it. The grammar has its own levels and its own literal characters, shown
to be those of the code (`Grammar.LevelsArePrecedences`, `Tokenizer.LiteralIsNumber`,
`Tokenizer.OtherIsSign`). The worker's arithmetic is written out (`Agent.WorkerArithmetic`,
`Numbers.OperatorTable`). `Statements` says column by column what each repository method has to do, and
`Repository` shows that its functions do that and nothing else (`Repository.FinishedByColumns`).

**Numbers.** `Num` stands for the float64 values other than NaN. The type, the four operations and the
literal parser have no definition, so no algebraic law is used. `None` is NaN. Division by zero is
`None`, and the value of a tree is strict in `None`.

**What is a parameter.** The ids of `xid` and the times of `time.Now` are arguments; ids are fresh and
not empty. The tickets that name claims belong to the model, and so does the run a `Server` records.
What other workers and users do during a call of an agent is a script of events (`Scripts.Event`).

**Files.** `Numbers`, `Agent`, `Stackx`, `Types`: numbers, the worker's operation, the stack, tokens
and trees. `Tokenizer`, `ShuntingYard`, `Validation`, `Calculator`, `Scheduler`: the compiler.
`Grammar`, `YardFacts`, `Soundness`, `StrayBrackets`, `Plans`, `PlanMeaning`: theorems about it.
`Models`, `Statements`, `Repository`, `Machine`, `Service`, `Scripts`, `Workers`: the protocol, its
services and its agents.
`Invariant`, `Preservation`, `Creation`: the invariant of every run. `Verdict`, `Lineage`, `Slots`,
`Progress`, `Bypass`, `Completion`, `Isolation`, `Duplicates`, `Repeats`, `EndToEnd`, `TwoHolders`:
theorems about all runs. `dafny verify dfyconfig.toml` checks the project.

## Model

| member | source | states |
|---|---|---|
| `Stackx.Stack.Push` | internal/calculator/calc/stackx/stackx.go:13-15 | The item goes on top and nothing below changes. |
| `Stackx.Stack.Pop` | internal/calculator/calc/stackx/stackx.go:17-26 | Takes off what was pushed last, or reports an empty stack with the zero value and leaves it empty. |
| `Stackx.Stack.SafePop` | internal/calculator/calc/stackx/stackx.go:28-31 | As Pop, but the zero value is the only sign of an empty stack. |
| `Agent.OperatorIsComputed` | internal/agent/agent.go:104-118 | From token to stored text, to operation code, to the worker's arithmetic, every operator keeps its meaning and its operand order. |
| `Agent.WorkerArithmetic` | internal/agent/agent.go:104-118 | What the worker answers for each stored operator: sum, difference, product and quotient of the operands in this order, NaN for a zero divisor and for every other operator. |
| `Numbers.OperatorTable` | internal/calculator/service/calculator.go:158-171 | The operation by which trees are valued, written out in the same way; the four operators are stored as themselves and everything else as the empty text. |
| `Numbers.StoredAlike` | internal/calculator/service/calculator.go:158-171 | Storing an operator loses nothing that can be observed: symbols stored alike have the same value, and unknown ones have none. |
| `Tokenizer.Tokenize` | internal/calculator/calc/calc.go:77-103 | The loop over characters with a number buffer returns what the function Lex gives, or the error when a literal does not parse. |
| `Tokenizer.ExactTokens` | internal/calculator/calc/calc.go:80-101 | A token list is returned if and only if the text without blanks splits into maximal numerals and single signs that denote it. |
| `Tokenizer.LexingIsUnique` | internal/calculator/calc/calc.go:80-101 | Reading back the text of such a splitting gives the splitting, so it is the only one. |
| `Tokenizer.BlanksDoNotMatter` | internal/calculator/calc/calc.go:83 | Removing every blank, also inside numbers, changes no token. |
| `Tokenizer.LiteralIsNumber` | internal/calculator/calc/calc.go:81 | Every nonempty text over `0123456789.` is one number when the literal parser takes it, and an error otherwise. |
| `Tokenizer.OtherIsSign` | internal/calculator/calc/calc.go:83-93 | Every other character but the blank is a sign of its own wherever it stands: what is before it and what is after it are read apart. |
| `Tokenizer.BlankIsNothing` | internal/calculator/calc/calc.go:83 | A blank anywhere, also in the middle of a literal, can be left out. |
| `ShuntingYard.ToRPN` | internal/calculator/calc/calc.go:107-138 | The loops over the mutable operator stack return the list of the function Convert exactly when validation accepts it, and the error otherwise; together they pop as often as tokens are pushed, at most once a token. |
| `Validation.ValidateRPN` | internal/calculator/calc/calc.go:142-162 | The loop accepts exactly the lists of the predicate Accepts. |
| `Validation.ExactAcceptance` | internal/calculator/calc/calc.go:142-162 | A list is accepted if and only if it is the postorder of a tree with operators inside and other tokens at the leaves. |
| `Validation.PostorderIsAccepted` | internal/calculator/calc/calc.go:142-162 | The tree recovered from the postorder of a tree is that tree. |
| `Validation.PostorderIsInjective` | internal/calculator/calc/calc.go:142-162 | No two such trees have the same postorder, so the tree of an accepted list is unique. |
| `Validation.FormulaOf` | internal/calculator/calc/calc.go:142-162 | Gives the tree of an accepted list: its postorder is the list. |
| `Grammar.ReadDerivation` | internal/calculator/calc/calc.go:110-129 | Reading any derivation over a stack whose top binds weaker writes its postorder, except for operators of at least its level left on the stack. |
| `Grammar.LevelsArePrecedences` | internal/calculator/calc/calc.go:164-182 | The operators are `+` and `-` on the lower and `*` and `/` on the higher level of the grammar, and no others; the precedences are these levels. |
| `Grammar.ShuntingYardIsCorrect` | internal/calculator/calc/calc.go:107-138 | For every derivation of the grammar, whose two left-associative levels are its own, with any redundant brackets, the output is exactly the postorder of its tree and is accepted. |
| `Grammar.TokenizeWritten` | internal/calculator/calc/calc.go:77-103 | A derivation written with any blanks tokenizes to its tokens. |
| `Grammar.Print` | internal/calculator/calc/calc.go:107-138 | Every tree has a derivation of any required level whose tree it is. |
| `Grammar.PrintIsMinimal` | internal/calculator/calc/calc.go:114-122 | No derivation of the tree has fewer brackets than that one. |
| `YardFacts.NumbersKeepOrder` | internal/calculator/calc/calc.go:110-132 | On every token list the numbers come out in source order and only symbols are ever stacked. |
| `YardFacts.ConversionConserves` | internal/calculator/calc/calc.go:110-132 | Over numbers, operators and brackets the output is a permutation of the tokens that are no brackets plus one `(` for each left open; it has no bracket if and only if none is left open. |
| `YardFacts.StackIncreases` | internal/calculator/calc/calc.go:123-127 | Between opening brackets the stacked precedences strictly increase, no `)` is ever stacked, and stack and output together never exceed the tokens read. |
| `YardFacts.StackBound` | internal/calculator/calc/calc.go:110-132 | With d brackets on it the operator stack has at most 3d + 2 entries, one more when unknown symbols occur, and the output is no longer than the input. |
| `YardFacts.StrayClosingIsIgnored` | internal/calculator/calc/calc.go:116-122 | A `)` at the very end of the list, with no bracket left to close, changes nothing. |
| `Soundness.Derive` | internal/calculator/calc/calc.go:107-138 | Every balanced list of fitting neighbours that starts and ends with an operand is the token list of a derivation. |
| `Soundness.ExactInfix` | internal/calculator/calc/calc.go:107-138 | A token list is that of a derivation if and only if it is accepted, its brackets balance and its neighbouring tokens fit. |
| `Soundness.ExactText` | internal/calculator/calc/calc.go:22-34 | An accepted text reads as an infix expression if and only if its brackets balance and its neighbouring tokens fit; its meaning is then that of the expression's tree. |
| `StrayBrackets.AcceptsMoreThanInfix` | internal/calculator/calc/calc.go:22-34 | The text of every expression followed by one more `)`, with any blanks, is accepted with the expression's value and reads as no infix expression. |
| `StrayBrackets.StrayClosingRegroups` | internal/calculator/calc/calc.go:116-122 | Whatever follows, a `)` after known tokens with balanced brackets acts as the partner of a bracket opened at the very start. |
| `StrayBrackets.StrayClosingText` | internal/calculator/calc/calc.go:24-34 | Of texts: Parse answers `u)v` as it answers `(u)v`, for every u of known tokens with balanced brackets and every v, error or not. |
| `Calculator.Parse` | internal/calculator/calc/calc.go:24-34 | Returns the converted list if tokenizing and validation succeed, the error otherwise. |
| `Calculator.ParsedExactly` | internal/calculator/calc/calc.go:24-34 | A list is returned if and only if it is a formula's postorder and what the tokens of the text's splitting convert to. |
| `Scheduler.Schedule` | internal/calculator/calc/calc.go:38-73 | The loop over the mutable stack of constants and task references builds the plan of the function PlanOf, the right operand popped first. |
| `Plans.PlanAllExplained` | internal/calculator/calc/calc.go:48-70 | The invariant of the loop: every task has a tree, operands are constants or earlier tasks with the subtree's tree, and every task is either used by one operand or waits on the stack. |
| `PlanMeaning.ScheduleMakesInTree` | internal/calculator/calc/calc.go:38-73 | The plan of every accepted list with a symbol is an in-tree: every task but the last is used by exactly one operand, of a later task, and the last by none; it has one task for each symbol. |
| `PlanMeaning.PlanKeepsOperators` | internal/calculator/calc/calc.go:54 | The tasks carry the symbols of the list in its order, for every list and every state of the loop. |
| `PlanMeaning.EmptyPlanExactly` | internal/calculator/calc/calc.go:38-73 | The plan of an accepted list is empty if and only if the list is one number. |
| `PlanMeaning.GoalKeepsMeaning` | internal/calculator/calc/calc.go:49-66 | The tree of the plan has the value of the list's formula, also when stray symbols are scheduled as operators; it is the formula when all leaves are numbers. |
| `PlanMeaning.RunPlanComputesTrees` | internal/calculator/calc/calc.go:56-66 | Running the tasks in order, each parent replaced by its result, gives every task the value of its tree. |
| `PlanMeaning.EvaluatePostorder` | internal/calculator/calc/calc.go:142-162 | The stack machine on the postorder of a tree pushes the value of the tree. |
| `PlanMeaning.SchedulingPreservesMeaning` | internal/calculator/calc/calc.go:38-73 | For every accepted list with a symbol, the result of the plan's last task is the stack machine's only value and the formula's value. |
| `PlanMeaning.StackSizeDecides` | internal/calculator/calc/calc.go:48-70 | Whether the loop ever pops an empty stack depends on the stack's size alone. |
| `PlanMeaning.ExactUnderflow` | internal/calculator/calc/calc.go:56 | On an accepted list, every pair of pops of the loop finds two items if and only if every symbol is an operator; the plan then has (n - 1) / 2 tasks. |
| `Repository.Repository.CreateExpression` | internal/calculator/repository/expressions.go:19-95 | Inserts a Pending expression and a row for each task, Pending when it has no parent and Created otherwise, with NULL for the arguments that come from parents; without tasks it fails and nothing is stored. |
| `Repository.Repository.GetPendingTask` | internal/calculator/repository/expressions.go:166-199 | Moves a pending task that none is older than to InProgress and returns its row, or changes nothing when no task is pending. |
| `Repository.Repository.FinishTask` | internal/calculator/repository/expressions.go:204-279 | Reports a missing task without change; else overwrites status and result whatever they were and fails the expression, completes it, or enqueues the child. |
| `Repository.Repository.FailExpression` | internal/calculator/repository/expressions.go:281-302 | Fails the expression and all its tasks that are neither Completed nor Failed, changing no other column and no other row. |
| `Repository.Repository.EnqueueChildTask` | internal/calculator/repository/expressions.go:314-376 | Copies the result into the argument of some row that names the task as parent, and makes that row Pending, whatever it was, when both arguments are there; reports when there is no such row, without change. |
| `Repository.Repository.CompleteExpression` | internal/calculator/repository/expressions.go:378-388 | Completes the expression with the result, whatever its status was. |
| `Repository.StoredByColumns` | internal/calculator/repository/expressions.go:51-72 | Every column of every inserted row, as the plan demands it, and no other row. |
| `Repository.ClaimedByColumns` | internal/calculator/repository/expressions.go:167-175 | A state is one that a claim can lead to if and only if it differs from the old one in the status of one oldest pending task. |
| `Repository.FailedByColumns` | internal/calculator/repository/expressions.go:281-302 | The failure is the one change that sets the expression's status and that of each of its tasks in status Created, Pending or InProgress, and leaves every other row and column. |
| `Repository.HandedByColumns` | internal/calculator/repository/expressions.go:352-374 | The handover is the one change that fills the argument of the finished parent, or the second when the first has another, and makes the row Pending when both are there. |
| `Repository.FinishedByColumns` | internal/calculator/repository/expressions.go:204-279 | FinishTask can lead to a state if and only if that state follows from marking the task and then the failure, the completion when no row names it as parent, or the handover to one that does, each by its columns. |
| `Creation.CreateStep` | internal/calculator/repository/expressions.go:51-72 | Storing a planned expression keeps the invariant and changes no other row. |
| `Creation.OnlyLastIsFinal` | internal/calculator/repository/expressions.go:304-312 | Among the rows of a new plan isFinalTask is true of the last and of no other. |
| `Preservation.ClaimValue` | internal/agent/agent.go:97-119 | Whatever happened since the claim, the worker's result is the value of the task's tree. |
| `Preservation.SubmitSettles` | internal/calculator/repository/expressions.go:204-279 | An honest submission does one of three things, by the value of the task's tree: the failure cascade, completion, or handing the value to the one consumer. |
| `Preservation.SubmitStep` | internal/calculator/repository/expressions.go:204-279 | Every submission, late or repeated, keeps the invariant and the shape of the tables. |
| `Preservation.TakeStep` | internal/calculator/repository/expressions.go:166-199 | Every claim keeps the invariant. |
| `Verdict.RunExplained` | internal/calculator/repository/expressions.go:204-279 | The invariant holds in every reachable state, for the trees the expressions were scheduled from. |
| `Verdict.VerdictIsValue` | internal/calculator/repository/expressions.go:281-302 | In every reachable state, Completed rows hold the value of their tree, Failed rows mean that it has none, and InProgress never occurs. |
| `Verdict.StepKeepsExpression` | internal/calculator/repository/expressions.go:378-388 | No step removes an expression, alters its text, or alters the row once it is decided. |
| `Verdict.VerdictIsStable` | internal/calculator/repository/expressions.go:281-302 | A Completed or Failed row is the same in every later state of every run, although both updates are unconditional. |
| `Verdict.CopyCoherence` | internal/calculator/repository/expressions.go:352-374 | In every reachable state each task has the subtree of its expression's goal that its own operation computes, the final task the goal; an argument with a parent equals the parent's result column, NULL or not, and every filled column holds the value of its subtree. |
| `Verdict.StatusCoherence` | internal/calculator/repository/expressions.go:358-360 | Created rows lack an argument, Pending, InProgress and Completed rows have both, Completed rows have a result, and a claim never reads a NULL argument as 0. |
| `Verdict.FailureCascades` | internal/calculator/repository/expressions.go:249-257 | A NaN result fails the expression, the task, and those of its other tasks that are neither Completed nor Failed; these keep their rows, results included, and no other expression and no task of another changes. |
| `Verdict.DivisionByZeroNeverCompletes` | internal/agent/agent.go:111-115 | In every reachable state, an expression in whose goal any quotient has a divisor of value zero is not Completed. |
| `Verdict.NoDeadlock` | internal/calculator/repository/expressions.go:259-273 | While an expression is Pending, one of its tasks is Pending or InProgress. |
| `Verdict.QuiescentIsDecided` | internal/calculator/repository/expressions.go:166-279 | When no task is pending and every claim has been submitted, every expression is Completed with its value or Failed without one. |
| `Lineage.ChildQueryIsExact` | internal/calculator/repository/expressions.go:343-357 | In every reachable state the child query has at most one row, of the same expression, and exactly one of that row's two parents is the finished task. |
| `Lineage.OneFinalTask` | internal/calculator/repository/expressions.go:304-312 | In every reachable state isFinalTask is true of exactly one task of each expression. |
| `Lineage.FinalTaskIsForGood` | internal/calculator/repository/expressions.go:304-312 | That task is the same in every later state. |
| `Slots.FilledSlotsCount` | internal/calculator/repository/expressions.go:352-374 | In every reachable state the filled argument slots number the constants plus the tasks with a consumer and a result. |
| `Progress.RunOnce` | internal/calculator/repository/expressions.go:358-360 | When no submission is repeated, claims are for distinct tasks that never become claimable again, and results come from submissions. |
| `Progress.ExclusiveClaims` | internal/calculator/repository/expressions.go:167-175 | When no submission is repeated, no two claims of a run are for the same task. |
| `Progress.PendingOnceTakenOnce` | internal/calculator/repository/expressions.go:290-298 | When no submission is repeated, every task becomes Pending at most once and is claimed at most once in the whole run, failure cascades included. |
| `Bypass.OvertakingIsBounded` | internal/calculator/repository/expressions.go:167-175 | In every run, a task that stays Pending is overtaken by at most as many claims as there are, at the end, other tasks no younger than it, and submissions meanwhile that gave a value to one of these when it no longer waited to be claimed. |
| `Bypass.BoundedBypass` | internal/calculator/repository/expressions.go:167-175 | When no submission is repeated and new expressions get later times, a task that stays Pending is overtaken by at most as many claims as there are other tasks no younger than it. |
| `Completion.CanAlwaysFinish` | internal/calculator/repository/expressions.go:166-279 | Every run, whatever it has repeated, can be continued without new expressions and without submitting anything once more that was submitted before, until all is at rest and every expression has the right verdict. |
| `Duplicates.WakesExactly` | internal/calculator/repository/expressions.go:352-360 | A submission makes a task Pending, whatever its status, also Failed, if and only if it delivers a value to that task and the other argument is there. |
| `Duplicates.FailedIsRevived` | internal/calculator/repository/expressions.go:290-298 | A task failed with its expression becomes Pending again when a result for it comes late and its other argument is there. |
| `Duplicates.ReopensExactly` | internal/calculator/repository/expressions.go:358-360 | A submission makes a task claimable again if and only if it delivers a value to that task. |
| `Duplicates.TakenOncePerOpening` | internal/calculator/repository/expressions.go:166-199 | In every run, duplicates included, a task is claimed at most once more often than it is reopened. |
| `Duplicates.ClaimsAreTakes` | internal/calculator/repository/expressions.go:166-199 | There are as many claims for a task as times it was taken. |
| `Duplicates.TwoClaimsReopened` | internal/calculator/repository/expressions.go:358-360 | Two claims for one task imply that a submission has reopened it. |
| `Repeats.StepAllowed` | internal/calculator/repository/expressions.go:166-279 | Each claim and each first submission strictly lowers the work its expression, of height h, can still cause; a repeated submission raises it by at most 2h - 2; neither raises another expression's. |
| `Repeats.WorkIsBounded` | internal/calculator/repository/expressions.go:166-279 | Every run spends on an expression of n tasks and height h, with d repeated submissions, at most 2n + (2h - 1)d claims and submissions. |
| `Repeats.Termination` | internal/calculator/repository/expressions.go:166-279 | An expression of n tasks sees at most 2n claims and submissions when none is repeated. |
| `TwoHolders.ExampleFromUser` | internal/calculator/service/calculator.go:71-96 | Calculate stores the text (a+b)*c, for any three literals, with this plan. |
| `TwoHolders.RepeatedSubmissionClaimsTwice` | internal/agent/agent.go:146-164 | For any such literals there is a run of the service, with one repeated submission, in which two workers hold the same task: exclusive claims do need single submission. |
| `Duplicates.RepeatAtOnce` | internal/agent/agent.go:146-164 | A submission repeated before anything else happens changes nothing. |
| `Isolation.StepIsIsolated` | internal/calculator/repository/expressions.go:330-370 | A step on one expression is that step of the expression alone, and leaves every row and claim of the others, although the child query names no expression. |
| `Isolation.RunIsIsolated` | internal/calculator/repository/expressions.go:167-175 | The projection of every run to one expression is a run of that expression alone. |
| `Service.PlanForIsPlanned` | internal/calculator/service/calculator.go:80-96 | The tasks stored for an accepted text form an in-tree for its tree after operators are mapped. |
| `Service.Server.Calculate` | internal/calculator/service/calculator.go:67-105 | Rejects a text Parse rejects, and fails on a text that is one number, without change; else makes one Create step with the plan of the text. |
| `Service.Server.GetTask` | internal/calculator/service/agent.go:50-62 | Makes one Take step and returns the claim, or reports that nothing is pending. |
| `Service.Server.SubmitTaskResult` | internal/calculator/service/agent.go:64-87 | For any id and any result, from anyone: reports a missing task without change, else finishes the task as Failed for NaN and Completed for any other number; for a result a worker computed on a claim this is one Submit step. |
| `Workers.Fleet.Send` | internal/agent/agent.go:81-90 | Computing a claim's result and submitting it, when the server serves it, is one Submit step. |
| `Workers.Fleet.SubmitUntilAcknowledged` | internal/agent/agent.go:146-165 | The retry loop makes exactly the run its script demands: whatever others do between the attempts, one submission for each attempt that reaches the server, and the acknowledged one at the end. |
| `Workers.Fleet.OneTurn` | internal/agent/agent.go:71-90 | A turn of the worker loop makes exactly the run its script demands, whatever others do at any moment of it: one fetch and, when it returned a task, the execution and the submissions of that task; else some fetch found nothing pending. |
| `Workers.Fleet.Worker` | internal/agent/agent.go:63-93 | The loop makes turn after turn and nothing else: it is given a task in every turn unless nothing was pending, lists every claim its turns made, and has submitted each before it makes the next; without others, no other claim is made. |
| `Scripts.TurnAlone` | internal/agent/agent.go:71-90 | A turn without events of others changes nothing when no task is pending, and else is one claim followed by its submissions, one for each attempt that reached the server and the last, and nothing else. |
| `Scripts.TurnCounts` | internal/agent/agent.go:71-90 | Whatever others do, a turn that is given a task makes one claim and at most the others' fetches more, one that is not makes no more than these; its own claim is submitted as often as it reaches the server and at most the others' deliveries more, any other no more often than others deliver it. |
| `Scripts.WorkedCounts` | internal/agent/agent.go:63-93 | Whatever others do, a run of a worker has the claims it lists, at most one a turn, and at most the others' fetches more; a claim it does not list is submitted no more often than others deliver it. |
| `Scripts.WorkedAlone` | internal/agent/agent.go:63-93 | Without events of others, the claims made and the claims newly submitted are exactly those the worker lists. |
| `Scripts.QuietIsOnce` | internal/agent/agent.go:146-164 | When others do nothing between the attempts, any number of served submissions have the effect of one. |
| `EndToEnd.VerdictIsMeaning` | internal/calculator/service/calculator.go:67-105 | In every run, the verdict of every stored text is the value of the formula Parse found in it. |
| `EndToEnd.RestIsRight` | internal/calculator/repository/expressions.go:166-279 | In a run at rest every stored text has a verdict, and it is the right one. |
| `EndToEnd.WrittenMeaning` | internal/calculator/calc/calc.go:24-34 | A text that writes an infix expression parses to its postorder and means what its tree means. |
| `EndToEnd.TextRoundTrip` | internal/calculator/calc/calc.go:77-138 | Printing any tree with minimal brackets and any blanks, then tokenizing and converting, gives its postorder and the tree back. |
| `EndToEnd.InfixVerdict` | internal/calculator/service/calculator.go:67-105 | For every infix expression, any workers and any late or repeated submissions: Completed holds the value of its tree, Failed means it has none. |
| `EndToEnd.WrittenDivisionByZero` | internal/agent/agent.go:111-115 | In every run, a text that writes an infix expression with a divisor of value zero anywhere is not Completed, and is Failed at rest. |
| `EndToEnd.VerdictsAgree` | internal/calculator/service/agent.go:64-78 | Any two runs that decide the same text decide it alike. |

## Left out

- The statement without rows that `CreateExpression` sends for an empty plan is taken to be an error of the database; the query builder is not part of this model. `PlanMeaning.EmptyPlanExactly` shows that only a text that is one number leads to it.
- The transaction that stays open after that error: `err` at `internal/calculator/repository/expressions.go:86` is a new variable, so that the deferred rollback does not see it. The same happens at lines 239-241, where a missing task is reported while `err` is nil. What an open transaction blocks is not modelled.
- Cancelling a worker in the middle of a turn; its claim is then one that is never submitted, which the runs of `Machine` include.
- The order in which the child query returns rows: the model takes any row of it, and `Lineage.ChildQueryIsExact` shows that there is only one.
- SQL text, drivers, failed transactions and rollback: every repository method is one atomic step.
- gRPC, the HTTP gateway, protobuf messages, configuration, logging and signals.
- Users, passwords and tokens; the `user_id` of an expression.
- IEEE 754 rounding and `strconv.ParseFloat`: the operations and the literal parser have no definition.
- The columns `error`, `updated_at`, `operation_time` and `expire_at`; `created_at` is an integer that orders claims.
- A fetch whose answer is lost on the way: the claim is then one that no worker holds, and the repeated fetch makes another. In a script it is a `Fetch` among the events of others.
- Waiting, backoff and jitter: any step may be delayed for as long as one likes.
- Recovery of lost claims: the code has none, so results about rest and progress speak of runs in which every claim is submitted.
- Listing and lookup queries, the names of the status values, and `Stack.Peek`, which only `SafePeek` uses.
- Unary signs: the code does not support them; a text with one is rejected or gets the verdict of the formula Parse finds.
