# Banking AI platform: a verified model

This project models the decision-making core of the platform in Dafny and proves
properties of it over every input and every run.

* **Workflow engine** (`Agents`, `WorkflowModel`, `PlanExecution`, `WorkflowHistory`,
  `WorkflowService`, `ReviewQueue`). Workflows run a plan of agents, then fail, complete or
  wait for a human; humans approve, reject or escalate. `WorkflowModel` is the state machine on
  values (rows and audit log), with agents and plans left arbitrary; `WorkflowHistory` proves what
  holds after any interleaving of calls; `WorkflowService` is the service on row objects updated in
  place, proved to take exactly those steps.
* **Loan agent** (`Annuity`, `LoanAgent`, `Rounding`). The level payment over exact reals, its
  amortisation, and the affordability decision.
* **Ingestion and retrieval** (`Text`, `Chunking`, `VectorMath`, `Embedding`, `VectorStore`,
  `Retrieval`, `Ingestion`). Chunking, the hashing embedder, the vector index, and the retrieval and
  compliance agents, joined into what can be found after any ingests.
* **Model router** (`Cost`, `Routing`, `Telemetry`, `Router`). The fallback chain, its telemetry and
  the cost ledger.
* **Catalogue seeding** (`Seeding`). The permission and role upsert.

`dafny verify dfyconfig.toml` checks the whole project.

## Where the code falls short of a law

Each is kept as the code has it, with the exact condition proved.

* Paging the review queue orders by creation time alone. It lists the queue exactly iff no two
  waiting workflows share a creation time (`ReviewQueue.PagingIsExactIff`).
* `chunk_text` accepts any size and overlap. It keeps every word iff windows are non-empty and leave
  no gaps (`Chunking.LosslessIff`); the defaults, 120 and 20, meet the condition.
* A stored chunk should be the best answer to its own words, at score 1. It is iff the signed counts
  of its tokens do not cancel (`Retrieval.SelfQueryWins`, `Ingestion.StoredChunksAreFound`). A chunk
  without a letter or digit always fails: `---` scores 0 (`Retrieval.DashesAreNotFound`).
* The cost table leaves out estimates that are not positive. It totals the estimates iff no served
  completion is priced below zero (`Telemetry.LedgerReconcilesIff`). The token counts of a reply are
  not checked, so one can be (`Telemetry.NegativeCountBreaksLedger`).

## Model

| member | source | states |
|---|---|---|
| `Agents.Execute` | apps/backend/banking_ai/agents/base.py:63-100 | an outcome names its agent, has the returned output iff `run` returned, and otherwise the error: an agent error's own message, or any other exception's type and message |
| `Agents.StepOutcome` | apps/backend/banking_ai/services/workflow_service.py:103-111 | an exception that escapes the executor is a failed outcome like any other; a step succeeds iff its agent ran and returned |
| `PlanExecution.RunsFollowPlan` | apps/backend/banking_ai/services/workflow_service.py:93-122 | for any plan and any agent behaviour the run rows are a prefix of the plan in order, each finished with what its agent did and why it failed, all but the last succeeded, and the loop stopped early exactly at the first agent that failed |
| `PlanExecution.FlagComesFromARun` | apps/backend/banking_ai/services/workflow_service.py:124-127 | the review flag is raised iff some recorded output asks for review |
| `PlanExecution.ResultsAreSuccesses` | apps/backend/banking_ai/services/workflow_service.py:124-125 | the result has a key for exactly the agents that succeeded, each holding that agent's latest output |
| `PlanExecution.DistinctAgentsKeepTheirOutput` | apps/backend/banking_ai/services/workflow_service.py:124-125 | with distinct agents in the plan each result key holds that step's own output |
| `PlanExecution.StartDecidesStatus` | apps/backend/banking_ai/services/workflow_service.py:128-159 | FAILED iff some planned agent fails, iff a run row is FAILED; COMPLETED at once iff all agents succeed, the plan is ungated and no output asks for review; else AWAITING_APPROVAL; the error is the failing run's |
| `PlanExecution.StartStoresWhatRan` | apps/backend/banking_ai/services/workflow_service.py:79-142 | the row `start` leaves holds the caller's input, the runs along the plan on that input with the workflow id added, and as its result the outputs of exactly the agents that succeeded |
| `WorkflowHistory.RowsTellTheirStart` | apps/backend/banking_ai/services/workflow_service.py:79-155 | after any run every stored row, however often decided on, still holds what its accepted `start` call gave and did: input, creator, runs, error, the result map of the succeeded agents, and the plan's permission and reason on its first approval |
| `WorkflowHistory.PlansHaveDistinctAgents` | apps/backend/banking_ai/agents/orchestrator.py:48-91 | every built-in plan has steps, with pairwise distinct agents |
| `WorkflowHistory.PlanTable` | apps/backend/banking_ai/agents/orchestrator.py:48-91 | the agents of each built-in plan in order; exactly KYC, fraud review and loan are gated, each asking for its own permission |
| `WorkflowHistory.StartedRowInvariant` | apps/backend/banking_ai/services/workflow_service.py:79-175 | the row `start` leaves satisfies the invariant tying status, approvals and runs together |
| `WorkflowHistory.DecidedRowInvariant` | apps/backend/banking_ai/services/workflow_service.py:276-296 | a decision keeps that invariant and lands on the last approval with its verdict, decider and reason |
| `WorkflowHistory.FirstPendingIsLast` | apps/backend/banking_ai/services/workflow_service.py:277-280 | in reachable rows the approval picked by the search for a pending one is the last in creation order |
| `WorkflowHistory.PendingSearchIgnoresOrder` | apps/backend/banking_ai/services/workflow_service.py:277-280 | in whatever order the approvals are listed, the search finds a pending one iff the row has one, and finds the same one |
| `WorkflowHistory.RunKeepsInvariant` | apps/backend/banking_ai/services/workflow_service.py:48-312 | the invariant holds of every workflow after any sequence of calls on any workflows |
| `WorkflowHistory.HumanApprovalSafety` | apps/backend/banking_ai/services/workflow_service.py:142-159 | after any run, a workflow whose plan is gated or whose agents asked for review is COMPLETED only with a last approval APPROVED by the person whose `approve` call is in the run and was accepted there; a workflow that needs no human has no approvals |
| `WorkflowHistory.HighRiskNeedsApproval` | apps/backend/banking_ai/agents/orchestrator.py:57-90 | with the built-in plans, no KYC, fraud-review or loan workflow is COMPLETED without an accepted approving call |
| `WorkflowHistory.ApprovalsAskForThePlansPermission` | apps/backend/banking_ai/services/workflow_service.py:147-155 | the first approval records the plan's permission (or the general one) and rationale; approvals added by later decisions record the general permission and no summary |
| `WorkflowHistory.PendingIffAwaiting` | apps/backend/banking_ai/services/workflow_service.py:142-159 | an approval is pending iff the status is AWAITING_APPROVAL, at most one is, all before the last are ESCALATED, and PENDING, RUNNING, APPROVED and CANCELLED are never left stored |
| `WorkflowHistory.FinalIsForever` | apps/backend/banking_ai/services/workflow_service.py:268-274 | once COMPLETED, REJECTED or FAILED, a workflow's row and audit entries never change, whatever is called |
| `WorkflowHistory.FinalOrDecidable` | apps/backend/banking_ai/services/workflow_service.py:48 | every reachable status is either final or one a human can decide |
| `WorkflowHistory.RefusedIff` | apps/backend/banking_ai/services/workflow_service.py:268-274 | in any reachable state a decision on an unknown workflow is a not-found error, on a final one a state error naming its status, and on any other is accepted |
| `WorkflowHistory.RecordsArePermanent` | apps/backend/banking_ai/services/workflow_service.py:288-296 | no later call alters a run, result, input, flag or decision already recorded |
| `WorkflowHistory.AuditReplay` | apps/backend/banking_ai/services/workflow_service.py:161-168 | with an audit service, each workflow's entries form `failed`, `completed` or `awaiting_approval escalated* (approved or rejected)?`; the first names the starter and the failed agent or whether a human is needed; the last gives the stored status; the approvals match the logged decisions one for one: verdict, decider, reason |
| `WorkflowHistory.LogIsAcceptedCalls` | apps/backend/banking_ai/services/workflow_service.py:329-347 | the log holds exactly one entry per accepted call of the run, in order, with that call's workflow, actor, request id and verdict |
| `WorkflowHistory.LogOnlyGrows` | apps/backend/banking_ai/services/audit_service.py:44-75 | what was logged by a point of a run is a prefix of what is logged at any later point |
| `WorkflowHistory.StepIsLocal` | apps/backend/banking_ai/services/workflow_service.py:257-312 | a call changes neither row nor log of another workflow, and a refused call changes nothing at all |
| `WorkflowHistory.InterleavingIsIndependent` | apps/backend/banking_ai/services/workflow_service.py:257-312 | however calls interleave, a workflow and its log end as if only the calls addressed to it had been made |
| `WorkflowHistory.AuditingDoesNotInterfere` | apps/backend/banking_ai/services/workflow_service.py:329-347 | with or without an audit service the stored rows are the same, and without one nothing is logged |
| `WorkflowService.AuditService.Record` | apps/backend/banking_ai/services/audit_service.py:44-75 | appends exactly one entry with the given fields |
| `WorkflowService.Workflow.ExecuteSteps` | apps/backend/banking_ai/services/workflow_service.py:89-140 | the in-place step loop leaves the runs, results, flag and failure of the specified plan execution |
| `WorkflowService.Workflow.RecordDecision` | apps/backend/banking_ai/services/workflow_service.py:276-296 | the in-place decision turns the row into the specified one and no other row object is written |
| `WorkflowService.WorkflowService.Start` | apps/backend/banking_ai/services/workflow_service.py:65-175 | `start` on row objects takes rows and log exactly one specified step further; a duplicate id is an error that changes nothing |
| `WorkflowService.WorkflowService.Decide` | apps/backend/banking_ai/services/workflow_service.py:257-312 | `_decide` on row objects takes rows and log exactly one specified step further, or returns the refusal with nothing changed |
| `ReviewQueue.PageSizes` | apps/backend/banking_ai/schemas/common.py:43-48 | every page but the last is full, the last is not empty, later pages are |
| `ReviewQueue.TotalPagesIsCeiling` | apps/backend/banking_ai/schemas/common.py:45 | the page count is the ceiling of total over page size |
| `ReviewQueue.TotalCountsWaiting` | apps/backend/banking_ai/services/workflow_service.py:237-253 | the total beside a page is the number of waiting workflows, and the rows are at most `limit` of the order from `offset` on, fewer only at its end |
| `ReviewQueue.QueueIsDecidable` | apps/backend/banking_ai/services/workflow_service.py:237-270 | the queue lists exactly the workflows a decision is accepted on |
| `ReviewQueue.PagesPartitionQueue` | apps/backend/banking_ai/services/workflow_service.py:237-253 | with distinct creation times, all pages in turn give the decidable workflows oldest first, each once, even if each page is its own query |
| `ReviewQueue.PagingIsExactIff` | apps/backend/banking_ai/services/workflow_service.py:247 | over every page size and every way the database may break ties, paging lists the queue exactly iff no two waiting workflows share a creation time |
| `ReviewQueue.TieBreaksPaging` | apps/backend/banking_ai/services/workflow_service.py:247 | of any two waiting workflows with one creation time, some reading of the pages shows one twice and never shows the other |
| `LoanAgent.PaymentMeetsPrincipal` | apps/backend/banking_ai/agents/loan.py:81-86 | in both branches the payment times the present value of the term's unit payments is the principal |
| `LoanAgent.PaymentIsGeometric` | apps/backend/banking_ai/agents/loan.py:81-86 | both branches are principal * q^n / (1 + q + ... + q^(n-1)), with a positive divisor |
| `LoanAgent.AmortisationCloses` | apps/backend/banking_ai/agents/loan.py:81-86 | iterating interest and payment from the principal reaches exactly 0 after the term, positive and strictly falling before |
| `LoanAgent.OnlyThisPaymentCloses` | apps/backend/banking_ai/agents/loan.py:81-86 | a level payment ends at balance 0 iff it is the formula's, and leaves a debt iff it is smaller |
| `LoanAgent.PaymentsSplitIntoInterestAndPrincipal` | apps/backend/banking_ai/agents/loan.py:81-86 | at any payment and month, principal plus interest charged equals what was paid plus what is owed |
| `LoanAgent.InstalmentsCoverLoan` | apps/backend/banking_ai/agents/loan.py:81-86 | over the term the instalments add up to the principal plus all interest charged |
| `LoanAgent.PaymentRisesWithRate` | apps/backend/banking_ai/agents/loan.py:81-86 | the payment is strictly increasing in the rate, across the zero-rate branch too |
| `LoanAgent.PaymentFallsWithTerm` | apps/backend/banking_ai/agents/loan.py:81-86 | the payment is strictly decreasing in the term |
| `LoanAgent.PaymentIsLinearInPrincipal` | apps/backend/banking_ai/agents/loan.py:81-86 | the payment is linear in the principal |
| `LoanAgent.PaymentBounds` | apps/backend/banking_ai/agents/loan.py:81-86 | the payment lies between principal / n and principal * (1 + rate / 12) |
| `LoanAgent.RiskIsMonotone` | apps/backend/banking_ai/agents/loan.py:44-68 | a larger loan, rate, debt or expense, a smaller income or a shorter term, alone or together, never lowers the risk level |
| `LoanAgent.BorrowingLimits` | apps/backend/banking_ai/agents/loan.py:60-68 | LOW and HIGH are exactly comparisons of the loan with the present value of the applicant's spare debt capacity; CRITICAL never occurs |
| `LoanAgent.ReportedRatioShowsRefusal` | apps/backend/banking_ai/agents/loan.py:60-74 | a debt ratio at or over the limit is HIGH and is reported at or over the limit after rounding |
| `LoanAgent.ReportedFiguresAreClose` | apps/backend/banking_ai/agents/loan.py:49-74 | the reported payment and what it leaves of the income are within half a cent, the reported share of income going to debt within half a ten-thousandth |
| `LoanAgent.AdviceMatchesRisk` | apps/backend/banking_ai/agents/loan.py:60-77 | every assessment asks for human review, and its advice is the one for its risk level |
| `LoanAgent.ReportedPaymentNearlyCloses` | apps/backend/banking_ai/agents/loan.py:70-86 | paying the reported, rounded instalment over the term ends within half a cent an instalment, compounded, of zero; in debt iff it was rounded down, at zero iff it was not rounded at all |
| `Rounding.RoundMonotone` | apps/backend/banking_ai/agents/loan.py:71-73 | rounding to any number of digits keeps order |
| `Rounding.RoundIsNearestEven` | apps/backend/banking_ai/agents/loan.py:71-73 | a rounded figure is a whole number of units of its last digit: the nearest, ties to even |
| `Text.SplitAfterJoin` | apps/backend/banking_ai/services/document_service.py:35-43 | splitting words joined by single spaces gives the words back |
| `Text.SplitAtSpace` | apps/backend/banking_ai/services/document_service.py:35 | text around any whitespace character splits into the words before it, then the words after it |
| `Text.SplitIsTheOnly` | apps/backend/banking_ai/services/document_service.py:35 | `Split` is the only function that splits so and keeps text without whitespace whole |
| `Text.JoinPutsOneSpace` | apps/backend/banking_ai/services/document_service.py:43 | joining puts one space between words and adds nothing else |
| `Chunking.ChunkText` | apps/backend/banking_ai/services/document_service.py:33-46 | the loop with its early break returns the joined windows, for every size and overlap |
| `Chunking.ChunksReadPositions` | apps/backend/banking_ai/services/document_service.py:35-43 | the chunk strings of a text, split, are its words at the windows of word positions the loop cuts out |
| `Chunking.LosslessIff` | apps/backend/banking_ai/services/document_service.py:38-45 | for all integer sizes and overlaps, every word position of a text of n words is in one of its chunks iff n = 0, or size >= 1 and (overlap >= 0 or n <= size) |
| `Chunking.WindowsRebuildWords` | apps/backend/banking_ai/services/document_service.py:38-45 | the first window and the later ones without the words they share rebuild the word list; every later window adds at least one word |
| `Chunking.ChunksSplitToWindows` | apps/backend/banking_ai/services/document_service.py:35-43 | splitting each chunk string gives back the window it was joined from |
| `Chunking.ChunksRebuildText` | apps/backend/banking_ai/services/document_service.py:33-46 | the text's word sequence is rebuilt from the chunk strings alone |
| `Chunking.ChunkCount` | apps/backend/banking_ai/services/document_service.py:40-45 | 0 chunks for no words, 1 if the words fit a window, else ceil((n - size) / step) + 1 |
| `Chunking.WindowOfSizeBelowOne` | apps/backend/banking_ai/services/document_service.py:41 | with a size below one a window stops short of the text's end by the negative bound, or is empty |
| `Chunking.LocalityIff` | apps/backend/banking_ai/services/document_service.py:38-45 | for all integer sizes and overlaps, every run of a given length lies inside one chunk iff the text fits a window or the length is at most min(size, overlap + 1) |
| `VectorMath.CauchySchwarz` | apps/backend/banking_ai/ai/vector_store.py:68-70 | a dot product is at most the product of the two lengths, either way |
| `VectorMath.SimilarityOneIff` | apps/backend/banking_ai/ai/vector_store.py:68-70 | two normalised vectors have similarity 1 iff they are the same unit vector |
| `VectorMath.DistanceFromDot` | apps/backend/banking_ai/ai/vector_store.py:68-70 | a dot product is what the squared distance of two vectors lacks of their square sums, by half |
| `Embedding.TokensAroundSeparator` | apps/backend/banking_ai/ai/vector_store.py:31-53 | the tokens around any other character than a to z and 0 to 9 are those before it, then those after it |
| `Embedding.FindTokensIsTheOnly` | apps/backend/banking_ai/ai/vector_store.py:31-53 | no other tokeniser does so and keeps runs of a to z and 0 to 9 whole |
| `Embedding.BagCountsTokens` | apps/backend/banking_ai/ai/vector_store.py:52-57 | each component is the signed count of the tokens hashed to it |
| `Embedding.EmbeddingPointsAlongCounts` | apps/backend/banking_ai/ai/vector_store.py:51-65 | unless the tokens cancel, an embedding times the length of the signed counts is, in each component, the number of tokens hashed there with an odd digest less the number with an even one |
| `Embedding.SimilarityIsCosine` | apps/backend/banking_ai/ai/vector_store.py:51-70 | the score of two texts is the cosine of the angle between their signed token counts |
| `Embedding.EmbeddingIsUnit` | apps/backend/banking_ai/ai/vector_store.py:61-65 | an embedding has length 1, or is zero iff the signed counts vanish in every component |
| `Embedding.EmbeddingIgnoresOrder` | apps/backend/banking_ai/ai/vector_store.py:51-58 | an embedding depends only on the multiset of tokens |
| `Embedding.SimilarityIsBounded` | apps/backend/banking_ai/ai/vector_store.py:68-70 | the score of any two texts is between -1 and 1 |
| `Embedding.HashingEmbedder.Embed` | apps/backend/banking_ai/ai/vector_store.py:51-58 | the in-place loop computes the embedding; with no dimension it fails exactly on text with a token |
| `VectorStore.UpsertIsLastWriteWins` | apps/backend/banking_ai/ai/vector_store.py:103-105 | after an upsert each id holds its latest record, ids are distinct and stand in the order each first arrived, within a batch too, whatever was overwritten |
| `VectorStore.InMemoryVectorStore.Upsert` | apps/backend/banking_ai/ai/vector_store.py:103-105 | the dictionary loop leaves the specified contents |
| `VectorStore.InMemoryVectorStore.Query` | apps/backend/banking_ai/ai/vector_store.py:107-113 | the query returns the specified top-k list of the contents |
| `VectorStore.InMemoryVectorStore.Count` | apps/backend/banking_ai/ai/vector_store.py:115-116 | the count is the number of stored records |
| `VectorStore.QueryMeetsSpec` | apps/backend/banking_ai/ai/vector_store.py:107-113 | a list is the query result iff it is the best positions by score then first insertion, in that order: none for k <= 0, else k of them, or all if there are fewer |
| `VectorStore.QueryIsBestFirst` | apps/backend/banking_ai/ai/vector_store.py:107-113 | the result has 0, k or all records as k is not positive, at most the count, or more; scores never rise along it, every hit is stored with its true score, and no omitted record outscores a returned one |
| `VectorStore.FewerHitsArePrefix` | apps/backend/banking_ai/ai/vector_store.py:113 | a smaller k gives a prefix of a larger k |
| `Retrieval.RetrievedBestFirst` | apps/backend/banking_ai/agents/retrieval.py:37-50 | the hits show, one for one, the records that meet the query specification for the query's own embedding, with their ids, text and file name and a score within half a millionth; they are still best first, and as many as asked for or stored |
| `Retrieval.CitationsAreTheHits` | apps/backend/banking_ai/agents/compliance.py:63-118 | citation i has number i + 1 and hit i's document, chunk, file name and text, and there are no others; each is of a stored chunk; grounded iff the index is not empty; the agent fails iff there are hits and its router fails |
| `Retrieval.AnswerIsFromTheEvidence` | apps/backend/banking_ai/agents/compliance.py:76-118 | the answer is the fixed one without hits, the first 1500 characters of the numbered excerpts without a model, and else the model's text without the whitespace around it, naming provider and model; a failure is the router's |
| `Retrieval.SelfQueryWins` | apps/backend/banking_ai/ai/vector_store.py:107-113 | a query with a stored chunk's tokens in any order gets a first hit of score exactly 1 iff the signed token counts do not cancel, and then with that chunk's embedding; if they cancel, every hit scores 0 |
| `Retrieval.DashesAreNotFound` | apps/backend/banking_ai/ai/vector_store.py:51-70 | a stored chunk of dashes, queried with its own text, gets a first hit of score 0 |
| `Ingestion.DocumentService.Ingest` | apps/backend/banking_ai/services/document_service.py:63-133 | the in-place ingest writes document, chunk and embedding rows and the index exactly as specified |
| `Ingestion.IndexAgreesWithTables` | apps/backend/banking_ai/services/document_service.py:92-123 | after any ingests into an empty store, chunk rows, embedding rows and vector records are in bijection: one id, one text, one vector, which is the text's embedding; the index counts all chunks |
| `Ingestion.DocumentsCanBeRebuilt` | apps/backend/banking_ai/services/document_service.py:63-145 | each document row describes its upload; its chunk rows are numbered 0..m-1 in text order and rebuild the words of the text given, or of the decoded bytes of a textual type; m is 0, 1 or one more per 100 words after 120; PROCESSED iff there are words, else NEEDS_REVIEW |
| `Ingestion.StoredChunksAreFound` | apps/backend/banking_ai/services/document_service.py:103-123 | after any ingests, a query with a stored chunk's tokens has a first hit of score 1 iff those tokens do not cancel |
| `Cost.Lookup` | apps/backend/banking_ai/ai/cost.py:22-28 | the one-pass lookup returns the price of a longest matching prefix, or the default iff none matches |
| `Cost.PriceIsUnique` | apps/backend/banking_ai/ai/cost.py:22-28 | with distinct keys that price is unique, whatever order the table is read in |
| `Cost.SelfHostedIsFree` | apps/backend/banking_ai/ai/cost.py:15-28 | a zero price is kept: self-hosted and echo models cost 0 rather than the default |
| `Cost.EstimateFollowsPrice` | apps/backend/banking_ai/ai/cost.py:31-36 | for every price of the model and all token counts, the estimate is the nearest millionth to (prompt tokens * input price + completion tokens * output price) / 1000 |
| `Cost.PriceList` | apps/backend/banking_ai/ai/cost.py:11-28 | what each provider and model is charged, and the default for whatever the table does not name |
| `Cost.EstimateNonNegative` | apps/backend/banking_ai/ai/cost.py:31-36 | estimates are not negative for non-negative token counts |
| `Routing.ServedByLeastWorking` | apps/backend/banking_ai/ai/router.py:102-148 | a completion succeeds with one success record after exactly i failures iff i is the least index whose provider is available and completes, and then gives that provider's answer; it fails iff no provider works |
| `Routing.TraceTellsOutcome` | apps/backend/banking_ai/ai/router.py:131-142 | success iff the last record is one, exactly one record per attempt, fallback flags and the reason given are those of the record before, and failure lists one attempt per provider |
| `Routing.TraceTellsEveryAttempt` | apps/backend/banking_ai/ai/router.py:102-203 | record k tells of provider k: its name, model, why it failed and the request's version, run and estimated tokens; the last tells of the answer with its own provider, model, tokens and estimated cost; a failure's details name every provider in order |
| `Routing.PromptEstimate` | apps/backend/banking_ai/ai/types.py:37-40 | a failed attempt is put down at a quarter of the messages' characters, rounded down, but at one token at least |
| `Router.ModelRouter.Complete` | apps/backend/banking_ai/ai/router.py:92-148 | the loop returns the first working provider's marked result or the error listing every attempt, offers exactly the specified records in order, whatever the observer does, and calls exactly the available providers up to the one that serves; providers may behave differently each time |
| `Router.LedgerOfRouter` | apps/backend/banking_ai/ai/router.py:150-203 | over a router's whole life with one faultless database observer, the cost table totals the completions served iff none was priced below zero, and the call rows hold every attempt's record in order |
| `Router.CalledIff` | apps/backend/banking_ai/ai/router.py:102-142 | a provider is called iff it is available and no provider before it works |
| `Router.NoneAfterFirstWorking` | apps/backend/banking_ai/ai/router.py:119-142 | no provider behind one that works is ever called |
| `Router.CalledAtMostOnce` | apps/backend/banking_ai/ai/router.py:102-142 | providers are called in order, each available one at most once |
| `Telemetry.RouterObserver.Record` | apps/backend/banking_ai/services/observer.py:28-60 | a fault loses that record only; the database sink never raises, the in-memory sink raises exactly on a fault |
| `Telemetry.CostRowsPointToCalls` | apps/backend/banking_ai/services/observer.py:31-57 | the call rows hold the records field by field, in order; every priced success has its cost row, of its amount, and each cost row names a distinct successful call with the same provider, model and tokens |
| `Telemetry.SurvivorsAreTheFaultless` | apps/backend/banking_ai/services/observer.py:28-60 | exactly the records offered without a fault get through, in order |
| `Telemetry.LedgerTotalIff` | apps/backend/banking_ai/services/observer.py:48-57 | the cost table adds up to the estimates of the persisted records iff no estimate is negative, and never to less |
| `Telemetry.LedgerReconcilesIff` | apps/backend/banking_ai/services/observer.py:48-57 | over any run of completions the cost table totals their estimates iff no served completion is priced below zero |
| `Telemetry.NegativeCountBreaksLedger` | apps/backend/banking_ai/ai/providers/openai_compatible.py:133 | a reply that claims -1000 prompt tokens is served, and leaves the cost table above the estimates |
| `Telemetry.LedgerReconciles` | apps/backend/banking_ai/ai/router.py:150-203 | over any run of completions without faults and with non-negative token counts, the cost table totals the estimated price of the completions served, with one call row per attempt, holding its record |
| `Telemetry.LedgerReconcilesForSurvivors` | apps/backend/banking_ai/services/observer.py:28-60 | with faults, the cost table totals the estimates of the records that got through |
| `Seeding.Catalogue.SeedRbac` | apps/backend/banking_ai/services/seed.py:27-67 | from any valid catalogue every declared permission and role is present once, each declared role holds its old and declared links without doubles, nothing is removed, and a settled catalogue is left as it is |
| `Seeding.SeededIsSettled` | apps/backend/banking_ai/services/seed.py:27-67 | a seeded catalogue lacks nothing declared |
| `Seeding.SeedingIsIdempotent` | apps/backend/banking_ai/services/seed.py:1-67 | from any catalogue, a second seeding changes nothing |

## Left out

- WorkflowService.WorkflowService.Start: timing, model and prompt-version fields of run rows, and JSON conversion of payload values, are not modelled; row ids are a parameter and a duplicate is an error.
- WorkflowService.WorkflowService.Decide: whether the decider holds the approval's required permission is not modelled, because the service records that permission and does not check it.
- WorkflowService.AuditService.Record: the outcome, the actor's e-mail and other resource types are not modelled, because the workflow service leaves them at their defaults and logs only workflows; nor is redaction of sensitive context keys, since it logs none.
- Database sessions: calls are served one after another and every completed call is committed; rollback, concurrent sessions and the identity map are not part of this model.
- Float arithmetic: money, scores and costs are exact reals; `round` is half-to-even at the given number of digits.
- LoanAgent.Run: the formatted rationale strings are not part of this model.
- Embedding.HashingEmbedder.Embed: lower-casing, SHA-256 and the square root are parameters; the square root is taken to be exact.
- VectorStore.InMemoryVectorStore.Query: the library sort is a specification function, not a loop.
- Ingestion.DocumentService.Ingest: file storage, the content hash and document metadata are left out, row ids come from a counter that never repeats, UTF-8 decoding is a parameter, and the embedder has at least one dimension.
- Router.ModelRouter.Complete: providers raise nothing but `LLMProviderError`, as their contract demands; network, retries and logging are not part of this model.
- Telemetry.RouterObserver.Record: a failed session loses a record whole; a partial commit is not part of this model.
- Seeding.Catalogue.SeedRbac: the declared permissions and roles are a parameter, and the admin user is not part of this model.
- Fraud, KYC, document, summarization, notification and audit agents: their branch tables appear only as arbitrary agent behaviour.
- HTTP routes, authentication, migrations, the frontend, the Temporal worker and deployment: plumbing without decisions of its own.
