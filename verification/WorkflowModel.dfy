/**
 * The workflow engine as a state machine on values: the stored rows, the audit
 * log, and what each service call does to them. The class in WorkflowService
 * performs these steps in place.
 */
module WorkflowModel {
  import opened Prelude
  import opened Agents

  type Payload = map<string, string>

  datatype WorkflowStatus =
    Pending | Running | AwaitingApproval | Approved | Rejected | Escalated | Completed | Failed | Cancelled

  datatype AgentRunStatus = Started | Succeeded | Failed

  datatype ApprovalKind = Approval | Rejection | Escalation | ManualReview

  datatype ApprovalDecision = Pending | Approved | Rejected | Escalated

  datatype RunRow = RunRow(
    agentName: string,
    status: AgentRunStatus,
    input: Payload,
    output: Option<Output>,
    error: Option<string>)

  datatype ApprovalRow = ApprovalRow(
    kind: ApprovalKind,
    decision: ApprovalDecision,
    requiredPermission: string,
    summary: Option<string>,
    decidedBy: Option<Uuid>,
    decisionReason: Option<string>)

  datatype WorkflowRow = WorkflowRow(
    workflowType: WorkflowType,
    status: WorkflowStatus,
    inputPayload: Payload,
    requiresHumanApproval: bool,
    createdBy: Option<Uuid>,
    createdAt: nat,
    result: Option<map<string, Output>>,
    error: Option<string>,
    agentRuns: seq<RunRow>,
    approvals: seq<ApprovalRow>)

  datatype AuditContext =
    | FailedAgent(agent: string)
    | RequiresApproval(required: bool)
    | Reason(reason: string)

  datatype AuditEntry = AuditEntry(
    action: string,
    resourceType: string,
    resourceId: Uuid,
    actorId: Option<Uuid>,
    requestId: Option<string>,
    context: AuditContext)

  datatype Store = Store(workflows: map<Uuid, WorkflowRow>, log: seq<AuditEntry>)

  datatype WorkflowError =
    | DuplicateId(id: Uuid)
    | NotFound(id: Uuid)
    | InvalidState(id: Uuid, current: WorkflowStatus)

  // ----- Running a plan -----

  /** Where the step loop stands: the rows written, the outputs kept, and the agent that failed, if any. */
  datatype Progress = Progress(
    runs: seq<RunRow>,
    results: map<string, Output>,
    flagged: bool,
    failure: Option<AgentOutcome>)

  function FinishedRun(outcome: AgentOutcome, agent: string, input: Payload): RunRow {
    RunRow(
      agent,
      if outcome.status == "succeeded" then AgentRunStatus.Succeeded else AgentRunStatus.Failed,
      input, outcome.output, outcome.error)
  }

  function Advance(p: Progress, step: PlanStep, input: Payload, result: StepResult): Progress {
    var outcome := StepOutcome(step.agent, result);
    Progress(
      p.runs + [FinishedRun(outcome, step.agent, input)],
      if outcome.output.Some? then p.results[step.agent := outcome.output.value] else p.results,
      p.flagged || (outcome.output.Some? && outcome.output.value.requiresHumanReview),
      if outcome.status == "failed" then Some(outcome) else None)
  }

  /** The loop after at most n steps; a failure stops it. */
  function RunSteps(steps: seq<PlanStep>, input: Payload, behaviour: nat -> StepResult, n: nat): Progress
    requires n <= |steps|
  {
    if n == 0 then
      Progress([], map[], false, None)
    else
      var before := RunSteps(steps, input, behaviour, n - 1);
      if before.failure.Some? then before else Advance(before, steps[n - 1], input, behaviour(n - 1))
  }

  // ----- Calls -----

  datatype Verdict = Approve | Reject | Escalate

  function Target(v: Verdict): WorkflowStatus {
    match v
    case Approve => WorkflowStatus.Approved
    case Reject => WorkflowStatus.Rejected
    case Escalate => WorkflowStatus.Escalated
  }

  function DecisionOf(v: Verdict): ApprovalDecision {
    match v
    case Approve => ApprovalDecision.Approved
    case Reject => ApprovalDecision.Rejected
    case Escalate => ApprovalDecision.Escalated
  }

  function KindOf(v: Verdict): ApprovalKind {
    match v
    case Approve => ApprovalKind.Approval
    case Reject => ApprovalKind.Rejection
    case Escalate => ApprovalKind.Escalation
  }

  function DecisionAction(v: Verdict): string {
    match v
    case Approve => "workflow.approved"
    case Reject => "workflow.rejected"
    case Escalate => "workflow.escalated"
  }

  datatype Call =
    | Start(
        id: Uuid,
        createdAt: nat,
        plan: WorkflowPlan,
        payload: Payload,
        idText: string,
        createdBy: Option<Uuid>,
        requestId: Option<string>,
        behaviour: nat -> StepResult)
    | Decide(
        id: Uuid,
        verdict: Verdict,
        decidedBy: Uuid,
        reason: Option<string>,
        requestId: Option<string>)

  predicate Decidable(status: WorkflowStatus) {
    status == WorkflowStatus.AwaitingApproval || status == WorkflowStatus.Escalated
  }

  /** Python's `value or default` on an optional string. */
  function OrElse(value: Option<string>, default: string): string {
    if value.Some? && value.value != "" then value.value else default
  }

  function StepPayload(c: Call): Payload
    requires c.Start?
  {
    c.payload["workflow_id" := c.idText]
  }

  function FinalProgress(c: Call): Progress
    requires c.Start?
  {
    RunSteps(c.plan.steps, StepPayload(c), c.behaviour, |c.plan.steps|)
  }

  function NeedsApproval(c: Call): bool
    requires c.Start?
  {
    c.plan.requiresHumanApproval || FinalProgress(c).flagged
  }

  function PendingApproval(plan: WorkflowPlan): ApprovalRow {
    ApprovalRow(
      ApprovalKind.Approval, ApprovalDecision.Pending, OrElse(plan.approvalPermission, "workflow:approve"),
      Some(plan.rationale), None, None)
  }

  /** The row `start` leaves behind. */
  function StartedRow(c: Call): WorkflowRow
    requires c.Start?
  {
    var p := FinalProgress(c);
    WorkflowRow(
      c.plan.workflowType,
      if p.failure.Some? then WorkflowStatus.Failed
      else if NeedsApproval(c) then WorkflowStatus.AwaitingApproval
      else WorkflowStatus.Completed,
      c.payload,
      c.plan.requiresHumanApproval,
      c.createdBy,
      c.createdAt,
      Some(p.results),
      if p.failure.Some? then p.failure.value.error else None,
      p.runs,
      if p.failure.None? && NeedsApproval(c) then [PendingApproval(c.plan)] else [])
  }

  function StartEntry(c: Call): AuditEntry
    requires c.Start?
  {
    var p := FinalProgress(c);
    if p.failure.Some? then
      AuditEntry("workflow.failed", "workflow", c.id, c.createdBy, c.requestId, FailedAgent(p.failure.value.agentName))
    else
      AuditEntry(
        if NeedsApproval(c) then "workflow.awaiting_approval" else "workflow.completed",
        "workflow", c.id, c.createdBy, c.requestId, RequiresApproval(NeedsApproval(c)))
  }

  /** The position of the first pending approval, or the length if there is none. */
  function FirstPending(approvals: seq<ApprovalRow>): (k: nat)
    ensures k <= |approvals|
    ensures k < |approvals| ==> approvals[k].decision == ApprovalDecision.Pending
    ensures forall i :: 0 <= i < k ==> approvals[i].decision != ApprovalDecision.Pending
  {
    if approvals == [] then 0
    else if approvals[0].decision == ApprovalDecision.Pending then 0
    else 1 + FirstPending(approvals[1..])
  }

  function Decided(a: ApprovalRow, v: Verdict, decidedBy: Uuid, reason: Option<string>): ApprovalRow {
    a.(decision := DecisionOf(v), kind := KindOf(v), decidedBy := Some(decidedBy), decisionReason := reason)
  }

  /** The decision goes to the first pending approval, or to a new one at the end. */
  function DecidedApprovals(approvals: seq<ApprovalRow>, c: Call): seq<ApprovalRow>
    requires c.Decide?
  {
    var k := FirstPending(approvals);
    var added := ApprovalRow(KindOf(c.verdict), ApprovalDecision.Pending, "workflow:approve", None, None, None);
    if k < |approvals|
    then approvals[k := Decided(approvals[k], c.verdict, c.decidedBy, c.reason)]
    else approvals + [Decided(added, c.verdict, c.decidedBy, c.reason)]
  }

  function DecidedRow(w: WorkflowRow, c: Call): WorkflowRow
    requires c.Decide?
  {
    w.(
      approvals := DecidedApprovals(w.approvals, c),
      status := if c.verdict == Approve then WorkflowStatus.Completed else Target(c.verdict))
  }

  function DecisionEntry(c: Call): AuditEntry
    requires c.Decide?
  {
    AuditEntry(DecisionAction(c.verdict), "workflow", c.id, Some(c.decidedBy), c.requestId, Reason(c.reason.GetOr("")))
  }

  /** Why a call is refused, if it is. */
  function Refusal(workflows: map<Uuid, WorkflowRow>, c: Call): Option<WorkflowError> {
    match c
    case Start(id, _, _, _, _, _, _, _) => if id in workflows then Some(DuplicateId(id)) else None
    case Decide(id, _, _, _, _) =>
      if id !in workflows then Some(NotFound(id))
      else if !Decidable(workflows[id].status) then Some(InvalidState(id, workflows[id].status))
      else None
  }

  function Effect(workflows: map<Uuid, WorkflowRow>, c: Call): (WorkflowRow, AuditEntry)
    requires Refusal(workflows, c).None?
  {
    if c.Start? then (StartedRow(c), StartEntry(c)) else (DecidedRow(workflows[c.id], c), DecisionEntry(c))
  }

  /** One service call; `audited` says whether an audit service is attached. */
  function Step(s: Store, audited: bool, c: Call): Store {
    if Refusal(s.workflows, c).Some? then
      s
    else
      var (row, entry) := Effect(s.workflows, c);
      Store(s.workflows[c.id := row], if audited then s.log + [entry] else s.log)
  }

  /** Any number of calls, on any workflows, in the order they are served. */
  function Run(s: Store, audited: bool, calls: seq<Call>): Store {
    if calls == [] then s
    else Step(Run(s, audited, calls[..|calls| - 1]), audited, calls[|calls| - 1])
  }

  const EMPTY := Store(map[], [])
}
