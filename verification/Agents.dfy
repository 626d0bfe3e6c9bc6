/**
 * The uniform agent contract and the orchestrator's plans. What an agent computes
 * is left open: a run may return any output or raise any error.
 */
module Agents {
  import opened Prelude

  /** An agent's output: its JSON form and whether it asks for a human review. */
  datatype Output = Output(body: string, requiresHumanReview: bool)

  /** How an agent's `run` ended. */
  datatype RunResult =
    | Returned(output: Output)
    | RaisedAgentError(message: string)
    | RaisedOther(typeName: string, message: string)

  datatype AgentOutcome = AgentOutcome(
    agentName: string,
    status: string,
    output: Option<Output>,
    error: Option<string>)

  /** `BaseAgent.execute`: an outcome has an output exactly if it succeeded, an error exactly if it failed. */
  function Execute(name: string, result: RunResult): (outcome: AgentOutcome)
    ensures outcome.status in {"succeeded", "failed"}
    ensures outcome.output.Some? <==> outcome.status == "succeeded"
    ensures outcome.error.Some? <==> outcome.status == "failed"
    ensures outcome.status == "succeeded" <==> result.Returned?
    ensures outcome.agentName == name
    ensures result.Returned? ==> outcome.output == Some(result.output)
    ensures result.RaisedAgentError? ==> outcome.error == Some(result.message)
    ensures result.RaisedOther? ==> outcome.error == Some(result.typeName + ": " + result.message)
  {
    match result
    case Returned(output) => AgentOutcome(name, "succeeded", Some(output), None)
    case RaisedAgentError(message) => AgentOutcome(name, "failed", None, Some(message))
    case RaisedOther(typeName, message) => AgentOutcome(name, "failed", None, Some(typeName + ": " + message))
  }

  /** One call of the executor: it reaches the agent, or raises before it does. */
  datatype StepResult =
    | Executed(result: RunResult)
    | Escaped(typeName: string, message: string)

  /** What the step loop sees: an exception that escapes the executor counts as a failed agent. */
  function StepOutcome(agent: string, step: StepResult): (outcome: AgentOutcome)
    ensures outcome.output.Some? <==> outcome.status == "succeeded"
    ensures outcome.output.None? <==> outcome.status == "failed"
    ensures outcome.status == "succeeded" <==> step.Executed? && step.result.Returned?
  {
    match step
    case Executed(result) => Execute(agent, result)
    case Escaped(typeName, message) => AgentOutcome(agent, "failed", None, Some(typeName + ": " + message))
  }

  // ----- Plans -----

  datatype WorkflowType = DocumentIntelligence | Kyc | FraudReview | Compliance | AuditEvidence | Loan

  datatype PlanStep = PlanStep(agent: string, description: string)

  datatype WorkflowPlan = WorkflowPlan(
    workflowType: WorkflowType,
    steps: seq<PlanStep>,
    requiresHumanApproval: bool,
    approvalPermission: Option<string>,
    rationale: string)

  datatype PlanSpec = PlanSpec(
    steps: seq<(string, string)>,
    requiresHumanApproval: bool,
    approvalPermission: Option<string>)

  /** What the plan says of its k-th step. */
  function Description(t: WorkflowType, k: nat): string {
    match t
    case DocumentIntelligence => if k == 0 then "Extract and validate document fields." else "Summarize the document for a reviewer."
    case Kyc => if k == 0 then "Extract identity document fields." else "Run completeness, consistency and risk checks."
    case FraudReview => "Score transaction risk with explainable signals."
    case Compliance => if k == 0 then "Retrieve relevant policy excerpts." else "Compose a grounded, cited answer."
    case AuditEvidence => "Assemble an immutable evidence bundle."
    case Loan => if k == 0 then "Validate submitted loan documents." else "Compute affordability and a recommendation."
  }

  function SpecSteps(t: WorkflowType): seq<(string, string)> {
    match t
    case DocumentIntelligence => [("document_agent", Description(t, 0)), ("summarization_agent", Description(t, 1))]
    case Kyc => [("document_agent", Description(t, 0)), ("kyc_agent", Description(t, 1))]
    case FraudReview => [("fraud_agent", Description(t, 0))]
    case Compliance => [("retrieval_agent", Description(t, 0)), ("compliance_agent", Description(t, 1))]
    case AuditEvidence => [("audit_agent", Description(t, 0))]
    case Loan => [("document_agent", Description(t, 0)), ("loan_agent", Description(t, 1))]
  }

  function PlanSpecFor(t: WorkflowType): PlanSpec {
    match t
    case DocumentIntelligence => PlanSpec(SpecSteps(t), false, None)
    case Kyc => PlanSpec(SpecSteps(t), true, Some("kyc:review"))
    case FraudReview => PlanSpec(SpecSteps(t), true, Some("fraud:review"))
    case Compliance => PlanSpec(SpecSteps(t), false, None)
    case AuditEvidence => PlanSpec(SpecSteps(t), false, None)
    case Loan => PlanSpec(SpecSteps(t), true, Some("loan:process"))
  }

  function PlanSteps(pairs: seq<(string, string)>): (steps: seq<PlanStep>)
    ensures |steps| == |pairs| && forall i | 0 <= i < |pairs| :: steps[i] == PlanStep(pairs[i].0, pairs[i].1)
  {
    seq(|pairs|, i requires 0 <= i < |pairs| => PlanStep(pairs[i].0, pairs[i].1))
  }

  function Rationale(requiresHumanApproval: bool): string {
    if requiresHumanApproval
    then "High-risk workflow: routed through a human approval gate."
    else "Low-risk workflow: fully automated with full audit logging."
  }

  /** `OrchestratorAgent.run`. */
  function PlanFor(t: WorkflowType): WorkflowPlan {
    var spec := PlanSpecFor(t);
    WorkflowPlan(t, PlanSteps(spec.steps), spec.requiresHumanApproval, spec.approvalPermission,
                 Rationale(spec.requiresHumanApproval))
  }
}
