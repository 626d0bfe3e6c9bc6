/**
 * What holds of every workflow after any sequence of calls on any workflows:
 * human-approval safety, agreement of the stored rows with the audit log, and
 * independence of one workflow from the calls made on the others.
 */
module WorkflowHistory {
  import opened Prelude
  import opened Agents
  import opened WorkflowModel
  import opened PlanExecution

  // ----- Human-approval safety -----

  /** The workflow needs a human: its plan is gated, or one of its agents asked for review. */
  predicate Gated(w: WorkflowRow) {
    w.requiresHumanApproval || exists i | 0 <= i < |w.agentRuns| :: Flagged(w.agentRuns[i])
  }

  predicate IsPending(a: ApprovalRow) {
    a.decision == ApprovalDecision.Pending && a.kind == ApprovalKind.Approval && a.decidedBy.None? && a.decisionReason.None?
  }

  /** The approval records this verdict, and who gave it. */
  predicate DecidedAs(a: ApprovalRow, v: Verdict) {
    && a.decidedBy.Some?
    && match v
       case Approve => a.decision == ApprovalDecision.Approved && a.kind == ApprovalKind.Approval
       case Reject => a.decision == ApprovalDecision.Rejected && a.kind == ApprovalKind.Rejection
       case Escalate => a.decision == ApprovalDecision.Escalated && a.kind == ApprovalKind.Escalation
  }

  function Last<T>(s: seq<T>): T
    requires |s| > 0
  {
    s[|s| - 1]
  }

  /** What the approvals must look like in each status a call can leave stored. */
  predicate ApprovalsFitStatus(w: WorkflowRow) {
    && (forall i | 0 <= i < |w.approvals| - 1 :: DecidedAs(w.approvals[i], Escalate))
    && match w.status
       case Failed => w.approvals == []
       case AwaitingApproval => |w.approvals| == 1 && IsPending(w.approvals[0])
       case Escalated => |w.approvals| > 0 && DecidedAs(Last(w.approvals), Escalate)
       case Rejected => |w.approvals| > 0 && DecidedAs(Last(w.approvals), Reject)
       case Completed => (w.approvals == [] <==> !Gated(w)) && (|w.approvals| > 0 ==> DecidedAs(Last(w.approvals), Approve))
       case _ => false
  }

  /** The runs agree with the status: all finished, only the last may have failed, and then the workflow did. */
  predicate RunsFitStatus(w: WorkflowRow) {
    && (forall i | 0 <= i < |w.agentRuns| :: w.agentRuns[i].status != AgentRunStatus.Started)
    && (forall i | 0 <= i < |w.agentRuns| - 1 :: w.agentRuns[i].status == AgentRunStatus.Succeeded)
    && (w.status == WorkflowStatus.Failed <==> |w.agentRuns| > 0 && Last(w.agentRuns).status == AgentRunStatus.Failed)
  }

  predicate RowInvariant(w: WorkflowRow) {
    && ApprovalsFitStatus(w)
    && RunsFitStatus(w)
    && (w.status != WorkflowStatus.Failed && |w.approvals| > 0 ==> Gated(w))
  }

  lemma StartedRowInvariant(c: Call)
    requires c.Start?
    ensures RowInvariant(StartedRow(c))
  {
    hide RunSteps;
    var p, w := FinalProgress(c), StartedRow(c);
    RunsFollowPlan(c.plan.steps, StepPayload(c), c.behaviour, |c.plan.steps|);
    FlagComesFromARun(c.plan.steps, StepPayload(c), c.behaviour, |c.plan.steps|);
    assert forall i | 0 <= i < |p.runs| :: RowOfStep(p.runs[i], c.plan.steps[i], StepPayload(c), c.behaviour, i);
  }

  /** With at most the last approval pending, the decision always lands on the last approval. */
  lemma {:induction false} FirstPendingIsLast(approvals: seq<ApprovalRow>)
    requires forall i | 0 <= i < |approvals| - 1 :: DecidedAs(approvals[i], Escalate)
    ensures FirstPending(approvals) ==
      if |approvals| > 0 && Last(approvals).decision == ApprovalDecision.Pending then |approvals| - 1 else |approvals|
  {
  }

  /** So the search finds the same approval in whatever order the database lists them. */
  lemma PendingSearchIgnoresOrder(w: WorkflowRow, listed: seq<ApprovalRow>)
    requires RowInvariant(w) && multiset(listed) == multiset(w.approvals)
    ensures FirstPending(listed) < |listed| <==> FirstPending(w.approvals) < |w.approvals|
    ensures FirstPending(listed) < |listed| ==> listed[FirstPending(listed)] == Last(w.approvals)
  {
    hide RowInvariant, FirstPending;
    OnlyLastIsPending(w);
    var k, m := FirstPending(listed), FirstPending(w.approvals);
    if k < |listed| {
      assert listed[k] in multiset(w.approvals);
    }
    if m < |w.approvals| {
      assert w.approvals[m] in multiset(listed);
    }
  }

  lemma OnlyLastIsPending(w: WorkflowRow)
    requires RowInvariant(w)
    ensures forall i | 0 <= i < |w.approvals| - 1 :: w.approvals[i].decision != ApprovalDecision.Pending
  {
    hide RunsFitStatus, Gated;
  }

  lemma DecidedRowInvariant(w: WorkflowRow, c: Call)
    requires RowInvariant(w) && c.Decide? && Decidable(w.status)
    ensures RowInvariant(DecidedRow(w, c))
    ensures DecidedAs(Last(DecidedRow(w, c).approvals), c.verdict)
    ensures Last(DecidedRow(w, c).approvals).decidedBy == Some(c.decidedBy)
    ensures Last(DecidedRow(w, c).approvals).decisionReason == c.reason
  {
    FirstPendingIsLast(w.approvals);
  }

  predicate StoreInvariant(s: Store) {
    forall id | id in s.workflows :: RowInvariant(s.workflows[id])
  }

  lemma StepKeepsInvariant(s: Store, audited: bool, c: Call)
    requires StoreInvariant(s)
    ensures StoreInvariant(Step(s, audited, c))
  {
    if Refusal(s.workflows, c).None? {
      if c.Start? {
        StartedRowInvariant(c);
      } else {
        DecidedRowInvariant(s.workflows[c.id], c);
      }
    }
  }

  lemma {:induction false} RunKeepsInvariant(s: Store, audited: bool, calls: seq<Call>)
    requires StoreInvariant(s)
    ensures StoreInvariant(Run(s, audited, calls))
    decreases |calls|
  {
    if calls != [] {
      RunKeepsInvariant(s, audited, calls[..|calls| - 1]);
      StepKeepsInvariant(Run(s, audited, calls[..|calls| - 1]), audited, Last(calls));
    }
  }

  /** Call number k approved this workflow in the decider's name, and was accepted at that point of the run. */
  predicate ApprovesAt(audited: bool, calls: seq<Call>, k: nat, id: Uuid, decider: Uuid)
    requires k < |calls|
  {
    && calls[k].Decide?
    && calls[k].id == id
    && calls[k].verdict == Approve
    && calls[k].decidedBy == decider
    && Refusal(Run(EMPTY, audited, calls[..k]).workflows, calls[k]).None?
  }

  predicate ApprovedInCalls(audited: bool, calls: seq<Call>, id: Uuid, decider: Uuid) {
    exists k: nat | k < |calls| :: ApprovesAt(audited, calls, k, id, decider)
  }

  /** Every completed workflow that went through approvals was approved by a call, made by the recorded decider. */
  lemma {:induction false} CompletionIsApprovedByACall(audited: bool, calls: seq<Call>, id: Uuid)
    requires id in Run(EMPTY, audited, calls).workflows
    ensures var w := Run(EMPTY, audited, calls).workflows[id];
      w.status == WorkflowStatus.Completed && |w.approvals| > 0
      ==> Last(w.approvals).decidedBy.Some? && ApprovedInCalls(audited, calls, id, Last(w.approvals).decidedBy.value)
    decreases |calls|
  {
    if calls != [] {
      var init, c := calls[..|calls| - 1], Last(calls);
      var before := Run(EMPTY, audited, init);
      RunKeepsInvariant(EMPTY, audited, init);
      if Refusal(before.workflows, c).Some? || c.id != id {
        StepIsLocal(before, audited, c, id);
        CompletionIsApprovedByACall(audited, init, id);
        EarlierCallStillCounts(audited, calls, id);
      } else if c.Start? {
        StartedRowInvariant(c);
      } else {
        DecidedRowInvariant(before.workflows[id], c);
        if c.verdict == Approve {
          assert ApprovesAt(audited, calls, |calls| - 1, id, c.decidedBy);
        }
      }
    }
  }

  lemma EarlierCallStillCounts(audited: bool, calls: seq<Call>, id: Uuid)
    requires calls != []
    ensures forall decider | ApprovedInCalls(audited, calls[..|calls| - 1], id, decider) :: ApprovedInCalls(audited, calls, id, decider)
  {
    hide Run, Refusal;
    var init := calls[..|calls| - 1];
    forall decider | ApprovedInCalls(audited, init, id, decider)
      ensures ApprovedInCalls(audited, calls, id, decider)
    {
      var k: nat :| k < |init| && ApprovesAt(audited, init, k, id, decider);
      assert init[..k] == calls[..k];
      assert ApprovesAt(audited, calls, k, id, decider);
    }
  }

  /**
   * The platform's first principle, over every run: a workflow that needs a human
   * is COMPLETED only when its last approval is APPROVED by the person whose accepted
   * call approved it, and a workflow that needs none never has an approval.
   */
  lemma HumanApprovalSafety(audited: bool, calls: seq<Call>, id: Uuid)
    requires id in Run(EMPTY, audited, calls).workflows
    ensures var w := Run(EMPTY, audited, calls).workflows[id];
      && (Gated(w) && w.status == WorkflowStatus.Completed ==>
            && |w.approvals| > 0
            && DecidedAs(Last(w.approvals), Approve)
            && ApprovedInCalls(audited, calls, id, Last(w.approvals).decidedBy.value))
      && (!Gated(w) ==> w.approvals == [] && w.status in {WorkflowStatus.Failed, WorkflowStatus.Completed})
  {
    RunKeepsInvariant(EMPTY, audited, calls);
    CompletionIsApprovedByACall(audited, calls, id);
  }

  // ----- The platform's own plans -----

  /** Every start uses the orchestrator's plan for its workflow type. */
  predicate UsesPlans(calls: seq<Call>) {
    forall k | 0 <= k < |calls| :: calls[k].Start? ==> calls[k].plan == PlanFor(calls[k].plan.workflowType)
  }

  lemma {:induction false} StoredFlagIsThePlans(audited: bool, calls: seq<Call>, id: Uuid)
    requires UsesPlans(calls) && id in Run(EMPTY, audited, calls).workflows
    ensures var w := Run(EMPTY, audited, calls).workflows[id];
      w.requiresHumanApproval == PlanFor(w.workflowType).requiresHumanApproval
    decreases |calls|
  {
    hide PlanFor, StartedRow, DecidedApprovals;
    var init, c := calls[..|calls| - 1], Last(calls);
    var before := Run(EMPTY, audited, init);
    if id in before.workflows {
      StoredFlagIsThePlans(audited, init, id);
    }
    if c.Start? {
      StartedRowKeepsPlan(c);
    }
  }

  lemma StartedRowKeepsPlan(c: Call)
    requires c.Start?
    ensures StartedRow(c).workflowType == c.plan.workflowType
    ensures StartedRow(c).requiresHumanApproval == c.plan.requiresHumanApproval
  {
  }

  /** No KYC, fraud-review or loan workflow is ever COMPLETED without a call that approved it. */
  lemma HighRiskNeedsApproval(audited: bool, calls: seq<Call>, id: Uuid)
    requires UsesPlans(calls) && id in Run(EMPTY, audited, calls).workflows
    ensures var w := Run(EMPTY, audited, calls).workflows[id];
      w.workflowType in {Kyc, FraudReview, Loan} && w.status == WorkflowStatus.Completed ==>
        && |w.approvals| > 0
        && Last(w.approvals).decidedBy.Some?
        && ApprovedInCalls(audited, calls, id, Last(w.approvals).decidedBy.value)
  {
    hide Run;
    StoredFlagIsThePlans(audited, calls, id);
    HumanApprovalSafety(audited, calls, id);
  }

  /** The permission each type of workflow asks of the person who decides. */
  function PermissionFor(t: WorkflowType): string {
    match t
    case Kyc => "kyc:review"
    case FraudReview => "fraud:review"
    case Loan => "loan:process"
    case _ => "workflow:approve"
  }

  /** The agents each type of workflow runs, in order. */
  function AgentsFor(t: WorkflowType): seq<string> {
    match t
    case DocumentIntelligence => ["document_agent", "summarization_agent"]
    case Kyc => ["document_agent", "kyc_agent"]
    case FraudReview => ["fraud_agent"]
    case Compliance => ["retrieval_agent", "compliance_agent"]
    case AuditEvidence => ["audit_agent"]
    case Loan => ["document_agent", "loan_agent"]
  }

  lemma SpecRunsAgents(t: WorkflowType)
    ensures 1 <= |SpecSteps(t)| == |AgentsFor(t)| <= 2
    ensures SpecSteps(t)[0].0 == AgentsFor(t)[0]
    ensures |SpecSteps(t)| == 2 ==> SpecSteps(t)[1].0 == AgentsFor(t)[1]
  {
    hide Description;
  }

  lemma SpecAsksForPermission(t: WorkflowType)
    ensures PlanSpecFor(t).requiresHumanApproval <==> t in {Kyc, FraudReview, Loan}
    ensures PlanSpecFor(t).approvalPermission == if t in {Kyc, FraudReview, Loan} then Some(PermissionFor(t)) else None
    ensures PlanSpecFor(t).steps == SpecSteps(t)
  {
    hide SpecSteps;
  }

  /**
   * The built-in plans: which agents run, in order; exactly KYC, fraud review and loan
   * are gated; and those ask for their own permission.
   */
  lemma PlanTable(t: WorkflowType)
    ensures var plan := PlanFor(t);
      && plan.workflowType == t
      && (plan.requiresHumanApproval <==> t in {Kyc, FraudReview, Loan})
      && plan.approvalPermission == (if t in {Kyc, FraudReview, Loan} then Some(PermissionFor(t)) else None)
      && |plan.steps| == |AgentsFor(t)|
      && forall i | 0 <= i < |plan.steps| :: plan.steps[i].agent == AgentsFor(t)[i]
  {
    hide PlanSpecFor, SpecSteps, AgentsFor, PermissionFor, Rationale;
    SpecRunsAgents(t);
    SpecAsksForPermission(t);
  }

  /** The first approval asks for the type's permission and says why; later ones ask for the general permission. */
  predicate AsksForPermission(w: WorkflowRow) {
    forall i | 0 <= i < |w.approvals| ::
      if i == 0 then
        && w.approvals[0].requiredPermission == PermissionFor(w.workflowType)
        && w.approvals[0].summary == Some(ReasonFor(w.workflowType))
      else
        w.approvals[i].requiredPermission == "workflow:approve" && w.approvals[i].summary == None
  }

  function ReasonFor(t: WorkflowType): string {
    if t in {Kyc, FraudReview, Loan}
    then "High-risk workflow: routed through a human approval gate."
    else "Low-risk workflow: fully automated with full audit logging."
  }

  lemma PermissionsAreNamed(t: WorkflowType)
    ensures PermissionFor(t) != ""
  {
  }

  lemma PlanAsksForPermission(t: WorkflowType)
    ensures OrElse(PlanFor(t).approvalPermission, "workflow:approve") == PermissionFor(t)
    ensures PlanFor(t).rationale == ReasonFor(t)
  {
    PermissionsAreNamed(t);
    GeneralPermission(t);
    hide PlanSpecFor, PermissionFor, PlanSteps;
    SpecAsksForPermission(t);
  }

  lemma GeneralPermission(t: WorkflowType)
    ensures t !in {Kyc, FraudReview, Loan} ==> PermissionFor(t) == "workflow:approve"
  {
  }

  lemma StartAsksForPermission(c: Call)
    requires c.Start? && c.plan == PlanFor(c.plan.workflowType)
    ensures AsksForPermission(StartedRow(c))
  {
    hide RunSteps, PlanFor, OrElse, PermissionFor, ReasonFor;
    PlanAsksForPermission(c.plan.workflowType);
  }

  lemma DecisionKeepsPermissions(w: WorkflowRow, c: Call)
    requires RowInvariant(w) && AsksForPermission(w) && c.Decide? && Decidable(w.status)
    ensures AsksForPermission(DecidedRow(w, c))
  {
    hide PlanFor, OrElse, PermissionFor, ReasonFor, RunsFitStatus, Gated, FirstPending;
    FirstPendingIsLast(w.approvals);
  }

  lemma {:induction false} ApprovalsAskForThePlansPermission(audited: bool, calls: seq<Call>, id: Uuid)
    requires UsesPlans(calls) && id in Run(EMPTY, audited, calls).workflows
    ensures AsksForPermission(Run(EMPTY, audited, calls).workflows[id])
    decreases |calls|
  {
    hide PlanFor, OrElse, FinalProgress, DecidedRow, RowInvariant, StartedRow, AsksForPermission;
    var init, c := calls[..|calls| - 1], Last(calls);
    var before := Run(EMPTY, audited, init);
    RunKeepsInvariant(EMPTY, audited, init);
    if c.Start? {
      StartAsksForPermission(c);
    }
    if id in before.workflows {
      ApprovalsAskForThePlansPermission(audited, init, id);
      if c.Decide? && Decidable(before.workflows[id].status) {
        DecisionKeepsPermissions(before.workflows[id], c);
      }
    }
  }

  /** The agents of each built-in plan are distinct, so every output is kept under its own name. */
  lemma PlansHaveDistinctAgents(t: WorkflowType)
    ensures var steps := PlanFor(t).steps;
      |steps| > 0 && forall i, j | 0 <= i < j < |steps| :: steps[i].agent != steps[j].agent
  {
    hide PlanSpecFor, PlanSteps, Rationale;
    SpecsHaveDistinctAgents(t);
  }

  lemma SpecsHaveDistinctAgents(t: WorkflowType)
    ensures 1 <= |PlanSpecFor(t).steps| <= 2
    ensures |PlanSpecFor(t).steps| == 2 ==> PlanSpecFor(t).steps[0].0 != PlanSpecFor(t).steps[1].0
  {
    hide Description;
    match t
    case DocumentIntelligence => DifferentLengths("document_agent", "summarization_agent");
    case Kyc => DifferentLengths("document_agent", "kyc_agent");
    case Compliance => DifferentLengths("retrieval_agent", "compliance_agent");
    case Loan => DifferentLengths("document_agent", "loan_agent");
    case _ =>
  }

  lemma DifferentLengths(a: string, b: string)
    requires |a| != |b|
    ensures a != b
  {
  }

  // ----- Pending approvals -----

  /** Exactly one approval is pending while the workflow awaits approval, and none otherwise. */
  lemma PendingIffAwaiting(audited: bool, calls: seq<Call>, id: Uuid)
    requires id in Run(EMPTY, audited, calls).workflows
    ensures var w := Run(EMPTY, audited, calls).workflows[id];
      && (w.status == WorkflowStatus.AwaitingApproval <==> exists i :: 0 <= i < |w.approvals| && IsPending(w.approvals[i]))
      && (forall i, j | 0 <= i < |w.approvals| && 0 <= j < |w.approvals| && IsPending(w.approvals[i]) && IsPending(w.approvals[j]) :: i == j)
      && (forall i | 0 <= i < |w.approvals| - 1 :: DecidedAs(w.approvals[i], Escalate))
      && w.status !in {WorkflowStatus.Pending, WorkflowStatus.Running, WorkflowStatus.Approved, WorkflowStatus.Cancelled}
  {
    RunKeepsInvariant(EMPTY, audited, calls);
    var w := Run(EMPTY, audited, calls).workflows[id];
    if w.status == WorkflowStatus.AwaitingApproval {
      assert IsPending(w.approvals[0]);
    }
  }

  // ----- Refused calls and final states -----

  predicate Final(status: WorkflowStatus) {
    status in {WorkflowStatus.Completed, WorkflowStatus.Rejected, WorkflowStatus.Failed}
  }

  /** Once COMPLETED, REJECTED or FAILED, a workflow's row and its audit entries never change again. */
  lemma {:induction false} FinalIsForever(s: Store, audited: bool, calls: seq<Call>, id: Uuid)
    requires id in s.workflows && Final(s.workflows[id].status)
    ensures id in Run(s, audited, calls).workflows && Run(s, audited, calls).workflows[id] == s.workflows[id]
    ensures EntriesFor(Run(s, audited, calls).log, id) == EntriesFor(s.log, id)
    decreases |calls|
  {
    if calls != [] {
      var init := calls[..|calls| - 1];
      FinalIsForever(s, audited, init, id);
      StepIsLocal(Run(s, audited, init), audited, Last(calls), id);
    }
  }

  /** Reachable rows that are not final are exactly those a human can still decide. */
  lemma FinalOrDecidable(audited: bool, calls: seq<Call>, id: Uuid)
    requires id in Run(EMPTY, audited, calls).workflows
    ensures var status := Run(EMPTY, audited, calls).workflows[id].status; Final(status) <==> !Decidable(status)
  {
    RunKeepsInvariant(EMPTY, audited, calls);
  }

  /** Later rows keep everything `start` wrote but the status, and every decision already made. */
  predicate KeepsRecord(w: WorkflowRow, later: WorkflowRow) {
    && later == w.(status := later.status, approvals := later.approvals)
    && |w.approvals| <= |later.approvals|
    && (forall i | 0 <= i < |w.approvals| ::
          && later.approvals[i].requiredPermission == w.approvals[i].requiredPermission
          && later.approvals[i].summary == w.approvals[i].summary)
    && forall i | 0 <= i < |w.approvals| :: w.approvals[i].decision != ApprovalDecision.Pending ==> later.approvals[i] == w.approvals[i]
  }

  lemma DecisionKeepsRecord(w: WorkflowRow, c: Call)
    requires c.Decide?
    ensures KeepsRecord(w, DecidedRow(w, c))
  {
  }

  /** Whatever calls follow, no run, result, input or decision already recorded is altered. */
  lemma {:induction false} RecordsArePermanent(s: Store, audited: bool, calls: seq<Call>, id: Uuid)
    requires id in s.workflows
    ensures id in Run(s, audited, calls).workflows
    ensures KeepsRecord(s.workflows[id], Run(s, audited, calls).workflows[id])
    decreases |calls|
  {
    hide DecidedRow, StartedRow;
    if calls != [] {
      var init, c := calls[..|calls| - 1], Last(calls);
      RecordsArePermanent(s, audited, init, id);
      if c.Decide? {
        DecisionKeepsRecord(Run(s, audited, init).workflows[id], c);
      }
    }
  }

  /** Which decisions are refused, and how: on unknown workflows, and on those in a final state. */
  lemma RefusedIff(audited: bool, calls: seq<Call>, c: Call)
    requires c.Decide?
    ensures var workflows := Run(EMPTY, audited, calls).workflows;
      && (c.id !in workflows ==> Refusal(workflows, c) == Some(NotFound(c.id)))
      && (c.id in workflows ==> match workflows[c.id].status
          case AwaitingApproval => Refusal(workflows, c) == None
          case Escalated => Refusal(workflows, c) == None
          case status => Final(status) && Refusal(workflows, c) == Some(InvalidState(c.id, status)))
  {
    RunKeepsInvariant(EMPTY, audited, calls);
  }

  // ----- Where a row comes from -----

  /** Call number k started this workflow, and was accepted at that point of the run. */
  predicate StartsAt(audited: bool, calls: seq<Call>, k: nat, id: Uuid)
    requires k < |calls|
  {
    calls[k].Start? && calls[k].id == id && Refusal(Run(EMPTY, audited, calls[..k]).workflows, calls[k]).None?
  }

  /** The first approval asks for the permission the plan names, if it names one, and gives the plan's reason. */
  predicate AsksAsPlanned(w: WorkflowRow, plan: WorkflowPlan) {
    w.approvals != [] ==>
      && w.approvals[0].summary == Some(plan.rationale)
      && w.approvals[0].requiredPermission ==
           if plan.approvalPermission.Some? && plan.approvalPermission.value != "" then plan.approvalPermission.value
           else "workflow:approve"
  }

  ghost predicate ComesFrom(audited: bool, calls: seq<Call>, k: nat, id: Uuid, w: WorkflowRow) {
    k < |calls| && StartsAt(audited, calls, k, id) && StartedBy(w, calls[k]) && AsksAsPlanned(w, calls[k].plan)
  }

  lemma StartAsksAsPlanned(c: Call)
    requires c.Start?
    ensures AsksAsPlanned(StartedRow(c), c.plan)
  {
    hide RunSteps;
  }

  lemma DecisionAsksAsPlanned(w: WorkflowRow, c: Call, plan: WorkflowPlan)
    requires RowInvariant(w) && c.Decide? && Decidable(w.status) && AsksAsPlanned(w, plan)
    ensures AsksAsPlanned(DecidedRow(w, c), plan)
  {
    hide RunsFitStatus, Gated, FirstPending;
  }

  lemma StartSurvives(w: WorkflowRow, later: WorkflowRow, c: Call)
    requires c.Start? && StartedBy(w, c) && KeepsRecord(w, later)
    ensures StartedBy(later, c)
  {
    hide RowOfStep, ResultsMatch;
  }

  /**
   * Every stored workflow, however often it was decided on, still tells of the accepted
   * call that started it: its input, its runs along the plan, and as its result the
   * outputs of exactly the agents that succeeded.
   */
  lemma {:induction false} RowsTellTheirStart(audited: bool, calls: seq<Call>, id: Uuid)
    requires id in Run(EMPTY, audited, calls).workflows
    ensures exists k: nat :: ComesFrom(audited, calls, k, id, Run(EMPTY, audited, calls).workflows[id])
    decreases |calls|
  {
    hide StartedRow, DecidedRow, StartedBy, KeepsRecord, AsksAsPlanned, RowInvariant;
    var init, c := calls[..|calls| - 1], Last(calls);
    var before, after := Run(EMPTY, audited, init), Run(EMPTY, audited, calls);
    if id in before.workflows {
      RowsTellTheirStart(audited, init, id);
      var k: nat :| ComesFrom(audited, init, k, id, before.workflows[id]);
      assert init[..k] == calls[..k];
      assert KeepsRecord(before.workflows[id], after.workflows[id]) by {
        RecordsArePermanent(before, audited, [c], id);
        assert Run(before, audited, [c]) == after by {
          assert [c][..0] == [];
        }
      }
      StartSurvives(before.workflows[id], after.workflows[id], calls[k]);
      RunKeepsInvariant(EMPTY, audited, init);
      if c.Decide? && c.id == id && Decidable(before.workflows[id].status) {
        DecisionAsksAsPlanned(before.workflows[id], c, calls[k].plan);
      }
      assert ComesFrom(audited, calls, k, id, after.workflows[id]);
    } else {
      StartStoresWhatRan(c);
      StartAsksAsPlanned(c);
      assert ComesFrom(audited, calls, |calls| - 1, id, after.workflows[id]);
    }
  }

  // ----- The audit log -----

  /** The log entries about one workflow, in order. */
  function EntriesFor(log: seq<AuditEntry>, id: Uuid): seq<AuditEntry> {
    if log == [] then []
    else
      var rest := EntriesFor(log[..|log| - 1], id);
      if log[|log| - 1].resourceId == id then rest + [log[|log| - 1]] else rest
  }

  lemma EntriesForAppend(log: seq<AuditEntry>, e: AuditEntry, id: Uuid)
    ensures EntriesFor(log + [e], id) == if e.resourceId == id then EntriesFor(log, id) + [e] else EntriesFor(log, id)
  {
    assert (log + [e])[..|log|] == log;
  }

  /** The verdict an audit action records, if it records one. */
  function VerdictOf(action: string): Option<Verdict> {
    if action == "workflow.approved" then Some(Approve)
    else if action == "workflow.rejected" then Some(Reject)
    else if action == "workflow.escalated" then Some(Escalate)
    else None
  }

  /** The status the log alone says the workflow is in. */
  function ReplayStatus(entries: seq<AuditEntry>): Option<WorkflowStatus> {
    if entries == [] then None
    else
      match VerdictOf(Last(entries).action)
      case Some(Approve) => Some(WorkflowStatus.Completed)
      case Some(Reject) => Some(WorkflowStatus.Rejected)
      case Some(Escalate) => Some(WorkflowStatus.Escalated)
      case None =>
        if Last(entries).action == "workflow.failed" then Some(WorkflowStatus.Failed)
        else if Last(entries).action == "workflow.completed" then Some(WorkflowStatus.Completed)
        else if Last(entries).action == "workflow.awaiting_approval" then Some(WorkflowStatus.AwaitingApproval)
        else None
  }

  /** failed, or completed, or awaiting_approval escalated* (approved | rejected)? */
  predicate ValidHistory(entries: seq<AuditEntry>) {
    && |entries| > 0
    && if entries[0].action == "workflow.awaiting_approval" then
         && (forall i | 1 <= i < |entries| - 1 :: entries[i].action == "workflow.escalated")
         && (|entries| > 1 ==> VerdictOf(Last(entries).action).Some?)
       else
         |entries| == 1 && entries[0].action in {"workflow.failed", "workflow.completed"}
  }

  /** The approval is the decision this entry records: same verdict, same person, same reason. */
  predicate Records(e: AuditEntry, a: ApprovalRow) {
    && VerdictOf(e.action).Some?
    && DecidedAs(a, VerdictOf(e.action).value)
    && e.actorId == a.decidedBy
    && e.context == Reason(if a.decisionReason.Some? then a.decisionReason.value else "")
  }

  /** The approvals are what the log tells: one per decision, in order, or one pending if there was none. */
  predicate ApprovalsMatchLog(approvals: seq<ApprovalRow>, entries: seq<AuditEntry>)
    requires |entries| > 0
  {
    if entries[0].action != "workflow.awaiting_approval" then
      approvals == []
    else if |entries| == 1 then
      |approvals| == 1 && IsPending(approvals[0])
    else
      |approvals| == |entries| - 1 && forall i | 0 <= i < |approvals| :: Records(entries[i + 1], approvals[i])
  }

  /** The first entry names who started the workflow, and the agent that failed or whether a human is needed. */
  predicate TellsStart(e: AuditEntry, w: WorkflowRow) {
    && e.actorId == w.createdBy
    && (e.action == "workflow.failed" ==>
          |w.agentRuns| > 0 && e.context == FailedAgent(Last(w.agentRuns).agentName))
    && (e.action != "workflow.failed" ==> e.context == RequiresApproval(Gated(w)))
  }

  predicate LogAgrees(w: WorkflowRow, entries: seq<AuditEntry>) {
    && ValidHistory(entries)
    && TellsStart(entries[0], w)
    && ReplayStatus(entries) == Some(w.status)
    && ApprovalsMatchLog(w.approvals, entries)
  }

  lemma StartedLogAgrees(c: Call)
    requires c.Start?
    ensures LogAgrees(StartedRow(c), [StartEntry(c)])
  {
    hide RunSteps;
    RunsFollowPlan(c.plan.steps, StepPayload(c), c.behaviour, |c.plan.steps|);
    FlagComesFromARun(c.plan.steps, StepPayload(c), c.behaviour, |c.plan.steps|);
    assert forall i | 0 <= i < |FinalProgress(c).runs| ::
      RowOfStep(FinalProgress(c).runs[i], c.plan.steps[i], StepPayload(c), c.behaviour, i);
  }

  lemma StartStillTold(e: AuditEntry, w: WorkflowRow, c: Call)
    requires TellsStart(e, w) && c.Decide?
    ensures TellsStart(e, DecidedRow(w, c))
  {
    hide DecidedApprovals, FirstPending;
  }

  lemma DecidedHistoryIsValid(w: WorkflowRow, entries: seq<AuditEntry>, c: Call)
    requires ValidHistory(entries) && ReplayStatus(entries) == Some(w.status) && c.Decide? && Decidable(w.status)
    ensures entries[0].action == "workflow.awaiting_approval"
    ensures ValidHistory(entries + [DecisionEntry(c)])
    ensures ReplayStatus(entries + [DecisionEntry(c)]) == Some(DecidedRow(w, c).status)
  {
    hide DecidedApprovals;
    var entries' := entries + [DecisionEntry(c)];
    assert entries[0].action == "workflow.awaiting_approval";
    forall i | 1 <= i < |entries'| - 1
      ensures entries'[i].action == "workflow.escalated"
    {
      assert entries'[i] == entries[i];
    }
  }

  lemma DecidedApprovalsMatchLog(w: WorkflowRow, entries: seq<AuditEntry>, c: Call)
    requires RowInvariant(w) && c.Decide? && Decidable(w.status)
    requires ValidHistory(entries) && ReplayStatus(entries) == Some(w.status) && ApprovalsMatchLog(w.approvals, entries)
    requires entries[0].action == "workflow.awaiting_approval"
    ensures ApprovalsMatchLog(DecidedRow(w, c).approvals, entries + [DecisionEntry(c)])
  {
    hide RunsFitStatus, Gated, Records;
    var w', entries' := DecidedRow(w, c), entries + [DecisionEntry(c)];
    FirstPendingIsLast(w.approvals);
    DecisionIsRecorded(w, c);
    forall i | 0 <= i < |w'.approvals|
      ensures Records(entries'[i + 1], w'.approvals[i])
    {
      if i < |w'.approvals| - 1 {
        assert Records(entries[i + 1], w.approvals[i]);
      }
    }
  }

  lemma DecisionIsRecorded(w: WorkflowRow, c: Call)
    requires RowInvariant(w) && c.Decide? && Decidable(w.status)
    ensures Records(DecisionEntry(c), Last(DecidedRow(w, c).approvals))
  {
    hide RunsFitStatus, Gated, DecidedApprovals;
    DecidedRowInvariant(w, c);
  }

  lemma DecidedLogAgrees(w: WorkflowRow, entries: seq<AuditEntry>, c: Call)
    requires RowInvariant(w) && LogAgrees(w, entries) && c.Decide? && Decidable(w.status)
    ensures LogAgrees(DecidedRow(w, c), entries + [DecisionEntry(c)])
  {
    hide TellsStart, RowInvariant, ReplayStatus, ApprovalsMatchLog, DecidedRow;
    StartStillTold(entries[0], w, c);
    DecidedHistoryIsValid(w, entries, c);
    DecidedApprovalsMatchLog(w, entries, c);
  }

  /** Rows and log tell the same story, and the log mentions no unknown workflow. */
  predicate AuditInvariant(s: Store) {
    && StoreInvariant(s)
    && (forall id | id in s.workflows :: LogAgrees(s.workflows[id], EntriesFor(s.log, id)))
    && (forall i | 0 <= i < |s.log| :: s.log[i].resourceId in s.workflows)
  }

  lemma {:induction false} NoEntries(log: seq<AuditEntry>, id: Uuid)
    requires forall i | 0 <= i < |log| :: log[i].resourceId != id
    ensures EntriesFor(log, id) == []
  {
    if log != [] {
      NoEntries(log[..|log| - 1], id);
    }
  }

  lemma EffectAgrees(s: Store, c: Call)
    requires AuditInvariant(s) && Refusal(s.workflows, c).None?
    ensures var (row, entry) := Effect(s.workflows, c);
      LogAgrees(row, EntriesFor(s.log, c.id) + [entry])
  {
    if c.Start? {
      NoEntries(s.log, c.id);
      StartedLogAgrees(c);
    } else {
      DecidedLogAgrees(s.workflows[c.id], EntriesFor(s.log, c.id), c);
    }
  }

  /** Storing a row and logging one entry about it keeps the invariant, whatever the row is. */
  lemma WriteKeepsAudit(s: Store, id: Uuid, row: WorkflowRow, entry: AuditEntry)
    requires AuditInvariant(s) && RowInvariant(row) && entry.resourceId == id
    requires LogAgrees(row, EntriesFor(s.log, id) + [entry])
    ensures AuditInvariant(Store(s.workflows[id := row], s.log + [entry]))
  {
    hide RowInvariant, LogAgrees, EntriesFor;
    var s' := Store(s.workflows[id := row], s.log + [entry]);
    forall x | x in s'.workflows
      ensures LogAgrees(s'.workflows[x], EntriesFor(s'.log, x))
    {
      EntriesForAppend(s.log, entry, x);
    }
  }

  lemma StepKeepsAudit(s: Store, c: Call)
    requires AuditInvariant(s)
    ensures AuditInvariant(Step(s, true, c))
  {
    if Refusal(s.workflows, c).None? {
      StepKeepsInvariant(s, true, c);
      EffectAgrees(s, c);
      var (row, entry) := Effect(s.workflows, c);
      assert Step(s, true, c).workflows[c.id] == row;
      WriteKeepsAudit(s, c.id, row, entry);
    }
  }

  lemma {:induction false} RunKeepsAudit(calls: seq<Call>)
    ensures AuditInvariant(Run(EMPTY, true, calls))
    decreases |calls|
  {
    if calls != [] {
      RunKeepsAudit(calls[..|calls| - 1]);
      StepKeepsAudit(Run(EMPTY, true, calls[..|calls| - 1]), Last(calls));
    }
  }

  /**
   * Replaying the log: after any run with an audit service attached, each stored
   * workflow's entries form one of the legal histories, end in its status, and
   * give back its approvals with their deciders and reasons.
   */
  lemma AuditReplay(calls: seq<Call>, id: Uuid)
    requires id in Run(EMPTY, true, calls).workflows
    ensures LogAgrees(Run(EMPTY, true, calls).workflows[id], EntriesFor(Run(EMPTY, true, calls).log, id))
  {
    RunKeepsAudit(calls);
  }

  /** The calls that were not refused, in order. */
  function Accepted(audited: bool, calls: seq<Call>): seq<Call> {
    if calls == [] then []
    else
      var init, c := calls[..|calls| - 1], calls[|calls| - 1];
      Accepted(audited, init) + if Refusal(Run(EMPTY, audited, init).workflows, c).None? then [c] else []
  }

  /** The entry is about this call: its workflow, who made it, the request it came with, and what was decided. */
  predicate EntryOf(e: AuditEntry, c: Call) {
    && e.resourceId == c.id
    && e.resourceType == "workflow"
    && e.requestId == c.requestId
    && e.actorId == (if c.Start? then c.createdBy else Some(c.decidedBy))
    && VerdictOf(e.action) == (if c.Start? then None else Some(c.verdict))
  }

  /** The log holds one entry for every accepted call, in the order they were served, and none for a refused one. */
  lemma {:induction false} LogIsAcceptedCalls(calls: seq<Call>)
    ensures var log, accepted := Run(EMPTY, true, calls).log, Accepted(true, calls);
      |log| == |accepted| && forall i | 0 <= i < |log| :: EntryOf(log[i], accepted[i])
    decreases |calls|
  {
    hide StartedRow, DecidedRow, EntryOf;
    if calls != [] {
      var init, c := calls[..|calls| - 1], Last(calls);
      LogIsAcceptedCalls(init);
      if Refusal(Run(EMPTY, true, init).workflows, c).None? {
        EffectIsOf(Run(EMPTY, true, init).workflows, c);
      }
    }
  }

  lemma EffectIsOf(workflows: map<Uuid, WorkflowRow>, c: Call)
    requires Refusal(workflows, c).None?
    ensures EntryOf(Effect(workflows, c).1, c)
  {
    hide StartedRow, DecidedRow, FinalProgress, NeedsApproval;
  }

  /** The log only grows: what was logged after the first calls is a prefix of what is logged later. */
  lemma {:induction false} LogOnlyGrows(s: Store, audited: bool, earlier: seq<Call>, later: seq<Call>)
    ensures Run(s, audited, earlier).log <= Run(s, audited, earlier + later).log
    decreases |later|
  {
    if later == [] {
      assert earlier + later == earlier;
    } else {
      var init := later[..|later| - 1];
      LogOnlyGrows(s, audited, earlier, init);
      assert (earlier + later)[..|earlier + later| - 1] == earlier + init;
    }
  }

  // ----- One workflow does not depend on the others -----

  /** Two stores that tell the same about one workflow. */
  predicate SameAt(a: Store, b: Store, id: Uuid) {
    && (id in a.workflows <==> id in b.workflows)
    && (id in a.workflows ==> a.workflows[id] == b.workflows[id])
    && EntriesFor(a.log, id) == EntriesFor(b.log, id)
  }

  lemma StepIsLocal(s: Store, audited: bool, c: Call, id: Uuid)
    ensures c.id != id ==> SameAt(s, Step(s, audited, c), id)
    ensures Refusal(s.workflows, c).Some? ==> Step(s, audited, c) == s
  {
    if Refusal(s.workflows, c).None? {
      EntriesForAppend(s.log, Effect(s.workflows, c).1, id);
    }
  }

  lemma StepRespectsSameAt(a: Store, b: Store, audited: bool, c: Call, id: Uuid)
    requires SameAt(a, b, id) && c.id == id
    ensures SameAt(Step(a, audited, c), Step(b, audited, c), id)
  {
    if Refusal(a.workflows, c).None? {
      EntriesForAppend(a.log, Effect(a.workflows, c).1, id);
      EntriesForAppend(b.log, Effect(b.workflows, c).1, id);
    }
  }

  /** The calls addressed to one workflow. */
  function Project(calls: seq<Call>, id: Uuid): seq<Call> {
    if calls == [] then []
    else
      var rest := Project(calls[..|calls| - 1], id);
      if calls[|calls| - 1].id == id then rest + [calls[|calls| - 1]] else rest
  }

  /** However calls interleave, a workflow ends as if only the calls addressed to it had been made. */
  lemma {:induction false} InterleavingIsIndependent(s: Store, audited: bool, calls: seq<Call>, id: Uuid)
    ensures SameAt(Run(s, audited, calls), Run(s, audited, Project(calls, id)), id)
    decreases |calls|
  {
    if calls != [] {
      var init, c := calls[..|calls| - 1], Last(calls);
      InterleavingIsIndependent(s, audited, init, id);
      var a, b := Run(s, audited, init), Run(s, audited, Project(init, id));
      if c.id == id {
        StepRespectsSameAt(a, b, audited, c, id);
        assert (Project(init, id) + [c])[..|Project(init, id)|] == Project(init, id);
      } else {
        StepIsLocal(a, audited, c, id);
      }
    }
  }

  /** Attaching an audit service changes nothing but the log. */
  lemma {:induction false} AuditingDoesNotInterfere(s: Store, t: Store, calls: seq<Call>)
    requires s.workflows == t.workflows
    ensures Run(s, true, calls).workflows == Run(t, false, calls).workflows
    ensures Run(t, false, calls).log == t.log
    decreases |calls|
  {
    if calls != [] {
      AuditingDoesNotInterfere(s, t, calls[..|calls| - 1]);
    }
  }
}
