/**
 * The workflow service in the form the program has it: row objects updated in
 * place by `start` and by the decisions. Every call is proved to take the stored
 * rows and the audit log exactly where WorkflowModel.Step says.
 */
module WorkflowService {
  import opened Prelude
  import opened Agents
  import opened WorkflowModel

  class AuditService {
    var entries: seq<AuditEntry>

    constructor ()
      ensures entries == []
    {
      entries := [];
    }

    method Record(action: string, resourceId: Uuid, actorId: Option<Uuid>, requestId: Option<string>, context: AuditContext)
      returns (entry: AuditEntry)
      modifies this
      ensures entry == AuditEntry(action, "workflow", resourceId, actorId, requestId, context)
      ensures entries == old(entries) + [entry]
    {
      entry := AuditEntry(action, "workflow", resourceId, actorId, requestId, context);
      entries := entries + [entry];
    }
  }

  class AgentRun {
    const agentName: string
    const input: Payload
    var status: AgentRunStatus
    var output: Option<Output>
    var error: Option<string>

    constructor (agentName: string, input: Payload)
      ensures this.agentName == agentName && this.input == input && status == AgentRunStatus.Started
    {
      this.agentName, this.input := agentName, input;
      status, output, error := AgentRunStatus.Started, None, None;
    }

    function View(): RunRow
      reads this
    {
      RunRow(agentName, status, input, output, error)
    }
  }

  class Approval {
    const requiredPermission: string
    const summary: Option<string>
    var kind: ApprovalKind
    var decision: ApprovalDecision
    var decidedBy: Option<Uuid>
    var decisionReason: Option<string>

    constructor (kind: ApprovalKind, requiredPermission: string, summary: Option<string>)
      ensures View() == ApprovalRow(kind, ApprovalDecision.Pending, requiredPermission, summary, None, None)
    {
      this.requiredPermission, this.summary := requiredPermission, summary;
      this.kind, decision, decidedBy, decisionReason := kind, ApprovalDecision.Pending, None, None;
    }

    function View(): ApprovalRow
      reads this
    {
      ApprovalRow(kind, decision, requiredPermission, summary, decidedBy, decisionReason)
    }

    method Decide(verdict: Verdict, decidedBy: Uuid, reason: Option<string>)
      modifies this
      ensures View() == Decided(old(View()), verdict, decidedBy, reason)
    {
      decision := DecisionOf(verdict);
      kind := KindOf(verdict);
      this.decidedBy := Some(decidedBy);
      decisionReason := reason;
    }
  }

  function RunRows(runs: seq<AgentRun>): (rows: seq<RunRow>)
    reads runs
    ensures |rows| == |runs| && forall i | 0 <= i < |runs| :: rows[i] == runs[i].View()
  {
    seq(|runs|, i requires 0 <= i < |runs| reads runs => runs[i].View())
  }

  function ApprovalRows(approvals: seq<Approval>): (rows: seq<ApprovalRow>)
    reads approvals
    ensures |rows| == |approvals| && forall i | 0 <= i < |approvals| :: rows[i] == approvals[i].View()
  {
    seq(|approvals|, i requires 0 <= i < |approvals| reads approvals => approvals[i].View())
  }

  class Workflow {
    const id: Uuid
    const workflowType: WorkflowType
    const inputPayload: Payload
    const requiresHumanApproval: bool
    const createdBy: Option<Uuid>
    const createdAt: nat
    var status: WorkflowStatus
    var result: Option<map<string, Output>>
    var error: Option<string>
    var agentRuns: seq<AgentRun>
    var approvals: seq<Approval>
    ghost var Repr: set<object>

    /** The rows of this workflow are its own, and no approval is listed twice. */
    ghost predicate Valid()
      reads this, Repr
    {
      && this in Repr
      && (forall i | 0 <= i < |agentRuns| :: agentRuns[i] in Repr)
      && (forall i | 0 <= i < |approvals| :: approvals[i] in Repr)
      && (forall i, j | 0 <= i < j < |approvals| :: approvals[i] != approvals[j])
    }

    constructor (id: Uuid, workflowType: WorkflowType, inputPayload: Payload, requiresHumanApproval: bool,
                 createdBy: Option<Uuid>, createdAt: nat)
      ensures this.id == id && Valid() && fresh(Repr)
      ensures View() == WorkflowRow(workflowType, WorkflowStatus.Running, inputPayload, requiresHumanApproval,
                                    createdBy, createdAt, None, None, [], [])
    {
      this.id, this.workflowType, this.inputPayload := id, workflowType, inputPayload;
      this.requiresHumanApproval, this.createdBy, this.createdAt := requiresHumanApproval, createdBy, createdAt;
      status, result, error, agentRuns, approvals := WorkflowStatus.Running, None, None, [], [];
      Repr := {this};
    }

    ghost function View(): WorkflowRow
      requires Valid()
      reads this, Repr
    {
      WorkflowRow(workflowType, status, inputPayload, requiresHumanApproval, createdBy, createdAt, result, error,
                  RunRows(agentRuns), ApprovalRows(approvals))
    }

    /** This workflow's fields tell what the loop has done so far. */
    ghost predicate Reflects(p: Progress, results: map<string, Output>, agentFlaggedReview: bool, failedAgent: Option<string>)
      requires Valid()
      reads this, Repr
    {
      && RunRows(agentRuns) == p.runs
      && results == p.results
      && agentFlaggedReview == p.flagged
      && match p.failure
         case None => failedAgent == None && error == None
         case Some(outcome) =>
           && failedAgent == Some(outcome.agentName)
           && error == outcome.error
           && status == WorkflowStatus.Failed
           && result == Some(results)
    }

    /** Add the row of one step: started, then finished with what the agent did. */
    method RunStep(step: PlanStep, stepPayload: Payload, stepResult: StepResult) returns (outcome: AgentOutcome)
      requires Valid()
      modifies this
      ensures Valid() && fresh(Repr - old(Repr))
      ensures unchanged(`status, `result, `error, `approvals)
      ensures outcome == StepOutcome(step.agent, stepResult)
      ensures RunRows(agentRuns) == old(RunRows(agentRuns)) + [FinishedRun(outcome, step.agent, stepPayload)]
    {
      hide StepOutcome;
      var run := new AgentRun(step.agent, stepPayload);
      agentRuns := agentRuns + [run];
      Repr := Repr + {run};
      outcome := StepOutcome(step.agent, stepResult);
      run.status := if outcome.status == "succeeded" then AgentRunStatus.Succeeded else AgentRunStatus.Failed;
      run.output := outcome.output;
      run.error := outcome.error;
    }

    /** The step loop: one agent run row per step, until the plan ends or an agent fails. */
    method ExecuteSteps(steps: seq<PlanStep>, stepPayload: Payload, behaviour: nat -> StepResult)
      returns (results: map<string, Output>, agentFlaggedReview: bool, failedAgent: Option<string>)
      requires Valid() && agentRuns == [] && error == None
      modifies this
      ensures Valid() && fresh(Repr - old(Repr)) && unchanged(`approvals)
      ensures Reflects(RunSteps(steps, stepPayload, behaviour, |steps|), results, agentFlaggedReview, failedAgent)
    {
      agentFlaggedReview, results, failedAgent := false, map[], None;
      var i := 0;
      ghost var p := RunSteps(steps, stepPayload, behaviour, 0);
      while i < |steps| && failedAgent.None?
        invariant i <= |steps|
        invariant Valid() && fresh(Repr - old(Repr)) && unchanged(`approvals)
        invariant p == RunSteps(steps, stepPayload, behaviour, i)
        invariant Reflects(p, results, agentFlaggedReview, failedAgent)
        decreases |steps| - i
      {
        hide StepOutcome, FinishedRun, RunRows;
        var step := steps[i];
        var outcome := RunStep(step, stepPayload, behaviour(i));
        OutcomeNamesAgent(step.agent, behaviour(i));
        if outcome.output.Some? {
          results := results[step.agent := outcome.output.value];
          if outcome.output.value.requiresHumanReview {
            agentFlaggedReview := true;
          }
        }
        if outcome.status == "failed" {
          status := WorkflowStatus.Failed;
          error := outcome.error;
          result := Some(results);
          failedAgent := Some(step.agent);
        }
        p := Advance(p, step, stepPayload, behaviour(i));
        i := i + 1;
      }
      StopsAtFailure(steps, stepPayload, behaviour, i);
    }

    /** The first approval still pending, in list order. */
    method FindPending() returns (k: nat)
      ensures k == FirstPending(ApprovalRows(approvals))
    {
      k := 0;
      while k < |approvals| && approvals[k].decision != ApprovalDecision.Pending
        invariant k <= |approvals|
        invariant forall i | 0 <= i < k :: approvals[i].decision != ApprovalDecision.Pending
      {
        k := k + 1;
      }
    }

    /** The approval to decide: the pending one, or a new one if none is pending. */
    method PendingOrNew(kind: ApprovalKind) returns (pending: Approval, ghost k: nat)
      requires Valid()
      modifies `approvals, `Repr
      ensures Valid() && fresh(Repr - old(Repr))
      ensures k == FirstPending(old(ApprovalRows(approvals))) && k < |approvals| && pending == approvals[k]
      ensures k < |old(approvals)| ==> approvals == old(approvals)
      ensures k == |old(approvals)| ==>
        && approvals == old(approvals) + [pending]
        && fresh(pending)
        && pending.View() == ApprovalRow(kind, ApprovalDecision.Pending, "workflow:approve", None, None, None)
    {
      k := FirstPending(ApprovalRows(approvals));
      var position := FindPending();
      if position == |approvals| {
        pending := new Approval(kind, "workflow:approve", None);
        approvals := approvals + [pending];
        Repr := Repr + {pending};
      } else {
        pending := approvals[position];
      }
    }

    /** Write a decision on that approval; no other row changes. */
    method WriteDecision(c: Call)
      requires Valid() && c.Decide?
      modifies `approvals, `Repr, approvals
      ensures Valid() && fresh(Repr - old(Repr))
      ensures ApprovalRows(approvals) == DecidedApprovals(old(ApprovalRows(approvals)), c)
    {
      ghost var rows := ApprovalRows(approvals);
      var pending, k := PendingOrNew(KindOf(c.verdict));
      pending.Decide(c.verdict, c.decidedBy, c.reason);
      forall i | 0 <= i < |rows| && i != k
        ensures approvals[i].View() == rows[i]
      {
      }
      assert ApprovalRows(approvals) == DecidedApprovals(rows, c);
    }

    /** Record a decision and move the status: approval completes the workflow. */
    method RecordDecision(c: Call)
      requires Valid() && c.Decide?
      modifies Repr
      ensures Valid() && fresh(Repr - old(Repr))
      ensures View() == DecidedRow(old(View()), c)
    {
      hide DecidedApprovals, ApprovalRows, RunRows;
      WriteDecision(c);
      status := Target(c.verdict);
      if Target(c.verdict) == WorkflowStatus.Approved {
        status := WorkflowStatus.Completed;
      }
    }

    /** Park the workflow with one pending approval. */
    method Park(requiredPermission: string, summary: string)
      requires Valid()
      modifies this
      ensures Valid() && fresh(Repr - old(Repr))
      ensures View() == old(View()).(
        status := WorkflowStatus.AwaitingApproval,
        approvals := [ApprovalRow(ApprovalKind.Approval, ApprovalDecision.Pending, requiredPermission, Some(summary), None, None)])
    {
      status := WorkflowStatus.AwaitingApproval;
      var approval := new Approval(ApprovalKind.Approval, requiredPermission, Some(summary));
      approvals := [approval];
      Repr := Repr + {approval};
      assert ApprovalRows(approvals) == [approval.View()];
      assert RunRows(agentRuns) == old(RunRows(agentRuns));
    }
  }

  class WorkflowService {
    const audit: AuditService?
    var workflows: map<Uuid, Workflow>
    ghost var Repr: set<object>

    ghost predicate Valid()
      reads this, Repr
    {
      && this in Repr
      && (audit != null ==> audit in Repr)
      && (forall id | id in workflows ::
            && workflows[id] in Repr
            && workflows[id].Repr <= Repr - {this, audit}
            && workflows[id].id == id
            && workflows[id].Valid())
      && (forall a, b | a in workflows && b in workflows && a != b :: workflows[a].Repr !! workflows[b].Repr)
    }

    /** The rows and the log as values. */
    ghost function View(): Store
      requires Valid()
      reads this, Repr
    {
      Store(map id | id in workflows :: workflows[id].View(), Log())
    }

    ghost function Log(): seq<AuditEntry>
      reads if audit == null then {} else {audit}
    {
      if audit == null then [] else audit.entries
    }

    constructor (audit: AuditService?)
      requires audit != null ==> audit.entries == []
      ensures Valid() && View() == EMPTY
      ensures this.audit == audit && fresh(Repr - (if audit == null then {} else {audit}))
    {
      this.audit := audit;
      workflows := map[];
      Repr := {this};
      new;
      if audit != null {
        Repr := Repr + {audit};
      }
    }

    /** Log an action, if an audit service is attached; no row changes. */
    method MaybeAudit(action: string, workflow: Workflow, actorId: Option<Uuid>, requestId: Option<string>, context: AuditContext)
      requires Valid()
      modifies if audit == null then {} else {audit}
      ensures Valid()
      ensures View() == Store(old(View()).workflows,
        if audit == null then old(View()).log
        else old(View()).log + [AuditEntry(action, "workflow", workflow.id, actorId, requestId, context)])
    {
      hide Workflow.View, Workflow.Valid;
      if audit == null {
        return;
      }
      var _ := audit.Record(action, workflow.id, actorId, requestId, context);
    }

    method Start(id: Uuid, createdAt: nat, plan: WorkflowPlan, payload: Payload, idText: string,
                 createdBy: Option<Uuid>, requestId: Option<string>, behaviour: nat -> StepResult)
      returns (r: Result<Workflow, WorkflowError>)
      requires Valid()
      modifies Repr
      ensures Valid() && fresh(Repr - old(Repr))
      ensures View() == Step(old(View()), audit != null,
                             Call.Start(id, createdAt, plan, payload, idText, createdBy, requestId, behaviour))
      ensures id in workflows && r == if id in old(workflows) then Err(DuplicateId(id)) else Ok(workflows[id])
    {
      hide StartedRow, StartEntry, Workflow.View, Workflow.Valid, Step, View, Valid;
      var call := Call.Start(id, createdAt, plan, payload, idText, createdBy, requestId, behaviour);
      OwnRows();
      if id in workflows {
        RefusedStep(View(), audit != null, call);
        return Err(DuplicateId(id));
      }
      StartStep(View(), audit != null, call);
      var workflow := new Workflow(id, plan.workflowType, payload, plan.requiresHumanApproval, createdBy, createdAt);
      var action, context := ExecutePlan(workflow, call);
      Add(workflow);
      MaybeAudit(action, workflow, createdBy, requestId, context);
      r := Ok(workflow);
    }

    /** Run the plan and settle the status: failed, parked for a human, or completed. */
    method ExecutePlan(workflow: Workflow, c: Call) returns (action: string, context: AuditContext)
      requires c.Start? && workflow.Valid() && workflow.id == c.id
      requires workflow.View() == WorkflowRow(c.plan.workflowType, WorkflowStatus.Running, c.payload,
                                              c.plan.requiresHumanApproval, c.createdBy, c.createdAt, None, None, [], [])
      modifies workflow
      ensures workflow.Valid() && workflow in workflow.Repr && fresh(workflow.Repr - old(workflow.Repr))
      ensures workflow.View() == StartedRow(c)
      ensures AuditEntry(action, "workflow", c.id, c.createdBy, c.requestId, context) == StartEntry(c)
    {
      var results, agentFlaggedReview, failedAgent :=
        workflow.ExecuteSteps(c.plan.steps, c.payload["workflow_id" := c.idText], c.behaviour);
      if failedAgent.Some? {
        action, context := "workflow.failed", FailedAgent(failedAgent.value);
        return;
      }
      workflow.result := Some(results);
      var needsApproval := c.plan.requiresHumanApproval || agentFlaggedReview;
      if needsApproval {
        workflow.Park(OrElse(c.plan.approvalPermission, "workflow:approve"), c.plan.rationale);
        action := "workflow.awaiting_approval";
      } else {
        workflow.status := WorkflowStatus.Completed;
        action := "workflow.completed";
      }
      context := RequiresApproval(needsApproval);
    }

    /** Put a new workflow's row into the table. */
    method Add(workflow: Workflow)
      requires Valid() && workflow.Valid() && workflow in workflow.Repr && workflow.Repr !! Repr && workflow.id !in workflows
      modifies this
      ensures Valid() && Repr == old(Repr) + workflow.Repr
      ensures workflows == old(workflows)[workflow.id := workflow]
      ensures View() == Store(old(View()).workflows[workflow.id := old(workflow.View())], old(Log()))
    {
      hide Workflow.View, Workflow.Valid;
      ghost var before, row := View(), workflow.View();
      workflows := workflows[workflow.id := workflow];
      Repr := Repr + workflow.Repr;
      assert Valid();
      assert View().workflows == before.workflows[workflow.id := row];
    }

    /** Since the earlier state, only the objects of workflow `id` and new ones were written. */
    twostate predicate OnlyWrote(id: Uuid)
      requires old(Valid())
      reads this, Repr
    {
      && unchanged(`workflows)
      && id in workflows
      && workflows[id] in Repr
      && Repr == old(Repr) + workflows[id].Repr
      && fresh(workflows[id].Repr - old(workflows[id].Repr))
      && (audit != null ==> unchanged(audit))
      && forall x, o | x in workflows && x != id && o in old(workflows[x].Repr) :: unchanged(o)
    }

    /** That keeps the service valid ... */
    twostate lemma StaysValid(id: Uuid)
      requires old(Valid()) && OnlyWrote(id) && workflows[id].Valid()
      ensures Valid()
    {
      hide Workflow.View;
      forall x | x in workflows && x != id
        ensures workflows[x].Repr == old(workflows[x].Repr) && workflows[x].Valid()
      {
        assert workflows[x] in old(workflows[x].Repr);
      }
      hide Workflow.Valid;
    }

    /** ... and changes that one row of the store. */
    twostate lemma OneRowChanged(id: Uuid)
      requires old(Valid()) && OnlyWrote(id) && Valid()
      ensures View() == Store(old(View()).workflows[id := workflows[id].View()], old(View()).log)
    {
      hide Workflow.View;
      forall x | x in workflows && x != id
        ensures workflows[x].View() == old(workflows[x].View())
      {
        assert workflows[x] in old(workflows[x].Repr);
        assert workflows[x].Valid() && old(workflows[x].Valid());
      }
      hide Valid;
    }

    method Decide(id: Uuid, verdict: Verdict, decidedBy: Uuid, reason: Option<string>, requestId: Option<string>)
      returns (r: Result<Workflow, WorkflowError>)
      requires Valid()
      modifies Repr
      ensures Valid() && fresh(Repr - old(Repr))
      ensures View() == Step(old(View()), audit != null, Call.Decide(id, verdict, decidedBy, reason, requestId))
      ensures workflows == old(workflows)
      ensures var refusal := Refusal(old(View()).workflows, Call.Decide(id, verdict, decidedBy, reason, requestId));
        if refusal.Some? then r == Err(refusal.value) else id in workflows && r == Ok(workflows[id])
    {
      hide DecidedRow, Workflow.View, Workflow.Valid, Step, Refusal, View, Valid;
      var call := Call.Decide(id, verdict, decidedBy, reason, requestId);
      ReadsRefusal(call);
      OwnRows();
      if id !in workflows {
        RefusedStep(View(), audit != null, call);
        return Err(NotFound(id));
      }
      var workflow := workflows[id];
      if !Decidable(workflow.status) {
        RefusedStep(View(), audit != null, call);
        return Err(InvalidState(id, workflow.status));
      }
      DecideStep(View(), audit != null, call);
      workflow.RecordDecision(call);
      Repr := Repr + workflow.Repr;
      StaysValid(id);
      OneRowChanged(id);
      MaybeAudit(DecisionAction(verdict), workflow, Some(decidedBy), requestId, Reason(reason.GetOr("")));
      r := Ok(workflow);
    }

    /** What the invariant says of the row objects: each is this service's, and no two workflows share one. */
    lemma OwnRows()
      requires Valid()
      ensures this in Repr && (audit != null ==> audit in Repr)
      ensures forall id | id in workflows ::
        && workflows[id].Valid()
        && workflows[id] in Repr
        && workflows[id].id == id
        && workflows[id].Repr <= Repr - {this, audit}
      ensures forall a, b, o | a in workflows && b in workflows && a != b && o in workflows[a].Repr :: o !in workflows[b].Repr
      ensures View().log == Log()
      ensures View().workflows.Keys == workflows.Keys
      ensures forall id | id in workflows :: View().workflows[id] == workflows[id].View()
    {
    }

    /** The guard on the row object is the guard on its value. */
    lemma ReadsRefusal(c: Call)
      requires Valid() && c.Decide?
      ensures Refusal(View().workflows, c) ==
        if c.id !in workflows then Some(NotFound(c.id))
        else if !Decidable(workflows[c.id].status) then Some(InvalidState(c.id, workflows[c.id].status))
        else None
    {
    }
  }

  lemma RefusedStep(s: Store, audited: bool, c: Call)
    requires Refusal(s.workflows, c).Some?
    ensures Step(s, audited, c) == s
  {
  }

  lemma StartStep(s: Store, audited: bool, c: Call)
    requires c.Start? && c.id !in s.workflows
    ensures Step(s, audited, c)
         == Store(s.workflows[c.id := StartedRow(c)], if audited then s.log + [StartEntry(c)] else s.log)
  {
  }

  lemma DecideStep(s: Store, audited: bool, c: Call)
    requires c.Decide? && Refusal(s.workflows, c).None?
    ensures Step(s, audited, c)
         == Store(s.workflows[c.id := DecidedRow(s.workflows[c.id], c)], if audited then s.log + [DecisionEntry(c)] else s.log)
  {
  }

  lemma OutcomeNamesAgent(agent: string, step: StepResult)
    ensures StepOutcome(agent, step).agentName == agent
  {
  }

  /** Once an agent has failed, the remaining steps add nothing. */
  lemma {:induction false} StopsAtFailure(steps: seq<PlanStep>, input: Payload, behaviour: nat -> StepResult, n: nat)
    requires n <= |steps|
    requires n < |steps| ==> RunSteps(steps, input, behaviour, n).failure.Some?
    ensures RunSteps(steps, input, behaviour, |steps|) == RunSteps(steps, input, behaviour, n)
    decreases |steps| - n
  {
    if n < |steps| {
      StopsAtFailure(steps, input, behaviour, n + 1);
    }
  }
}
