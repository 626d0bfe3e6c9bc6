/** What the step loop of `start` leaves behind, for any plan and any agent behaviour. */
module PlanExecution {
  import opened Prelude
  import opened Agents
  import opened WorkflowModel

  predicate StepFails(behaviour: nat -> StepResult, k: nat) {
    !(behaviour(k).Executed? && behaviour(k).result.Returned?)
  }

  predicate AsksForReview(behaviour: nat -> StepResult, k: nat) {
    !StepFails(behaviour, k) && behaviour(k).result.output.requiresHumanReview
  }

  predicate Flagged(run: RunRow) {
    run.output.Some? && run.output.value.requiresHumanReview
  }

  /** The error says why the step failed: an agent error in its own words, anything else with its type first. */
  predicate TellsWhy(error: Option<string>, step: StepResult) {
    match step
    case Executed(Returned(_)) => error == None
    case Executed(RaisedAgentError(message)) => error == Some(message)
    case Executed(RaisedOther(typeName, message)) => error == Some(typeName + ": " + message)
    case Escaped(typeName, message) => error == Some(typeName + ": " + message)
  }

  /** Row i is finished, belongs to plan step i, and holds what agent i did. */
  predicate RowOfStep(run: RunRow, step: PlanStep, input: Payload, behaviour: nat -> StepResult, i: nat) {
    && run.agentName == step.agent
    && run.input == input
    && TellsWhy(run.error, behaviour(i))
    && (StepFails(behaviour, i) ==> run.status == AgentRunStatus.Failed && run.output == None)
    && (!StepFails(behaviour, i) ==>
          run.status == AgentRunStatus.Succeeded && run.output == Some(behaviour(i).result.output))
  }

  /** The rows so far are those of the first steps, and the loop goes on exactly while no agent has failed. */
  predicate FollowsPlan(p: Progress, steps: seq<PlanStep>, input: Payload, behaviour: nat -> StepResult, n: nat)
    requires n <= |steps|
  {
    && |p.runs| <= n
    && (forall i | 0 <= i < |p.runs| :: RowOfStep(p.runs[i], steps[i], input, behaviour, i))
    && (forall i | 0 <= i < |p.runs| - 1 :: !StepFails(behaviour, i))
    && (p.failure.None? <==> forall i | 0 <= i < n :: !StepFails(behaviour, i))
    && (p.failure.None? ==> |p.runs| == n)
    && (p.failure.Some? ==>
          && |p.runs| > 0
          && StepFails(behaviour, |p.runs| - 1)
          && p.failure.value.error == p.runs[|p.runs| - 1].error
          && p.failure.value.agentName == steps[|p.runs| - 1].agent)
  }

  lemma AdvanceFollowsPlan(p: Progress, steps: seq<PlanStep>, input: Payload, behaviour: nat -> StepResult, n: nat)
    requires n < |steps| && FollowsPlan(p, steps, input, behaviour, n) && p.failure.None?
    ensures FollowsPlan(Advance(p, steps[n], input, behaviour(n)), steps, input, behaviour, n + 1)
  {
    var p' := Advance(p, steps[n], input, behaviour(n));
    assert RowOfStep(p'.runs[n], steps[n], input, behaviour, n);
    hide RowOfStep;
    assert forall i | 0 <= i < n :: p'.runs[i] == p.runs[i];
  }

  /**
   * The rows are a prefix of the plan, in order, each finished; every row but the
   * last succeeded; and the loop stopped early exactly at the first agent that failed.
   */
  lemma {:induction false} RunsFollowPlan(steps: seq<PlanStep>, input: Payload, behaviour: nat -> StepResult, n: nat)
    requires n <= |steps|
    ensures FollowsPlan(RunSteps(steps, input, behaviour, n), steps, input, behaviour, n)
  {
    hide RowOfStep, Advance;
    if n > 0 {
      RunsFollowPlan(steps, input, behaviour, n - 1);
      var before := RunSteps(steps, input, behaviour, n - 1);
      if before.failure.None? {
        AdvanceFollowsPlan(before, steps, input, behaviour, n - 1);
      }
    }
  }

  /** The review flag is raised exactly if some recorded output asks for review. */
  lemma {:induction false} FlagComesFromARun(steps: seq<PlanStep>, input: Payload, behaviour: nat -> StepResult, n: nat)
    requires n <= |steps|
    ensures var p := RunSteps(steps, input, behaviour, n);
      p.flagged <==> exists i :: 0 <= i < |p.runs| && Flagged(p.runs[i])
  {
    if n > 0 {
      FlagComesFromARun(steps, input, behaviour, n - 1);
      var before, p := RunSteps(steps, input, behaviour, n - 1), RunSteps(steps, input, behaviour, n);
      if before.failure.None? {
        assert forall i | 0 <= i < |before.runs| :: p.runs[i] == before.runs[i];
        assert Flagged(p.runs[|before.runs|]) <==>
          StepOutcome(steps[n - 1].agent, behaviour(n - 1)).output.Some?
          && StepOutcome(steps[n - 1].agent, behaviour(n - 1)).output.value.requiresHumanReview;
      }
    }
  }

  /** Row i is the latest success of the agent called `agent`, and `output` is what it returned. */
  predicate LatestSuccess(runs: seq<RunRow>, agent: string, i: nat, output: Output) {
    && i < |runs|
    && runs[i].agentName == agent
    && runs[i].output == Some(output)
    && forall j | i < j < |runs| :: runs[j].agentName == agent ==> runs[j].output.None?
  }

  /** The stored outputs are exactly those of the agents that succeeded, the latest one each. */
  ghost predicate ResultsMatch(results: map<string, Output>, runs: seq<RunRow>) {
    && (forall i | 0 <= i < |runs| :: runs[i].output.Some? ==> runs[i].agentName in results)
    && (forall agent | agent in results :: exists i: nat :: LatestSuccess(runs, agent, i, results[agent]))
  }

  lemma {:induction false} ResultsAreSuccesses(steps: seq<PlanStep>, input: Payload, behaviour: nat -> StepResult, n: nat)
    requires n <= |steps|
    ensures ResultsMatch(RunSteps(steps, input, behaviour, n).results, RunSteps(steps, input, behaviour, n).runs)
  {
    if n > 0 {
      ResultsAreSuccesses(steps, input, behaviour, n - 1);
      var before := RunSteps(steps, input, behaviour, n - 1);
      if before.failure.None? {
        AdvanceKeepsResults(before, steps[n - 1], input, behaviour(n - 1));
      }
    }
  }

  lemma AdvanceKeepsResults(before: Progress, step: PlanStep, input: Payload, result: StepResult)
    requires ResultsMatch(before.results, before.runs)
    ensures var p := Advance(before, step, input, result); ResultsMatch(p.results, p.runs)
  {
    var p := Advance(before, step, input, result);
    var m := |before.runs|;
    assert p.runs[..m] == before.runs;
    assert forall i | 0 <= i < m :: p.runs[i] == before.runs[i];
    forall agent | agent in p.results
      ensures exists i: nat :: LatestSuccess(p.runs, agent, i, p.results[agent])
    {
      if agent == step.agent && p.runs[m].output.Some? {
        assert LatestSuccess(p.runs, agent, m, p.results[agent]);
      } else {
        var i: nat :| LatestSuccess(before.runs, agent, i, before.results[agent]);
        assert LatestSuccess(p.runs, agent, i, p.results[agent]);
      }
    }
  }

  /** With distinct agents in the plan, each result is that agent's own run. */
  lemma DistinctAgentsKeepTheirOutput(steps: seq<PlanStep>, input: Payload, behaviour: nat -> StepResult, i: nat)
    requires forall a, b | 0 <= a < b < |steps| :: steps[a].agent != steps[b].agent
    requires i < |steps|
    ensures var p := RunSteps(steps, input, behaviour, |steps|);
      steps[i].agent in p.results <==> i < |p.runs| && p.runs[i].output.Some?
    ensures var p := RunSteps(steps, input, behaviour, |steps|);
      steps[i].agent in p.results ==> p.runs[i].output == Some(p.results[steps[i].agent])
  {
    hide RunSteps;
    RunsFollowPlan(steps, input, behaviour, |steps|);
    ResultsAreSuccesses(steps, input, behaviour, |steps|);
    var p := RunSteps(steps, input, behaviour, |steps|);
    if steps[i].agent in p.results {
      var j: nat :| LatestSuccess(p.runs, steps[i].agent, j, p.results[steps[i].agent]);
      assert p.runs[j].agentName == steps[j].agent;
    }
  }

  /** A workflow that ran is FAILED iff an agent failed, and otherwise complete at once iff nothing asks for a human. */
  lemma StartDecidesStatus(c: Call)
    requires c.Start?
    ensures var w := StartedRow(c);
      && (w.status == WorkflowStatus.Failed <==> exists i :: 0 <= i < |c.plan.steps| && StepFails(c.behaviour, i))
      && (w.status == WorkflowStatus.Failed <==>
            exists i :: 0 <= i < |w.agentRuns| && w.agentRuns[i].status == AgentRunStatus.Failed)
      && (w.status == WorkflowStatus.Completed <==>
            (forall i | 0 <= i < |c.plan.steps| :: !StepFails(c.behaviour, i))
            && !c.plan.requiresHumanApproval
            && forall i | 0 <= i < |c.plan.steps| :: !AsksForReview(c.behaviour, i))
      && (w.status !in {WorkflowStatus.Failed, WorkflowStatus.Completed} ==> w.status == WorkflowStatus.AwaitingApproval)
      && (w.status == WorkflowStatus.Failed ==>
            |w.agentRuns| > 0 && w.error.Some? && w.error == w.agentRuns[|w.agentRuns| - 1].error)
      && (w.status != WorkflowStatus.Failed ==> w.error == None && |w.agentRuns| == |c.plan.steps|)
  {
    hide RunSteps;
    var steps, input := c.plan.steps, StepPayload(c);
    var p := FinalProgress(c);
    RunsFollowPlan(steps, input, c.behaviour, |steps|);
    FlagComesFromARun(steps, input, c.behaviour, |steps|);
    assert forall i | 0 <= i < |p.runs| :: RowOfStep(p.runs[i], steps[i], input, c.behaviour, i);
    if p.failure.Some? {
      assert p.runs[|p.runs| - 1].status == AgentRunStatus.Failed;
    } else {
      assert p.flagged <==> exists i :: 0 <= i < |steps| && AsksForReview(c.behaviour, i) by {
        if p.flagged {
          var i :| 0 <= i < |p.runs| && Flagged(p.runs[i]);
          assert AsksForReview(c.behaviour, i);
        }
        if i: nat :| i < |steps| && AsksForReview(c.behaviour, i) {
          assert Flagged(p.runs[i]);
        }
      }
    }
  }

  /** The row is what this start call leaves: its plan, payload and creator, its runs, and what its agents returned. */
  ghost predicate StartedBy(w: WorkflowRow, c: Call)
    requires c.Start?
  {
    && w.workflowType == c.plan.workflowType
    && w.inputPayload == c.payload
    && w.requiresHumanApproval == c.plan.requiresHumanApproval
    && w.createdBy == c.createdBy
    && w.createdAt == c.createdAt
    && |w.agentRuns| <= |c.plan.steps|
    && (forall i | 0 <= i < |w.agentRuns| ::
          RowOfStep(w.agentRuns[i], c.plan.steps[i], c.payload["workflow_id" := c.idText], c.behaviour, i))
    && (|w.agentRuns| < |c.plan.steps| ==> |w.agentRuns| > 0 && StepFails(c.behaviour, |w.agentRuns| - 1))
    && w.result.Some?
    && ResultsMatch(w.result.value, w.agentRuns)
    && w.error == (if |w.agentRuns| > 0 && StepFails(c.behaviour, |w.agentRuns| - 1)
                   then w.agentRuns[|w.agentRuns| - 1].error else None)
  }

  /** Whatever the plan and the agents, `start` stores its input, and the outputs of exactly the agents that succeeded. */
  lemma StartStoresWhatRan(c: Call)
    requires c.Start?
    ensures StartedBy(StartedRow(c), c)
  {
    hide RunSteps, RowOfStep, ResultsMatch;
    RunsFollowPlan(c.plan.steps, StepPayload(c), c.behaviour, |c.plan.steps|);
    ResultsAreSuccesses(c.plan.steps, StepPayload(c), c.behaviour, |c.plan.steps|);
  }
}
