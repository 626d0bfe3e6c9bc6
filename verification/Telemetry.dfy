/**
 * Telemetry sinks and the cost ledger. A sink is offered records; faults (an
 * exception in the sink, a failed database session) lose a record and nothing else.
 */
module Telemetry {
  import opened Prelude
  import opened Routing
  import Cost

  datatype ModelCallRow = ModelCallRow(id: Uuid, record: ModelCallRecord)

  datatype CostRow = CostRow(modelCallId: Uuid, provider: string, model: string, totalTokens: int, estimatedCostUsd: real)

  /** The tables behind the database observer. */
  datatype Ledger = Ledger(calls: seq<ModelCallRow>, costs: seq<CostRow>)

  const EMPTY_LEDGER := Ledger([], [])

  /** The row the session writes for a record, without the cost, which the table does not hold. */
  function CallRow(id: Uuid, r: ModelCallRecord): ModelCallRow {
    ModelCallRow(id, r.(estimatedCostUsd := 0.0))
  }

  function CostRowFor(id: Uuid, r: ModelCallRecord): CostRow {
    CostRow(id, r.provider, r.model, r.promptTokens + r.completionTokens, r.estimatedCostUsd)
  }

  /** One committed session: the call, and its cost if it succeeded and was priced above zero. */
  function Persist(l: Ledger, r: ModelCallRecord): Ledger {
    var id := |l.calls|;
    Ledger(
      l.calls + [CallRow(id, r)],
      if r.success && r.estimatedCostUsd > 0.0 then l.costs + [CostRowFor(id, r)] else l.costs)
  }

  function PersistAll(l: Ledger, records: seq<ModelCallRecord>): Ledger {
    if records == [] then l else Persist(PersistAll(l, records[..|records| - 1]), records[|records| - 1])
  }

  /** The records that get through, when offer number `first + k` is lost iff `faults` says so. */
  function Surviving(records: seq<ModelCallRecord>, first: nat, faults: nat -> bool): seq<ModelCallRecord> {
    if records == [] then []
    else
      var n := |records| - 1;
      Surviving(records[..n], first, faults) + if faults(first + n) then [] else [records[n]]
  }

  lemma SurvivingAppend(records: seq<ModelCallRecord>, r: ModelCallRecord, first: nat, faults: nat -> bool)
    ensures Surviving(records + [r], first, faults)
         == Surviving(records, first, faults) + if faults(first + |records|) then [] else [r]
  {
    assert (records + [r])[..|records|] == records;
  }

  lemma PersistAppend(l: Ledger, records: seq<ModelCallRecord>, r: ModelCallRecord)
    ensures PersistAll(l, records + [r]) == Persist(PersistAll(l, records), r)
    ensures PersistAll(l, records + []) == PersistAll(l, records)
  {
    assert (records + [r])[..|records|] == records;
    assert records + [] == records;
  }

  datatype Sink = NullSink | MemorySink | DatabaseSink

  /** `NullObserver`, `InMemoryObserver` and `DbRouterObserver`; `faults` decides which offers go wrong. */
  class RouterObserver {
    const sink: Sink
    const faults: nat -> bool
    /** Every record offered so far. */
    ghost var offered: seq<ModelCallRecord>
    var seen: nat
    var records: seq<ModelCallRecord>
    var ledger: Ledger

    ghost predicate Valid()
      reads this
    {
      && seen == |offered|
      && records == (if sink == MemorySink then Surviving(offered, 0, faults) else [])
      && ledger == (if sink == DatabaseSink then PersistAll(EMPTY_LEDGER, Surviving(offered, 0, faults)) else EMPTY_LEDGER)
    }

    constructor (sink: Sink, faults: nat -> bool)
      ensures Valid() && offered == [] && this.sink == sink && this.faults == faults
    {
      this.sink, this.faults := sink, faults;
      offered, seen, records, ledger := [], 0, [], EMPTY_LEDGER;
    }

    /** The database sink swallows its own faults; the in-memory sink lets them out. */
    method Record(r: ModelCallRecord) returns (raised: bool)
      requires Valid()
      modifies this
      ensures Valid() && offered == old(offered) + [r]
      ensures raised <==> sink == MemorySink && faults(old(seen))
    {
      hide Surviving, PersistAll, Persist;
      var fault := faults(seen);
      ghost var survivors := Surviving(offered, 0, faults);
      SurvivingAppend(offered, r, 0, faults);
      PersistAppend(EMPTY_LEDGER, survivors, r);
      assert survivors + [] == survivors;
      offered, seen := offered + [r], seen + 1;
      if sink == MemorySink && !fault {
        records := records + [r];
      }
      if sink == DatabaseSink && !fault {
        ledger := Persist(ledger, r);
      }
      raised := sink == MemorySink && fault;
    }
  }

  // ----- The ledger reconciles -----

  function CostTotal(costs: seq<CostRow>): real {
    if costs == [] then 0.0 else CostTotal(costs[..|costs| - 1]) + costs[|costs| - 1].estimatedCostUsd
  }

  function EstimateTotal(records: seq<ModelCallRecord>): real {
    if records == [] then 0.0
    else EstimateTotal(records[..|records| - 1]) + records[|records| - 1].estimatedCostUsd
  }

  /** The cost row belongs to this call: a success with the same provider, model and tokens. */
  predicate Pays(c: CostRow, call: ModelCallRow) {
    && c.modelCallId == call.id
    && call.record.success
    && c.provider == call.record.provider
    && c.model == call.record.model
    && c.totalTokens == call.record.promptTokens + call.record.completionTokens
    && c.estimatedCostUsd > 0.0
  }

  predicate LedgerInvariant(l: Ledger) {
    && (forall i | 0 <= i < |l.calls| :: l.calls[i].id == i)
    && (forall k | 0 <= k < |l.costs| :: l.costs[k].modelCallId < |l.calls| && Pays(l.costs[k], l.calls[l.costs[k].modelCallId]))
    && (forall j, k | 0 <= j < k < |l.costs| :: l.costs[j].modelCallId < l.costs[k].modelCallId)
  }

  lemma PersistKeepsInvariant(l: Ledger, r: ModelCallRecord)
    requires LedgerInvariant(l)
    ensures LedgerInvariant(Persist(l, r))
  {
    var after := Persist(l, r);
    assert forall i | 0 <= i < |l.calls| :: after.calls[i] == l.calls[i];
    assert after.calls[|l.calls|] == CallRow(|l.calls|, r);
    forall k | 0 <= k < |after.costs|
      ensures after.costs[k].modelCallId < |after.calls| && Pays(after.costs[k], after.calls[after.costs[k].modelCallId])
    {
      if k < |l.costs| {
        assert after.costs[k] == l.costs[k];
      }
    }
  }

  /** The call row holds every field of the record but the cost, which the table has no column for. */
  predicate Holds(call: ModelCallRow, r: ModelCallRecord) {
    var c := call.record;
    && c.provider == r.provider && c.model == r.model && c.routingPolicy == r.routingPolicy
    && c.usedFallback == r.usedFallback && c.fallbackReason == r.fallbackReason
    && c.promptTokens == r.promptTokens && c.completionTokens == r.completionTokens && c.latencyMs == r.latencyMs
    && c.success == r.success && c.error == r.error && c.promptVersion == r.promptVersion && c.agentRunId == r.agentRunId
  }

  /** One call row for each record, in order; a cost row exactly for each priced success, of its amount. */
  predicate LedgerTells(l: Ledger, records: seq<ModelCallRecord>) {
    && |l.calls| == |records|
    && (forall i | 0 <= i < |records| :: l.calls[i].id == i && Holds(l.calls[i], records[i]))
    && (forall k | 0 <= k < |l.costs| ::
          && l.costs[k].modelCallId < |records|
          && l.costs[k].estimatedCostUsd == records[l.costs[k].modelCallId].estimatedCostUsd)
    && (forall i: nat | i < |records| && records[i].success && records[i].estimatedCostUsd > 0.0 :: HasCost(l.costs, i))
  }

  predicate HasCost(costs: seq<CostRow>, id: Uuid) {
    exists k | 0 <= k < |costs| :: costs[k].modelCallId == id
  }

  lemma PersistTells(l: Ledger, records: seq<ModelCallRecord>, r: ModelCallRecord)
    requires LedgerTells(l, records)
    ensures LedgerTells(Persist(l, r), records + [r])
  {
    var after, all := Persist(l, r), records + [r];
    forall k | 0 <= k < |after.costs|
      ensures after.costs[k].modelCallId < |all|
      ensures after.costs[k].estimatedCostUsd == all[after.costs[k].modelCallId].estimatedCostUsd
    {
      assert k < |l.costs| ==> after.costs[k] == l.costs[k];
    }
    forall i: nat | i < |all| && all[i].success && all[i].estimatedCostUsd > 0.0
      ensures HasCost(after.costs, i)
    {
      if i < |records| {
        assert HasCost(l.costs, i);
        var k :| 0 <= k < |l.costs| && l.costs[k].modelCallId == i;
        assert after.costs[k] == l.costs[k];
      } else {
        assert after.costs[|l.costs|].modelCallId == i;
      }
    }
  }

  /** The tables hold the records in order, and each cost row points at its own successful call; no call is paid twice. */
  lemma {:induction false} CostRowsPointToCalls(records: seq<ModelCallRecord>)
    ensures LedgerInvariant(PersistAll(EMPTY_LEDGER, records))
    ensures LedgerTells(PersistAll(EMPTY_LEDGER, records), records)
  {
    hide LedgerInvariant, LedgerTells, Persist;
    if records == [] {
      EmptyLedgerTells();
    } else {
      var init, last := records[..|records| - 1], records[|records| - 1];
      CostRowsPointToCalls(init);
      PersistKeepsInvariant(PersistAll(EMPTY_LEDGER, init), last);
      PersistTells(PersistAll(EMPTY_LEDGER, init), init, last);
      assert records == init + [last];
    }
  }

  lemma EmptyLedgerTells()
    ensures LedgerInvariant(EMPTY_LEDGER) && LedgerTells(EMPTY_LEDGER, [])
  {
  }

  /** Every persisted success is priced at no less than zero; failures carry no cost. */
  predicate NoNegativeEstimates(records: seq<ModelCallRecord>) {
    forall i | 0 <= i < |records| :: records[i].estimatedCostUsd >= 0.0
  }

  predicate FailuresAreFree(records: seq<ModelCallRecord>) {
    forall i | 0 <= i < |records| :: !records[i].success ==> records[i].estimatedCostUsd == 0.0
  }

  /** The cost table holds exactly the estimates, unless a negative estimate was left out of it. */
  lemma {:induction false} LedgerTotalIff(records: seq<ModelCallRecord>)
    requires FailuresAreFree(records)
    ensures CostTotal(PersistAll(EMPTY_LEDGER, records).costs) >= EstimateTotal(records)
    ensures CostTotal(PersistAll(EMPTY_LEDGER, records).costs) == EstimateTotal(records) <==> NoNegativeEstimates(records)
  {
    if records != [] {
      var init, r := records[..|records| - 1], records[|records| - 1];
      LedgerTotalIff(init);
      var before := PersistAll(EMPTY_LEDGER, init);
      var after := Persist(before, r);
      if r.success && r.estimatedCostUsd > 0.0 {
        assert after.costs[..|before.costs|] == before.costs;
      }
      assert NoNegativeEstimates(records) <==> NoNegativeEstimates(init) && r.estimatedCostUsd >= 0.0;
    }
  }

  lemma {:induction false} NoFaultsLoseNothing(records: seq<ModelCallRecord>, first: nat, faults: nat -> bool)
    requires forall k :: !faults(k)
    ensures Surviving(records, first, faults) == records
  {
    if records != [] {
      var init, last := records[..|records| - 1], records[|records| - 1];
      assert records == init + [last];
      NoFaultsLoseNothing(init, first, faults);
      SurvivingAppend(init, last, first, faults);
    }
  }

  // ----- Over whole runs of the router -----

  datatype RoutingCall = RoutingCall(providers: seq<Provider>, request: CompletionRequest, policy: string, agentRunId: Option<Uuid>)

  function TraceOf(c: RoutingCall): seq<ModelCallRecord> {
    Trace(c.providers, c.request, c.policy, c.agentRunId)
  }

  function TraceAll(calls: seq<RoutingCall>): seq<ModelCallRecord> {
    if calls == [] then [] else TraceAll(calls[..|calls| - 1]) + TraceOf(calls[|calls| - 1])
  }

  /** Every provider reports token counts that are not negative. */
  predicate CountsTokens(c: RoutingCall) {
    forall i | 0 <= i < |c.providers| ::
      c.providers[i].reply.Returns? ==>
        c.providers[i].reply.result.promptTokens >= 0 && c.providers[i].reply.result.completionTokens >= 0
  }

  /** What the served completions of a run are estimated to cost: one charge per success. */
  function SpentOn(calls: seq<RoutingCall>): real {
    if calls == [] then 0.0
    else
      var c := calls[|calls| - 1];
      var r := Routed(c.providers, c.policy);
      SpentOn(calls[..|calls| - 1])
      + if r.Ok? then Cost.EstimateCost(r.value.provider, r.value.model, r.value.promptTokens, r.value.completionTokens)
        else 0.0
  }

  lemma {:induction false} EstimateTotalConcat(a: seq<ModelCallRecord>, b: seq<ModelCallRecord>)
    ensures EstimateTotal(a + b) == EstimateTotal(a) + EstimateTotal(b)
  {
    if b == [] {
      assert a + b == a;
    } else {
      EstimateTotalConcat(a, b[..|b| - 1]);
      assert (a + b)[..|a + b| - 1] == a + b[..|b| - 1];
    }
  }

  lemma {:induction false} FreeRecordsTotal(records: seq<ModelCallRecord>)
    requires forall i | 0 <= i < |records| :: records[i].estimatedCostUsd == 0.0
    ensures EstimateTotal(records) == 0.0
  {
    if records != [] {
      FreeRecordsTotal(records[..|records| - 1]);
    }
  }

  /** One completion's records add up to what its success costs; none is negative. */
  lemma TraceCost(c: RoutingCall)
    ensures FailuresAreFree(TraceOf(c))
    ensures EstimateTotal(TraceOf(c)) == SpentOn([c])
    ensures CountsTokens(c) ==> NoNegativeEstimates(TraceOf(c))
  {
    hide Trace, Routed, FirstWorking, FailureRecords, SuccessRecord, EstimateTotal, SpentOn, Cost.EstimateCost;
    var i := FirstWorking(c.providers);
    var failures := FailureRecords(c.providers, i, c.request, c.policy, c.agentRunId);
    FreeRecordsTotal(failures);
    SpentOnOne(c);
    if i < |c.providers| {
      var r := Annotated(c.providers, i);
      var s := SuccessRecord(r, c.request, c.policy, c.agentRunId);
      SuccessAt(c.providers, i, c.request, c.policy, c.agentRunId);
      OneMoreCost(failures, s);
      CostOfSuccess(c, r);
      if CountsTokens(c) {
        Cost.EstimateNonNegative(r.provider, r.model, r.promptTokens, r.completionTokens);
      }
    } else {
      NoSuccess(c.providers, c.request, c.policy, c.agentRunId);
    }
  }

  lemma SpentOnOne(c: RoutingCall)
    ensures var r := Routed(c.providers, c.policy);
      SpentOn([c]) ==
        if r.Ok? then Cost.EstimateCost(r.value.provider, r.value.model, r.value.promptTokens, r.value.completionTokens)
        else 0.0
  {
    hide Routed, Cost.EstimateCost;
    assert [c][..0] == [];
    assert SpentOn([]) == 0.0;
  }

  lemma OneMoreCost(records: seq<ModelCallRecord>, s: ModelCallRecord)
    ensures EstimateTotal(records + [s]) == EstimateTotal(records) + s.estimatedCostUsd
  {
    assert (records + [s])[..|records|] == records;
  }

  lemma CostOfSuccess(c: RoutingCall, r: CompletionResult)
    ensures var s := SuccessRecord(r, c.request, c.policy, c.agentRunId);
      && s.success
      && s.estimatedCostUsd == Cost.EstimateCost(r.provider, r.model, r.promptTokens, r.completionTokens)
  {
    hide Cost.EstimateCost;
  }

  lemma {:induction false} RunCost(calls: seq<RoutingCall>)
    ensures FailuresAreFree(TraceAll(calls))
    ensures EstimateTotal(TraceAll(calls)) == SpentOn(calls)
    ensures (forall i | 0 <= i < |calls| :: CountsTokens(calls[i])) ==> NoNegativeEstimates(TraceAll(calls))
  {
    hide TraceOf, Routed, Cost.EstimateCost, EstimateTotal, SpentOn, CountsTokens, FailuresAreFree, NoNegativeEstimates;
    if calls == [] {
      EmptyRunCost();
    } else {
      var init, c := calls[..|calls| - 1], calls[|calls| - 1];
      RunCost(init);
      TraceCost(c);
      SpentOnAppend(calls);
      EstimateTotalConcat(TraceAll(init), TraceOf(c));
      NoNegativeConcat(TraceAll(init), TraceOf(c));
      FailuresFreeConcat(TraceAll(init), TraceOf(c));
    }
  }

  lemma EmptyRunCost()
    ensures FailuresAreFree([]) && NoNegativeEstimates([]) && EstimateTotal([]) == SpentOn([]) == 0.0
  {
  }

  lemma SpentOnAppend(calls: seq<RoutingCall>)
    requires calls != []
    ensures SpentOn(calls) == SpentOn(calls[..|calls| - 1]) + SpentOn([calls[|calls| - 1]])
  {
    SpentOnOne(calls[|calls| - 1]);
    hide Routed, Cost.EstimateCost;
  }

  lemma FailuresFreeConcat(a: seq<ModelCallRecord>, b: seq<ModelCallRecord>)
    requires FailuresAreFree(a) && FailuresAreFree(b)
    ensures FailuresAreFree(a + b)
  {
  }

  /**
   * The ledger of a whole run: with every session committed and no negative token
   * count, the cost table adds up to the estimated price of the completions served.
   */
  lemma LedgerReconciles(calls: seq<RoutingCall>, faults: nat -> bool)
    requires forall k :: !faults(k)
    requires forall i | 0 <= i < |calls| :: CountsTokens(calls[i])
    ensures var l := PersistAll(EMPTY_LEDGER, Surviving(TraceAll(calls), 0, faults));
      && CostTotal(l.costs) == SpentOn(calls)
      && LedgerTells(l, TraceAll(calls))
      && LedgerInvariant(l)
  {
    NoFaultsLoseNothing(TraceAll(calls), 0, faults);
    RunCost(calls);
    LedgerTotalIff(TraceAll(calls));
    CostRowsPointToCalls(TraceAll(calls));
  }

  /** The completion is served and priced below zero. */
  predicate PricedBelowZero(c: RoutingCall) {
    var r := Routed(c.providers, c.policy);
    r.Ok? && Cost.EstimateCost(r.value.provider, r.value.model, r.value.promptTokens, r.value.completionTokens) < 0.0
  }

  lemma TraceNegativeIff(c: RoutingCall)
    ensures NoNegativeEstimates(TraceOf(c)) <==> !PricedBelowZero(c)
  {
    hide Cost.EstimateCost, FailureReason, EstimatedPromptTokens;
    var i := FirstWorking(c.providers);
    if i < |c.providers| {
      var r := Annotated(c.providers, i);
      SuccessAt(c.providers, i, c.request, c.policy, c.agentRunId);
      CostOfSuccess(c, r);
      assert TraceOf(c)[i] == SuccessRecord(r, c.request, c.policy, c.agentRunId);
    } else {
      NoSuccess(c.providers, c.request, c.policy, c.agentRunId);
    }
  }

  lemma {:induction false} RunNegativeIff(calls: seq<RoutingCall>)
    ensures NoNegativeEstimates(TraceAll(calls)) <==> forall i | 0 <= i < |calls| :: !PricedBelowZero(calls[i])
  {
    hide PricedBelowZero, TraceOf;
    if calls != [] {
      var init, c := calls[..|calls| - 1], calls[|calls| - 1];
      RunNegativeIff(init);
      TraceNegativeIff(c);
      NoNegativeConcat(TraceAll(init), TraceOf(c));
    }
  }

  lemma NoNegativeConcat(a: seq<ModelCallRecord>, b: seq<ModelCallRecord>)
    ensures NoNegativeEstimates(a + b) <==> NoNegativeEstimates(a) && NoNegativeEstimates(b)
  {
    if NoNegativeEstimates(a + b) {
      assert forall i | 0 <= i < |a| :: (a + b)[i] == a[i];
      assert forall i | 0 <= i < |b| :: (a + b)[|a| + i] == b[i];
    }
  }

  /**
   * Over any run of completions without faults, the cost table totals what the served
   * completions are estimated to cost exactly if none of them is priced below zero.
   */
  lemma LedgerReconcilesIff(calls: seq<RoutingCall>)
    ensures var costs := PersistAll(EMPTY_LEDGER, TraceAll(calls)).costs;
      CostTotal(costs) == SpentOn(calls) <==> forall i | 0 <= i < |calls| :: !PricedBelowZero(calls[i])
  {
    hide *;
    RunCost(calls);
    LedgerTotalIff(TraceAll(calls));
    RunNegativeIff(calls);
  }

  /**
   * The condition can fail: the client takes the token counts from the reply unchecked,
   * so a reply that claims -1000 prompt tokens leaves the table above the estimates.
   */
  lemma NegativeCountBreaksLedger(request: CompletionRequest, policy: string, agentRunId: Option<Uuid>, text: string)
    ensures var result := CompletionResult(text, "groq", "mixtral", false, None, -1000, 0, 0);
      var c := RoutingCall([Provider("groq", "mixtral", Answers(true), Returns(result))], request, policy, agentRunId);
      && Routed(c.providers, policy) == Ok(result)
      && CostTotal(PersistAll(EMPTY_LEDGER, TraceOf(c)).costs) > EstimateTotal(TraceOf(c))
  {
    hide Cost.EstimateCost, PersistAll, CostTotal, EstimateTotal;
    var result := CompletionResult(text, "groq", "mixtral", false, None, -1000, 0, 0);
    var c := RoutingCall([Provider("groq", "mixtral", Answers(true), Returns(result))], request, policy, agentRunId);
    Cost.NegativeCountsArePriced();
    TraceCost(c);
    TraceNegativeIff(c);
    assert PricedBelowZero(c);
    LedgerTotalIff(TraceOf(c));
  }

  /** With faults, the ledger still reconciles for the records that got through, and never names another. */
  lemma LedgerReconcilesForSurvivors(calls: seq<RoutingCall>, faults: nat -> bool)
    requires forall i | 0 <= i < |calls| :: CountsTokens(calls[i])
    ensures var survivors := Surviving(TraceAll(calls), 0, faults);
      CostTotal(PersistAll(EMPTY_LEDGER, survivors).costs) == EstimateTotal(survivors)
  {
    RunCost(calls);
    SurvivorsAreRecords(TraceAll(calls), 0, faults);
    LedgerTotalIff(Surviving(TraceAll(calls), 0, faults));
  }

  /** How many of the first n offers get through. */
  function Kept(first: nat, faults: nat -> bool, n: nat): nat {
    |set k: nat | first <= k < first + n && !faults(k)|
  }

  /** Exactly the offers without a fault get through, in order: offer n is there after the survivors before it. */
  lemma {:induction false} SurvivorsAreTheFaultless(records: seq<ModelCallRecord>, first: nat, faults: nat -> bool)
    ensures var survivors := Surviving(records, first, faults);
      && |survivors| == Kept(first, faults, |records|)
      && forall n: nat | n < |records| && !faults(first + n) ::
           Kept(first, faults, n) < |survivors| && survivors[Kept(first, faults, n)] == records[n]
  {
    hide Kept;
    KeptSteps(first, faults, |records| - 1);
    if records != [] {
      SurvivorsAreTheFaultless(records[..|records| - 1], first, faults);
    }
  }

  lemma KeptSteps(first: nat, faults: nat -> bool, n: int)
    ensures Kept(first, faults, 0) == 0
    ensures n >= 0 ==> Kept(first, faults, n + 1) == Kept(first, faults, n) + if faults(first + n) then 0 else 1
  {
    if n >= 0 {
      var before := set k: nat | first <= k < first + n && !faults(k);
      var after := set k: nat | first <= k < first + n + 1 && !faults(k);
      assert after == before + if faults(first + n) then {} else {first + n};
    }
  }

  lemma {:induction false} SurvivorsAreRecords(records: seq<ModelCallRecord>, first: nat, faults: nat -> bool)
    ensures FailuresAreFree(records) ==> FailuresAreFree(Surviving(records, first, faults))
    ensures NoNegativeEstimates(records) ==> NoNegativeEstimates(Surviving(records, first, faults))
  {
    if records != [] {
      SurvivorsAreRecords(records[..|records| - 1], first, faults);
    }
  }
}
