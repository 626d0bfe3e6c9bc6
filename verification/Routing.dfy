/**
 * The model router's values: providers as they behave during one completion, the
 * records offered to telemetry, and the declarative outcome of a completion.
 */
module Routing {
  import opened Prelude
  import Cost

  datatype CompletionRequest = CompletionRequest(messages: seq<string>, promptVersion: Option<string>)

  function Characters(messages: seq<string>): nat {
    if messages == [] then 0 else |messages[0]| + Characters(messages[1..])
  }

  /** About four characters a token, and never none. */
  function EstimatedPromptTokens(request: CompletionRequest): (n: nat)
    ensures n >= 1
  {
    var n := Characters(request.messages) / 4;
    if n >= 1 then n else 1
  }

  datatype CompletionResult = CompletionResult(
    text: string,
    provider: string,
    model: string,
    usedFallback: bool,
    fallbackReason: Option<string>,
    promptTokens: int,
    completionTokens: int,
    latencyMs: int)

  /** `is_available()` answers, or raises (which counts as unavailable). */
  datatype Availability = Answers(available: bool) | Raises

  /** `complete()` returns a result or raises an LLMProviderError; the contract allows nothing else. */
  datatype Reply = Returns(result: CompletionResult) | ProviderError(message: string)

  datatype Provider = Provider(name: string, model: string, availability: Availability, reply: Reply)

  predicate Available(p: Provider) {
    p.availability == Answers(true)
  }

  predicate Works(p: Provider) {
    Available(p) && p.reply.Returns?
  }

  /** The first provider that is available and completes, or the length if none does. */
  function FirstWorking(providers: seq<Provider>): (i: nat)
    ensures i <= |providers|
    ensures i < |providers| ==> Works(providers[i])
    ensures forall j | 0 <= j < i :: !Works(providers[j])
  {
    if providers == [] || Works(providers[0]) then 0 else 1 + FirstWorking(providers[1..])
  }

  datatype ModelCallRecord = ModelCallRecord(
    provider: string,
    model: string,
    routingPolicy: string,
    usedFallback: bool,
    fallbackReason: Option<string>,
    promptTokens: int,
    completionTokens: int,
    latencyMs: int,
    success: bool,
    error: Option<string>,
    promptVersion: Option<string>,
    estimatedCostUsd: real,
    agentRunId: Option<Uuid>)

  /** What a failed attempt reports. */
  function FailureReason(p: Provider): string
    requires !Works(p)
  {
    if !Available(p) then p.name + " reported unavailable" else p.reply.message
  }

  function AttemptText(p: Provider): string
    requires !Works(p)
  {
    if !Available(p) then FailureReason(p) else p.name + ": " + p.reply.message
  }

  function FailureRecord(p: Provider, request: CompletionRequest, usedFallback: bool, policy: string, agentRunId: Option<Uuid>): ModelCallRecord
    requires !Works(p)
  {
    ModelCallRecord(p.name, p.model, policy, usedFallback, None, EstimatedPromptTokens(request), 0, 0, false,
                    Some(FailureReason(p)), request.promptVersion, 0.0, agentRunId)
  }

  function SuccessRecord(result: CompletionResult, request: CompletionRequest, policy: string, agentRunId: Option<Uuid>): ModelCallRecord {
    ModelCallRecord(result.provider, result.model, policy, result.usedFallback, result.fallbackReason,
                    result.promptTokens, result.completionTokens, result.latencyMs, true, None, request.promptVersion,
                    Cost.EstimateCost(result.provider, result.model, result.promptTokens, result.completionTokens), agentRunId)
  }

  /** Providers before index n all failed; their records, in order. */
  function FailureRecords(providers: seq<Provider>, n: nat, request: CompletionRequest, policy: string, agentRunId: Option<Uuid>): (records: seq<ModelCallRecord>)
    requires n <= |providers| && forall j | 0 <= j < n :: !Works(providers[j])
    ensures |records| == n
    ensures forall j | 0 <= j < n :: records[j] == FailureRecord(providers[j], request, j > 0, policy, agentRunId)
  {
    seq(n, j requires 0 <= j < n => FailureRecord(providers[j], request, j > 0, policy, agentRunId))
  }

  function Attempts(providers: seq<Provider>, n: nat): (attempts: seq<string>)
    requires n <= |providers| && forall j | 0 <= j < n :: !Works(providers[j])
    ensures |attempts| == n && forall j | 0 <= j < n :: attempts[j] == AttemptText(providers[j])
  {
    seq(n, j requires 0 <= j < n => AttemptText(providers[j]))
  }

  datatype RouterError = AllProvidersFailed(policy: string, attempts: seq<string>)

  /** The result of the provider at index i, marked as a fallback exactly if others failed before it. */
  function Annotated(providers: seq<Provider>, i: nat): CompletionResult
    requires i < |providers| && Works(providers[i]) && forall j | 0 <= j < i :: !Works(providers[j])
  {
    providers[i].reply.result.(
      usedFallback := i > 0,
      fallbackReason := if i > 0 then Some(FailureReason(providers[i - 1])) else None)
  }

  /** The outcome of a completion: the first working provider's result, or an error naming every attempt. */
  function Routed(providers: seq<Provider>, policy: string): Result<CompletionResult, RouterError> {
    var i := FirstWorking(providers);
    if i < |providers| then Ok(Annotated(providers, i))
    else Err(AllProvidersFailed(policy, Attempts(providers, i)))
  }

  /** One record per attempt: a failure for each provider passed over, then one success if any. */
  function Trace(providers: seq<Provider>, request: CompletionRequest, policy: string, agentRunId: Option<Uuid>): seq<ModelCallRecord> {
    var i := FirstWorking(providers);
    FailureRecords(providers, i, request, policy, agentRunId)
    + if i < |providers| then [SuccessRecord(Annotated(providers, i), request, policy, agentRunId)] else []
  }

  lemma OneMoreFailure(providers: seq<Provider>, n: nat, request: CompletionRequest, policy: string, agentRunId: Option<Uuid>)
    requires n < |providers| && forall j | 0 <= j <= n :: !Works(providers[j])
    ensures FailureRecords(providers, n + 1, request, policy, agentRunId)
         == FailureRecords(providers, n, request, policy, agentRunId)
            + [FailureRecord(providers[n], request, n > 0, policy, agentRunId)]
    ensures Attempts(providers, n + 1) == Attempts(providers, n) + [AttemptText(providers[n])]
  {
  }

  lemma SuccessAt(providers: seq<Provider>, i: nat, request: CompletionRequest, policy: string, agentRunId: Option<Uuid>)
    requires i < |providers| && Works(providers[i]) && forall j | 0 <= j < i :: !Works(providers[j])
    ensures FirstWorking(providers) == i
    ensures Routed(providers, policy) == Ok(Annotated(providers, i))
    ensures Trace(providers, request, policy, agentRunId)
         == FailureRecords(providers, i, request, policy, agentRunId)
            + [SuccessRecord(Annotated(providers, i), request, policy, agentRunId)]
  {
    FirstWorkingIsLeast(providers, i);
  }

  lemma NoSuccess(providers: seq<Provider>, request: CompletionRequest, policy: string, agentRunId: Option<Uuid>)
    requires forall j | 0 <= j < |providers| :: !Works(providers[j])
    ensures FirstWorking(providers) == |providers|
    ensures Routed(providers, policy) == Err(AllProvidersFailed(policy, Attempts(providers, |providers|)))
    ensures Trace(providers, request, policy, agentRunId) == FailureRecords(providers, |providers|, request, policy, agentRunId)
  {
    var records := FailureRecords(providers, |providers|, request, policy, agentRunId);
    assert records + [] == records;
  }

  lemma FirstWorkingIsLeast(providers: seq<Provider>, i: nat)
    requires i < |providers|
    ensures FirstWorking(providers) == i <==> Works(providers[i]) && forall j | 0 <= j < i :: !Works(providers[j])
  {
    assert FirstWorking(providers) < i ==> Works(providers[FirstWorking(providers)]);
  }

  /**
   * A completion succeeds after exactly i failures iff i is the least index whose
   * provider is available and completes, and then it is that provider's answer; it
   * fails iff no provider works.
   */
  lemma ServedByLeastWorking(providers: seq<Provider>, request: CompletionRequest, policy: string, agentRunId: Option<Uuid>, i: nat)
    requires i < |providers|
    ensures var r, trace := Routed(providers, policy), Trace(providers, request, policy, agentRunId);
      && (r.Ok? && |trace| == i + 1 <==> Works(providers[i]) && forall j | 0 <= j < i :: !Works(providers[j]))
      && (r.Ok? && |trace| == i + 1 ==>
            && r.value.text == providers[i].reply.result.text
            && r.value.provider == providers[i].reply.result.provider
            && r.value.usedFallback == (i > 0)
            && forall j | 0 <= j < i :: trace[j].provider == providers[j].name && !trace[j].success)
      && (r.Err? <==> forall j | 0 <= j < |providers| :: !Works(providers[j]))
  {
    hide SuccessRecord, Attempts, FailureReason;
    FirstWorkingIsLeast(providers, i);
  }

  /** The trace tells the outcome: fallback flags, the reason given, and the number of attempts. */
  lemma TraceTellsOutcome(providers: seq<Provider>, request: CompletionRequest, policy: string, agentRunId: Option<Uuid>)
    ensures var trace, r := Trace(providers, request, policy, agentRunId), Routed(providers, policy);
      && (r.Ok? <==> |trace| > 0 && trace[|trace| - 1].success)
      && (forall k | 0 <= k < |trace| :: trace[k].success <==> r.Ok? && k == |trace| - 1)
      && (forall k | 0 <= k < |trace| :: trace[k].usedFallback <==> k > 0)
      && (r.Ok? ==>
            && |trace| <= |providers|
            && r.value.usedFallback == (|trace| > 1)
            && r.value.fallbackReason == if |trace| > 1 then trace[|trace| - 2].error else None)
      && (r.Err? ==> |trace| == |providers| == |r.error.attempts|)
  {
  }

  /** The record tells of an attempt that failed: who was asked, for what, and why there is no answer. */
  predicate TellsFailure(record: ModelCallRecord, p: Provider, request: CompletionRequest, policy: string, agentRunId: Option<Uuid>) {
    && !record.success
    && record.provider == p.name
    && record.model == p.model
    && record.routingPolicy == policy
    && record.fallbackReason == None
    && record.promptTokens == EstimatedPromptTokens(request)
    && record.completionTokens == record.latencyMs == 0
    && record.promptVersion == request.promptVersion
    && record.agentRunId == agentRunId
    && record.estimatedCostUsd == 0.0
    && (p.availability != Answers(true) ==> record.error == Some(p.name + " reported unavailable"))
    && (p.availability == Answers(true) ==> p.reply.ProviderError? && record.error == Some(p.reply.message))
  }

  /** The record tells of the answer given: its provider, model and tokens, and what it is estimated to cost. */
  predicate TellsSuccess(record: ModelCallRecord, result: CompletionResult, request: CompletionRequest, policy: string, agentRunId: Option<Uuid>) {
    && record.success
    && record.provider == result.provider
    && record.model == result.model
    && record.routingPolicy == policy
    && record.usedFallback == result.usedFallback
    && record.fallbackReason == result.fallbackReason
    && record.promptTokens == result.promptTokens
    && record.completionTokens == result.completionTokens
    && record.latencyMs == result.latencyMs
    && record.error == None
    && record.promptVersion == request.promptVersion
    && record.agentRunId == agentRunId
    && record.estimatedCostUsd == Cost.EstimateCost(result.provider, result.model, result.promptTokens, result.completionTokens)
  }

  /** How the error details put a failed attempt: a failure names its provider. */
  predicate NamesAttempt(attempt: string, p: Provider) {
    if p.availability != Answers(true) then attempt == p.name + " reported unavailable"
    else p.reply.ProviderError? && attempt == p.name + ": " + p.reply.message
  }

  /**
   * The records say of each provider tried, in order, what happened to it, and last of
   * the answer given, which is that provider's own but for the fallback marks; a
   * failure's details name every provider in the same order.
   */
  lemma TraceTellsEveryAttempt(providers: seq<Provider>, request: CompletionRequest, policy: string, agentRunId: Option<Uuid>)
    ensures var trace, r := Trace(providers, request, policy, agentRunId), Routed(providers, policy);
      && |trace| <= |providers|
      && (forall k | 0 <= k < |trace| - 1 :: TellsFailure(trace[k], providers[k], request, policy, agentRunId))
      && (r.Ok? ==>
            && |trace| > 0
            && TellsSuccess(trace[|trace| - 1], r.value, request, policy, agentRunId)
            && providers[|trace| - 1].reply.Returns?
            && var own := providers[|trace| - 1].reply.result;
               r.value == own.(usedFallback := r.value.usedFallback, fallbackReason := r.value.fallbackReason))
      && (r.Err? ==>
            && r.error.policy == policy
            && |trace| == |providers| == |r.error.attempts|
            && forall k | 0 <= k < |providers| ::
                 && TellsFailure(trace[k], providers[k], request, policy, agentRunId)
                 && NamesAttempt(r.error.attempts[k], providers[k]))
  {
    hide Cost.EstimateCost, EstimatedPromptTokens, TellsFailure, TellsSuccess, NamesAttempt, FailureRecord, SuccessRecord,
      AttemptText, FailureReason;
    var i := FirstWorking(providers);
    forall k: nat | k < i
      ensures TellsFailure(FailureRecord(providers[k], request, k > 0, policy, agentRunId), providers[k], request, policy, agentRunId)
      ensures NamesAttempt(AttemptText(providers[k]), providers[k])
    {
      FailureIsTold(providers[k], request, k > 0, policy, agentRunId);
    }
    if i < |providers| {
      SuccessIsTold(Annotated(providers, i), request, policy, agentRunId);
    }
  }

  lemma FailureIsTold(p: Provider, request: CompletionRequest, usedFallback: bool, policy: string, agentRunId: Option<Uuid>)
    requires !Works(p)
    ensures TellsFailure(FailureRecord(p, request, usedFallback, policy, agentRunId), p, request, policy, agentRunId)
    ensures NamesAttempt(AttemptText(p), p)
  {
    hide EstimatedPromptTokens;
  }

  lemma SuccessIsTold(result: CompletionResult, request: CompletionRequest, policy: string, agentRunId: Option<Uuid>)
    ensures TellsSuccess(SuccessRecord(result, request, policy, agentRunId), result, request, policy, agentRunId)
  {
    hide Cost.EstimateCost;
  }

  /** A failed attempt is put down at a quarter of the messages' characters, rounded down, but at one token at least. */
  lemma PromptEstimate(request: CompletionRequest)
    ensures var n, characters := EstimatedPromptTokens(request), Characters(request.messages);
      if characters < 4 then n == 1 else 4 * n <= characters < 4 * n + 4
  {
  }

  lemma {:induction false} CharactersAddUp(a: seq<string>, b: seq<string>)
    ensures Characters(a + b) == Characters(a) + Characters(b)
    ensures a == [] ==> Characters(a) == 0
    decreases |a|
  {
    if a == [] {
      assert a + b == b;
    } else {
      CharactersOfFirst(a[0], a[1..]);
      CharactersOfFirst(a[0], a[1..] + b);
      assert a == [a[0]] + a[1..];
      assert a + b == [a[0]] + (a[1..] + b);
      CharactersAddUp(a[1..], b);
    }
  }

  lemma CharactersOfFirst(m: string, rest: seq<string>)
    ensures Characters([m] + rest) == |m| + Characters(rest)
  {
    assert ([m] + rest)[1..] == rest;
  }
}
