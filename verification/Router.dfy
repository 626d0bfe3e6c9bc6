/** The model router object: the fallback loop over its providers. */
module Router {
  import opened Prelude
  import opened Routing
  import opened Telemetry
  import Cost

  /** A configured provider: what it answers may differ from one completion to the next. */
  datatype ProviderClient = ProviderClient(
    name: string,
    model: string,
    availability: nat -> Availability,
    reply: nat -> Reply)

  /** The providers as they behave during the n-th completion. */
  function During(clients: seq<ProviderClient>, n: nat): (providers: seq<Provider>)
    ensures |providers| == |clients|
    ensures forall i | 0 <= i < |clients| ::
      providers[i] == Provider(clients[i].name, clients[i].model, clients[i].availability(n), clients[i].reply(n))
  {
    seq(|clients|, i requires 0 <= i < |clients| =>
      Provider(clients[i].name, clients[i].model, clients[i].availability(n), clients[i].reply(n)))
  }

  class ModelRouter {
    const clients: seq<ProviderClient>
    const policy: string
    const observer: RouterObserver
    /** How many completions have been asked for, which decides what the providers do next. */
    var completions: nat
    /** Every completion asked for so far, with the providers as they then behaved. */
    ghost var calls: seq<RoutingCall>
    /** The indexes of the providers whose `complete` was called, in order, over the router's life. */
    ghost var called: seq<nat>

    /** The observer was offered exactly the traces of the completions so far, in order. */
    ghost predicate Valid()
      reads this, observer
    {
      observer.Valid() && observer.offered == TraceAll(calls) && completions == |calls|
    }

    constructor (clients: seq<ProviderClient>, policy: string, observer: RouterObserver)
      requires clients != [] && observer.Valid() && observer.offered == []
      ensures Valid() && this.clients == clients && this.policy == policy && this.observer == observer
      ensures calls == [] && called == []
    {
      this.clients, this.policy, this.observer := clients, policy, observer;
      completions, calls, called := 0, [], [];
    }

    /** The failed attempts so far, as the error details list them. */
    ghost predicate Failed(providers: seq<Provider>, n: nat, attempts: seq<string>, previousError: Option<string>)
      requires n <= |providers|
    {
      && (forall j | 0 <= j < n :: !Works(providers[j]))
      && attempts == Attempts(providers, n)
      && previousError == if n > 0 then Some(FailureReason(providers[n - 1])) else None
    }

    /**
     * Try the providers in order until one succeeds. The answer and the records
     * offered do not depend on the observer or on anything that goes wrong in it.
     */
    method Complete(request: CompletionRequest, agentRunId: Option<Uuid> := None) returns (r: Result<CompletionResult, RouterError>)
      requires Valid()
      modifies this, observer
      ensures Valid()
      ensures var providers := During(clients, old(completions));
        && r == Routed(providers, policy)
        && observer.offered == old(observer.offered) + Trace(providers, request, policy, agentRunId)
        && called == old(called) + CalledProviders(providers)
        && calls == old(calls) + [RoutingCall(providers, request, policy, agentRunId)]
    {
      hide *;
      ValidReads();
      var providers := During(clients, completions);
      ghost var call := RoutingCall(providers, request, policy, agentRunId);
      OneMoreCall(calls, call);
      NothingFailedYet(providers, request, agentRunId);
      completions, calls := completions + 1, calls + [call];
      var attempts: seq<string> := [];
      var previousError: Option<string> := None;
      var index := 0;
      while index < |providers|
        invariant index <= |providers|
        invariant observer.Valid()
        invariant completions == old(completions) + 1 && calls == old(calls) + [call]
        invariant Failed(providers, index, attempts, previousError)
        invariant observer.offered == old(observer.offered) + Failures(providers, index, request, agentRunId)
        invariant called == old(called) + AvailableBefore(providers, index)
      {
        var provider := providers[index];
        var usedFallback := index > 0;
        var available := if provider.availability.Answers? then provider.availability.available else false;
        if !available {
          var reason := provider.name + " reported unavailable";
          FailsAt(providers, index, request, agentRunId, attempts, previousError, false, reason);
          previousError := Some(reason);
          attempts := attempts + [reason];
          EmitFailure(provider, request, usedFallback, reason, agentRunId, 0);
          index := index + 1;
          continue;
        }
        called := called + [index];
        if provider.reply.ProviderError? {
          var message := provider.reply.message;
          FailsAt(providers, index, request, agentRunId, attempts, previousError, true, message);
          previousError := Some(message);
          attempts := attempts + [provider.name + ": " + message];
          EmitFailure(provider, request, usedFallback, message, agentRunId, 0);
          index := index + 1;
          continue;
        }
        var result := provider.reply.result.(
          usedFallback := usedFallback,
          fallbackReason := if usedFallback then previousError else None);
        SucceedsAt(providers, index, request, agentRunId, attempts, previousError, result);
        EmitSuccess(result, request, agentRunId);
        IsValid();
        return Ok(result);
      }
      AllFailed(providers, request, agentRunId, attempts, previousError);
      IsValid();
      r := Err(AllProvidersFailed(policy, attempts));
    }

    lemma ValidReads()
      requires Valid()
      ensures observer.Valid() && observer.offered == TraceAll(calls) && completions == |calls|
    {
    }

    lemma IsValid()
      requires observer.Valid() && observer.offered == TraceAll(calls) && completions == |calls|
      ensures Valid()
    {
    }

    ghost function Failures(providers: seq<Provider>, n: nat, request: CompletionRequest, agentRunId: Option<Uuid>): seq<ModelCallRecord>
      requires n <= |providers|
    {
      if forall j | 0 <= j < n :: !Works(providers[j])
      then FailureRecords(providers, n, request, policy, agentRunId)
      else []
    }

    lemma NothingFailedYet(providers: seq<Provider>, request: CompletionRequest, agentRunId: Option<Uuid>)
      ensures Failed(providers, 0, [], None) && Failures(providers, 0, request, agentRunId) == [] && AvailableBefore(providers, 0) == []
    {
    }

    lemma FailsAt(providers: seq<Provider>, n: nat, request: CompletionRequest, agentRunId: Option<Uuid>, attempts: seq<string>,
                  previousError: Option<string>, available: bool, reason: string)
      requires n < |providers| && Failed(providers, n, attempts, previousError)
      requires available == (providers[n].availability == Answers(true))
      requires if available then providers[n].reply == ProviderError(reason)
               else reason == providers[n].name + " reported unavailable"
      ensures Failed(providers, n + 1, attempts + [if available then providers[n].name + ": " + reason else reason], Some(reason))
      ensures Failures(providers, n + 1, request, agentRunId) == Failures(providers, n, request, agentRunId) +
        [ModelCallRecord(providers[n].name, providers[n].model, policy, n > 0, None, EstimatedPromptTokens(request), 0,
                         0, false, Some(reason), request.promptVersion, 0.0, agentRunId)]
      ensures AvailableBefore(providers, n + 1) == AvailableBefore(providers, n) + if available then [n] else []
    {
      OneMoreFailure(providers, n, request, policy, agentRunId);
    }

    lemma SucceedsAt(providers: seq<Provider>, n: nat, request: CompletionRequest, agentRunId: Option<Uuid>, attempts: seq<string>,
                     previousError: Option<string>, result: CompletionResult)
      requires n < |providers| && Failed(providers, n, attempts, previousError)
      requires providers[n].availability == Answers(true) && providers[n].reply.Returns?
      requires result == providers[n].reply.result.(
        usedFallback := n > 0, fallbackReason := if n > 0 then previousError else None)
      ensures Routed(providers, policy) == Ok(result)
      ensures Trace(providers, request, policy, agentRunId)
           == Failures(providers, n, request, agentRunId) + [SuccessRecord(result, request, policy, agentRunId)]
      ensures CalledProviders(providers) == AvailableBefore(providers, n) + [n]
    {
      SuccessAt(providers, n, request, policy, agentRunId);
    }

    lemma AllFailed(providers: seq<Provider>, request: CompletionRequest, agentRunId: Option<Uuid>, attempts: seq<string>, previousError: Option<string>)
      requires Failed(providers, |providers|, attempts, previousError)
      ensures Routed(providers, policy) == Err(AllProvidersFailed(policy, attempts))
      ensures Trace(providers, request, policy, agentRunId) == Failures(providers, |providers|, request, agentRunId)
      ensures CalledProviders(providers) == AvailableBefore(providers, |providers|)
    {
      hide FirstWorking, FailureRecords, Attempts, Trace, Routed, AvailableBefore;
      NoSuccess(providers, request, policy, agentRunId);
    }

    method EmitSuccess(result: CompletionResult, request: CompletionRequest, agentRunId: Option<Uuid>)
      requires observer.Valid()
      modifies observer
      ensures observer.Valid()
      ensures observer.offered == old(observer.offered) + [SuccessRecord(result, request, policy, agentRunId)]
    {
      var cost := Cost.EstimateCostUsd(result.provider, result.model, result.promptTokens, result.completionTokens);
      SafeRecord(ModelCallRecord(result.provider, result.model, policy, result.usedFallback, result.fallbackReason,
                                 result.promptTokens, result.completionTokens, result.latencyMs, true, None,
                                 request.promptVersion, cost, agentRunId));
    }

    method EmitFailure(provider: Provider, request: CompletionRequest, usedFallback: bool, error: string,
                       agentRunId: Option<Uuid>, latencyMs: int)
      requires observer.Valid()
      modifies observer
      ensures observer.Valid()
      ensures observer.offered == old(observer.offered) +
        [ModelCallRecord(provider.name, provider.model, policy, usedFallback, None, EstimatedPromptTokens(request), 0,
                         latencyMs, false, Some(error), request.promptVersion, 0.0, agentRunId)]
    {
      SafeRecord(ModelCallRecord(provider.name, provider.model, policy, usedFallback, None, EstimatedPromptTokens(request), 0,
                                 latencyMs, false, Some(error), request.promptVersion, 0.0, agentRunId));
    }

    /** Offer a record; an exception from the observer goes no further. */
    method SafeRecord(record: ModelCallRecord)
      requires observer.Valid()
      modifies observer
      ensures observer.Valid() && observer.offered == old(observer.offered) + [record]
    {
      var _ := observer.Record(record);
    }
  }

  lemma OneMoreCall(calls: seq<RoutingCall>, c: RoutingCall)
    ensures TraceAll(calls + [c]) == TraceAll(calls) + Trace(c.providers, c.request, c.policy, c.agentRunId)
  {
    assert (calls + [c])[..|calls|] == calls;
  }

  /**
   * Over a router's whole life, however the providers behaved from call to call: if the
   * database sink had no fault, its cost table totals the completions served, unless
   * one of them was priced below zero; every attempt has its call row.
   */
  lemma LedgerOfRouter(router: ModelRouter)
    requires router.Valid() && router.observer.sink == DatabaseSink && forall k :: !router.observer.faults(k)
    ensures var l := router.observer.ledger;
      && (CostTotal(l.costs) == SpentOn(router.calls)
          <==> forall i | 0 <= i < |router.calls| :: !PricedBelowZero(router.calls[i]))
      && LedgerTells(l, TraceAll(router.calls))
      && LedgerInvariant(l)
  {
    hide PricedBelowZero, SpentOn, CostTotal, LedgerInvariant, LedgerTells, TraceAll, PersistAll;
    NoFaultsLoseNothing(TraceAll(router.calls), 0, router.observer.faults);
    LedgerReconcilesIff(router.calls);
    CostRowsPointToCalls(TraceAll(router.calls));
  }

  /** The available providers among the first n, by index: those whose `complete` gets called. */
  function AvailableBefore(providers: seq<Provider>, n: nat): seq<nat>
    requires n <= |providers|
  {
    if n == 0 then []
    else AvailableBefore(providers, n - 1) + if Available(providers[n - 1]) then [n - 1] else []
  }

  /** Every available provider up to and including the first that works; none after it. */
  function CalledProviders(providers: seq<Provider>): seq<nat> {
    var i := FirstWorking(providers);
    AvailableBefore(providers, if i < |providers| then i + 1 else i)
  }

  /** A provider behind the first working one is never called, and each is called at most once. */
  lemma {:induction false} CalledAtMostOnce(providers: seq<Provider>, n: nat)
    requires n <= |providers|
    ensures forall k | 0 <= k < |AvailableBefore(providers, n)| :: AvailableBefore(providers, n)[k] < n
    ensures forall j, k | 0 <= j < k < |AvailableBefore(providers, n)| ::
      AvailableBefore(providers, n)[j] < AvailableBefore(providers, n)[k]
    ensures forall i: nat :: i in AvailableBefore(providers, n) <==> i < n && Available(providers[i])
  {
    if n > 0 {
      CalledAtMostOnce(providers, n - 1);
    }
  }

  lemma NoneAfterFirstWorking(providers: seq<Provider>, i: nat)
    requires i < |providers| && Works(providers[i])
    ensures forall j: nat | j > i :: j !in CalledProviders(providers)
  {
    var first := FirstWorking(providers);
    assert first <= i;
    CalledAtMostOnce(providers, first + 1);
  }

  /** The providers called are the available ones with no working provider before them. */
  lemma CalledIff(providers: seq<Provider>, i: nat)
    requires i < |providers|
    ensures i in CalledProviders(providers) <==> Available(providers[i]) && forall j | 0 <= j < i :: !Works(providers[j])
  {
    var first := FirstWorking(providers);
    CalledAtMostOnce(providers, if first < |providers| then first + 1 else first);
    assert first < i ==> Works(providers[first]);
  }
}
