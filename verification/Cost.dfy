/** The token-cost estimator: longest-prefix pricing and the rounded estimate. */
module Cost {
  import opened Prelude
  import Rounding

  datatype PriceEntry = PriceEntry(provider: string, prefix: string, input: real, output: real)

  const PRICES: seq<PriceEntry> := [
    PriceEntry("groq", "llama-3.1-8b", 0.00005, 0.00008),
    PriceEntry("groq", "llama-3.1-70b", 0.00059, 0.00079),
    PriceEntry("groq", "mixtral", 0.00024, 0.00024),
    PriceEntry("local_gemma", "", 0.0, 0.0),
    PriceEntry("echo", "", 0.0, 0.0)]

  const DEFAULT: (real, real) := (0.0005, 0.0015)

  predicate Matches(p: PriceEntry, provider: string, model: string) {
    p.provider == provider && p.prefix <= model
  }

  /** Dictionary keys: no two entries share provider and prefix. */
  predicate DistinctKeys(table: seq<PriceEntry>) {
    forall i, j | 0 <= i < j < |table| :: table[i].provider != table[j].provider || table[i].prefix != table[j].prefix
  }

  /** The price is that of a longest matching prefix, or the default if nothing matches. */
  predicate IsPrice(table: seq<PriceEntry>, provider: string, model: string, price: (real, real)) {
    if exists p | p in table :: Matches(p, provider, model) then
      exists p | p in table ::
        && Matches(p, provider, model)
        && price == (p.input, p.output)
        && forall q | q in table && Matches(q, provider, model) :: |q.prefix| <= |p.prefix|
    else
      price == DEFAULT
  }

  /** `_lookup`: one pass that keeps the longest match so far; a zero price is still a price. */
  method Lookup(table: seq<PriceEntry>, provider: string, model: string) returns (price: (real, real))
    ensures IsPrice(table, provider, model, price)
  {
    var best: Option<(real, real)> := None;
    var bestLen := -1;
    var k := 0;
    ghost var chosen := 0;
    while k < |table|
      invariant k <= |table|
      invariant best.None? ==> bestLen == -1 && forall i | 0 <= i < k :: !Matches(table[i], provider, model)
      invariant best.Some? ==>
        && chosen < k
        && Matches(table[chosen], provider, model)
        && best.value == (table[chosen].input, table[chosen].output)
        && bestLen == |table[chosen].prefix|
      invariant forall i | 0 <= i < k && Matches(table[i], provider, model) :: |table[i].prefix| <= bestLen
    {
      var p := table[k];
      if p.provider == provider && p.prefix <= model && |p.prefix| > bestLen {
        best, bestLen := Some((p.input, p.output)), |p.prefix|;
        chosen := k;
      }
      k := k + 1;
    }
    price := best.GetOr(DEFAULT);
    if best.Some? {
      assert table[chosen] in table;
    }
  }

  /** On one model, two matching prefixes of one length are the same prefix. */
  lemma PrefixesOfOneLength(p: string, q: string, model: string)
    requires p <= model && q <= model && |p| == |q|
    ensures p == q
  {
    assert p == model[..|p|];
  }

  /** There is only one price, whatever order the table is read in. */
  lemma PriceIsUnique(a: seq<PriceEntry>, b: seq<PriceEntry>, provider: string, model: string, x: (real, real), y: (real, real))
    requires DistinctKeys(a) && forall p :: p in a <==> p in b
    requires IsPrice(a, provider, model, x) && IsPrice(b, provider, model, y)
    ensures x == y
  {
    if m :| m in a && Matches(m, provider, model) {
      assert m in b;
      var p :| p in a && Matches(p, provider, model) && x == (p.input, p.output)
        && forall q | q in a && Matches(q, provider, model) :: |q.prefix| <= |p.prefix|;
      var q :| q in b && Matches(q, provider, model) && y == (q.input, q.output)
        && forall r | r in b && Matches(r, provider, model) :: |r.prefix| <= |q.prefix|;
      assert p in b && q in a;
      PrefixesOfOneLength(p.prefix, q.prefix, model);
      SameKeySameEntry(a, p, q);
    }
  }

  lemma SameKeySameEntry(table: seq<PriceEntry>, p: PriceEntry, q: PriceEntry)
    requires DistinctKeys(table) && p in table && q in table
    requires p.provider == q.provider && p.prefix == q.prefix
    ensures p == q
  {
    var i :| 0 <= i < |table| && table[i] == p;
    var j :| 0 <= j < |table| && table[j] == q;
  }

  /** The price as a function: what the pass keeps after the whole table. */
  function Best(table: seq<PriceEntry>, provider: string, model: string): Option<PriceEntry> {
    if table == [] then None
    else
      var best, p := Best(table[..|table| - 1], provider, model), table[|table| - 1];
      if Matches(p, provider, model) && (best.None? || |p.prefix| > |best.value.prefix|) then Some(p) else best
  }

  function Price(table: seq<PriceEntry>, provider: string, model: string): (real, real) {
    var best := Best(table, provider, model);
    if best.Some? then (best.value.input, best.value.output) else DEFAULT
  }

  lemma {:induction false} BestIsLongest(table: seq<PriceEntry>, provider: string, model: string)
    ensures var best := Best(table, provider, model);
      && (best.None? ==> forall q | q in table :: !Matches(q, provider, model))
      && (best.Some? ==>
            && best.value in table
            && Matches(best.value, provider, model)
            && forall q | q in table && Matches(q, provider, model) :: |q.prefix| <= |best.value.prefix|)
  {
    if table != [] {
      var init := table[..|table| - 1];
      BestIsLongest(init, provider, model);
      assert table == init + [table[|table| - 1]];
    }
  }

  lemma PriceIsPrice(table: seq<PriceEntry>, provider: string, model: string)
    ensures IsPrice(table, provider, model, Price(table, provider, model))
  {
    BestIsLongest(table, provider, model);
  }

  // ----- Estimates -----

  function RawCost(price: (real, real), promptTokens: int, completionTokens: int): real {
    (promptTokens as real / 1000.0) * price.0 + (completionTokens as real / 1000.0) * price.1
  }

  function EstimateCost(provider: string, model: string, promptTokens: int, completionTokens: int): real {
    Rounding.Round(RawCost(Price(PRICES, provider, model), promptTokens, completionTokens), 6)
  }

  method EstimateCostUsd(provider: string, model: string, promptTokens: int, completionTokens: int) returns (cost: real)
    ensures cost == EstimateCost(provider, model, promptTokens, completionTokens)
  {
    var price := Lookup(PRICES, provider, model);
    PriceIsPrice(PRICES, provider, model);
    PricesAreKeyed();
    PriceIsUnique(PRICES, PRICES, provider, model, price, Price(PRICES, provider, model));
    cost := Rounding.Round(RawCost(price, promptTokens, completionTokens), 6);
  }

  lemma PricesAreKeyed()
    ensures DistinctKeys(PRICES)
    ensures forall p | p in PRICES :: p.input >= 0.0 && p.output >= 0.0
  {
    assert "llama-3.1-8b"[10] != "llama-3.1-70b"[10];
    assert "llama-3.1-8b"[0] != "mixtral"[0];
    assert "llama-3.1-70b"[0] != "mixtral"[0];
    assert "groq"[0] != "local_gemma"[0];
    assert "groq"[0] != "echo"[0];
    assert "local_gemma"[0] != "echo"[0];
  }

  /** No negative charge for non-negative token counts. */
  lemma EstimateNonNegative(provider: string, model: string, promptTokens: int, completionTokens: int)
    requires promptTokens >= 0 && completionTokens >= 0
    ensures EstimateCost(provider, model, promptTokens, completionTokens) >= 0.0
  {
    var price := Price(PRICES, provider, model);
    PricesAreKeyed();
    BestIsLongest(PRICES, provider, model);
    assert price.0 >= 0.0 && price.1 >= 0.0;
    ProductNonNegative(promptTokens as real / 1000.0, price.0);
    ProductNonNegative(completionTokens as real / 1000.0, price.1);
    Rounding.RoundNonNegative(RawCost(price, promptTokens, completionTokens), 6);
  }

  lemma ProductNonNegative(a: real, b: real)
    requires a >= 0.0 && b >= 0.0
    ensures a * b >= 0.0
  {
  }

  /** Self-hosted and echo models are priced, at zero; they do not fall through to the default. */
  lemma SelfHostedIsFree(model: string, promptTokens: int, completionTokens: int)
    ensures EstimateCost("local_gemma", model, promptTokens, completionTokens) == 0.0
    ensures EstimateCost("echo", model, promptTokens, completionTokens) == 0.0
  {
    hide Rounding.Round;
    assert "" <= model;
    assert Matches(PRICES[3], "local_gemma", model) && PRICES[3] in PRICES;
    assert Matches(PRICES[4], "echo", model) && PRICES[4] in PRICES;
    BestIsLongest(PRICES, "local_gemma", model);
    BestIsLongest(PRICES, "echo", model);
    PricesAreKeyed();
    assert "groq"[0] != "local_gemma"[0] && "groq"[0] != "echo"[0] && "local_gemma"[0] != "echo"[0];
    assert Price(PRICES, "local_gemma", model) == (0.0, 0.0);
    assert Price(PRICES, "echo", model) == (0.0, 0.0);
    ZeroPriceIsFree(promptTokens, completionTokens);
  }

  lemma ZeroPriceIsFree(promptTokens: int, completionTokens: int)
    ensures Rounding.Round(RawCost((0.0, 0.0), promptTokens, completionTokens), 6) == 0.0
  {
    assert RawCost((0.0, 0.0), promptTokens, completionTokens) == 0.0;
    Rounding.RoundZero(6);
  }

  /** A negative token count is priced as a refund. */
  lemma NegativeCountsArePriced()
    ensures EstimateCost("groq", "mixtral", -1000, 0) < 0.0
  {
    hide Rounding.Round;
    assert "groq"[0] != "local_gemma"[0] && "groq"[0] != "echo"[0];
    assert "llama-3.1-8b"[0] != "mixtral"[0] && "llama-3.1-70b"[0] != "mixtral"[0];
    assert Matches(PRICES[2], "groq", "mixtral") && PRICES[2] in PRICES;
    BestIsLongest(PRICES, "groq", "mixtral");
    assert Price(PRICES, "groq", "mixtral") == (0.00024, 0.00024);
    Rounding.DecimalScales();
    Rounding.RoundError(RawCost((0.00024, 0.00024), -1000, 0), 6);
  }

  /** The exact price of so many tokens, at a price for each thousand of them. */
  function ExactCost(input: real, output: real, promptTokens: int, completionTokens: int): real {
    (promptTokens as real * input + completionTokens as real * output) / 1000.0
  }

  /**
   * The estimate charges prompt tokens at the input price and completion tokens at the
   * output price of the longest matching entry, and is off by half a millionth at most.
   */
  lemma EstimateFollowsPrice(provider: string, model: string, price: (real, real), promptTokens: int, completionTokens: int)
    requires IsPrice(PRICES, provider, model, price)
    ensures var exact := ExactCost(price.0, price.1, promptTokens, completionTokens);
      exact - 0.0000005 <= EstimateCost(provider, model, promptTokens, completionTokens) <= exact + 0.0000005
    ensures exists k: int :: Rounding.RoundsTo(ExactCost(price.0, price.1, promptTokens, completionTokens), 1000000.0,
                                               EstimateCost(provider, model, promptTokens, completionTokens), k)
  {
    hide Price, IsPrice, Rounding.Round, Rounding.RoundsTo, RawCost, ExactCost, DistinctKeys;
    PriceIsPrice(PRICES, provider, model);
    PricesAreKeyed();
    PriceIsUnique(PRICES, PRICES, provider, model, price, Price(PRICES, provider, model));
    RawCostIsExact(price, promptTokens, completionTokens);
    RoundedToMillionths(ExactCost(price.0, price.1, promptTokens, completionTokens));
  }

  lemma RoundedToMillionths(x: real)
    ensures x - 0.0000005 <= Rounding.Round(x, 6) <= x + 0.0000005
    ensures exists k: int :: Rounding.RoundsTo(x, 1000000.0, Rounding.Round(x, 6), k)
  {
    hide Rounding.Round, Rounding.RoundsTo;
    Rounding.DecimalScales();
    Rounding.RoundError(x, 6);
    Rounding.RoundIsNearestEven(x, 6);
  }

  lemma RawCostIsExact(price: (real, real), promptTokens: int, completionTokens: int)
    ensures RawCost(price, promptTokens, completionTokens) == ExactCost(price.0, price.1, promptTokens, completionTokens)
  {
    var i, o := promptTokens as real, completionTokens as real;
    assert (i / 1000.0) * price.0 == (i * price.0) / 1000.0;
    assert (o / 1000.0) * price.1 == (o * price.1) / 1000.0;
  }

  /** What the table charges, by provider and model; whatever it does not name has the default price. */
  lemma PriceList(provider: string, model: string)
    ensures IsPrice(PRICES, provider, model,
      if provider == "groq" && "llama-3.1-8b" <= model then (0.00005, 0.00008)
      else if provider == "groq" && "llama-3.1-70b" <= model then (0.00059, 0.00079)
      else if provider == "groq" && "mixtral" <= model then (0.00024, 0.00024)
      else if provider == "local_gemma" || provider == "echo" then (0.0, 0.0)
      else (0.0005, 0.0015))
  {
    hide IsPrice;
    PrefixesExclude(model);
    assert PRICES[0] == PriceEntry("groq", "llama-3.1-8b", 0.00005, 0.00008);
    assert PRICES[1] == PriceEntry("groq", "llama-3.1-70b", 0.00059, 0.00079);
    assert PRICES[2] == PriceEntry("groq", "mixtral", 0.00024, 0.00024);
    assert PRICES[3] == PriceEntry("local_gemma", "", 0.0, 0.0) && PRICES[4] == PriceEntry("echo", "", 0.0, 0.0);
    if k :| 0 <= k < |PRICES| && Matches(PRICES[k], provider, model) {
      OnlyMatch(PRICES, provider, model, k);
    } else {
      NoMatch(PRICES, provider, model);
    }
  }

  lemma PrefixesExclude(model: string)
    ensures "groq" != "local_gemma" && "groq" != "echo" && "local_gemma" != "echo"
    ensures !("llama-3.1-8b" <= model && "llama-3.1-70b" <= model)
    ensures "mixtral" <= model ==> !("llama-3.1-8b" <= model) && !("llama-3.1-70b" <= model)
    ensures "" <= model
  {
    assert "groq"[0] != "local_gemma"[0] && "groq"[0] != "echo"[0] && "local_gemma"[0] != "echo"[0];
    assert "llama-3.1-8b"[10] != "llama-3.1-70b"[10];
    assert "llama-3.1-8b"[0] != "mixtral"[0] && "llama-3.1-70b"[0] != "mixtral"[0];
  }

  lemma OnlyMatch(table: seq<PriceEntry>, provider: string, model: string, k: nat)
    requires k < |table| && Matches(table[k], provider, model)
    requires forall j | 0 <= j < |table| && Matches(table[j], provider, model) :: j == k
    ensures IsPrice(table, provider, model, (table[k].input, table[k].output))
  {
    hide Matches;
    assert table[k] in table;
  }

  lemma NoMatch(table: seq<PriceEntry>, provider: string, model: string)
    requires forall j | 0 <= j < |table| :: !Matches(table[j], provider, model)
    ensures IsPrice(table, provider, model, (0.0005, 0.0015))
  {
  }
}
