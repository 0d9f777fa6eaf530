/**
 Pricing lookup by longest registered prefix, per-request cost and the rounding of both
 estimates. Costs are reals; `round` is rounding half to even at a decimal place.
 */
module CostEstimator {
  import opened Reals
  import opened Rounding
  import opened Wrappers
  import opened Sorting

  /** Prices in USD per million tokens; either may be missing. */
  datatype Prices = Prices(input: Option<real>, output: Option<real>)

  const NO_PRICES := Prices(None, None)

  /** The pricing dictionary, in insertion order. */
  type Pricing = seq<(string, Prices)>

  function Get(pricing: Pricing, model: string): Prices {
    if pricing == [] then NO_PRICES
    else if pricing[0].0 == model then pricing[0].1
    else Get(pricing[1..], model)
  }

  predicate IsPrefix(key: string, model: string) {
    |key| <= |model| && model[..|key|] == key
  }

  function MatchingKeys(pricing: Pricing, model: string): seq<string> {
    if pricing == [] then []
    else (if IsPrefix(pricing[0].0, model) then [pricing[0].0] else []) + MatchingKeys(pricing[1..], model)
  }

  predicate LongerFirst(a: string, b: string) {
    |a| >= |b|
  }

  /** The prices of a model: its own entry, or that of the first of its prefixes, longest first. */
  function ModelPrices(pricing: Pricing, model: string): Prices {
    var exact := Get(pricing, model);
    if exact != NO_PRICES then exact
    else
      var keys := Sort(LongerFirst, MatchingKeys(pricing, model));
      if keys == [] then exact else Get(pricing, keys[0])
  }

  ghost predicate Registered(pricing: Pricing, key: string) {
    exists i :: 0 <= i < |pricing| && pricing[i].0 == key
  }

  /** A registered prefix of the model that no other registered prefix is longer than. */
  ghost predicate LongestPrefix(pricing: Pricing, model: string, key: string) {
    && Registered(pricing, key) && IsPrefix(key, model)
    && forall other :: Registered(pricing, other) && IsPrefix(other, model) ==> |other| <= |key|
  }

  lemma {:induction false} MatchingKeysAre(pricing: Pricing, model: string, key: string)
    ensures key in MatchingKeys(pricing, model) <==> Registered(pricing, key) && IsPrefix(key, model)
  {
    if pricing != [] {
      MatchingKeysAre(pricing[1..], model, key);
      if Registered(pricing[1..], key) {
        var i :| 0 <= i < |pricing[1..]| && pricing[1..][i].0 == key;
        assert pricing[i + 1].0 == key;
      }
      if Registered(pricing, key) && pricing[0].0 != key {
        var i :| 0 <= i < |pricing| && pricing[i].0 == key;
        assert pricing[1..][i - 1].0 == key;
      }
    }
  }

  lemma {:induction false} GetUnregistered(pricing: Pricing, model: string)
    requires !Registered(pricing, model)
    ensures Get(pricing, model) == NO_PRICES
  {
    if pricing != [] {
      assert pricing[0].0 != model;
      forall i | 0 <= i < |pricing[1..]| ensures pricing[1..][i].0 != model {
        assert pricing[1..][i] == pricing[i + 1];
      }
      GetUnregistered(pricing[1..], model);
    }
  }

  lemma LongerFirstPreorder()
    ensures TotalPreorder(LongerFirst)
  {
  }

  /**
   The shortcut for an exact entry, the filter and the sort by length come to this: the
   prices of the one longest registered prefix, or none when no prefix is registered.
   */
  lemma PricesOfLongestPrefix(pricing: Pricing, model: string, key: string)
    ensures LongestPrefix(pricing, model, key) ==> ModelPrices(pricing, model) == Get(pricing, key)
    ensures LongestPrefix(pricing, model, key) ==> forall k :: LongestPrefix(pricing, model, k) ==> k == key
    ensures (forall k :: Registered(pricing, k) ==> !IsPrefix(k, model)) ==>
              ModelPrices(pricing, model) == NO_PRICES
  {
    var keys := MatchingKeys(pricing, model);
    var sorted := Sort(LongerFirst, keys);
    LongerFirstPreorder();
    SortSorts(LongerFirst, keys);
    SortPermutes(LongerFirst, keys);
    assert model[..|model|] == model;
    if !Registered(pricing, model) {
      GetUnregistered(pricing, model);
    }
    if sorted != [] {
      MultisetMember(sorted, keys, sorted[0]);
      MatchingKeysAre(pricing, model, sorted[0]);
    }
    if LongestPrefix(pricing, model, key) {
      MatchingKeysAre(pricing, model, key);
      MultisetMember(sorted, keys, key);
      var i :| 0 <= i < |sorted| && sorted[i] == key;
      assert i > 0 ==> LongerFirst(sorted[0], sorted[i]);
      assert sorted[0] == key;
    }
  }

  // ---------------------------------------------------------------------------
  // Estimates
  // ---------------------------------------------------------------------------

  const PLACES_8 := 100000000.0
  const PLACES_6 := 1000000.0

  function PriceOr(p: Option<real>): real {
    match p
    case Some(x) => x
    case None => 0.0
  }

  /** The cost before rounding. */
  function ExactCost(p: Prices, inputTokens: nat, outputTokens: nat): real {
    inputTokens as real / 1000000.0 * PriceOr(p.input) + outputTokens as real / 1000000.0 * PriceOr(p.output)
  }

  function EstimateCost(pricing: Pricing, model: string, inputTokens: nat, outputTokens: nat): real {
    Round(ExactCost(ModelPrices(pricing, model), inputTokens, outputTokens), PLACES_8)
  }

  function Times(perRequest: real, cases: nat, attempts: nat): real {
    perRequest * cases as real * attempts as real
  }

  function EstimateRunCost(
    pricing: Pricing, model: string, avgInputTokens: nat, maxOutputTokens: nat, cases: nat, attempts: nat): real
  {
    Round(Times(EstimateCost(pricing, model, avgInputTokens, maxOutputTokens), cases, attempts), PLACES_6)
  }

  ghost predicate NonNegative(p: Prices) {
    PriceOr(p.input) >= 0.0 && PriceOr(p.output) >= 0.0
  }

  /**
   Prices are per million tokens: a million of one kind costs its price, to the eighth place,
   or nothing without one, and before rounding costs add up token by token.
   */
  lemma PricesPerMillion(pricing: Pricing, model: string, in1: nat, out1: nat, in2: nat, out2: nat)
    ensures var p := ModelPrices(pricing, model);
            && EstimateCost(pricing, model, 1000000, 0)
               == Round(if p.input.Some? then p.input.value else 0.0, 100000000.0)
            && EstimateCost(pricing, model, 0, 1000000)
               == Round(if p.output.Some? then p.output.value else 0.0, 100000000.0)
            && ExactCost(p, in1 + in2, out1 + out2) == ExactCost(p, in1, out1) + ExactCost(p, in2, out2)
  {
    var p := ModelPrices(pricing, model);
    var i, o := PriceOr(p.input), PriceOr(p.output);
    assert 1000000.0 / 1000000.0 * i == i && 0.0 / 1000000.0 * o == 0.0;
    assert 1000000.0 / 1000000.0 * o == o && 0.0 / 1000000.0 * i == 0.0;
    TokensAdd(in1, in2, i);
    TokensAdd(out1, out2, o);
  }

  lemma TokensAdd(m: nat, n: nat, price: real)
    ensures (m + n) as real / 1000000.0 * price == m as real / 1000000.0 * price + n as real / 1000000.0 * price
  {
  }

  /** More tokens never cost less. */
  lemma EstimateMonotone(pricing: Pricing, model: string, in1: nat, out1: nat, in2: nat, out2: nat)
    requires NonNegative(ModelPrices(pricing, model)) && in1 <= in2 && out1 <= out2
    ensures EstimateCost(pricing, model, in1, out1) <= EstimateCost(pricing, model, in2, out2)
  {
    var p := ModelPrices(pricing, model);
    MultiplyMonotone(in1 as real / 1000000.0, in2 as real / 1000000.0, PriceOr(p.input));
    MultiplyMonotone(out1 as real / 1000000.0, out2 as real / 1000000.0, PriceOr(p.output));
    RoundMonotone(ExactCost(p, in1, out1), ExactCost(p, in2, out2), PLACES_8);
  }

  lemma CostNotNegative(pricing: Pricing, model: string, inputTokens: nat, outputTokens: nat)
    requires NonNegative(ModelPrices(pricing, model))
    ensures EstimateCost(pricing, model, inputTokens, outputTokens) >= 0.0
  {
    EstimateMonotone(pricing, model, 0, 0, inputTokens, outputTokens);
  }

  ghost predicate Within(x: real, y: real, e: real) {
    -e <= x - y <= e
  }

  lemma ScaledError(x: real, y: real, n: real, e: real)
    requires n >= 0.0 && Within(x, y, e)
    ensures Within(Scaled(x, n), Scaled(y, n), Scaled(e, n))
  {
    var d := x - y;
    assert d * n == x * n - y * n;
    MultiplyMonotone(d, e, n);
    MultiplyMonotone(-e, d, n);
    assert (-e) * n == -(e * n);
  }

  lemma TimesIsScaled(perRequest: real, cases: nat, attempts: nat)
    ensures Times(perRequest, cases, attempts) == Scaled(perRequest, cases as real * attempts as real)
    ensures cases as real * attempts as real >= 0.0
  {
  }

  lemma RoundOff(x: real, scale: real)
    requires scale > 0.0
    ensures Within(Round(x, scale), x, 0.5 / scale)
  {
    RoundNear(x, scale);
    assert (-0.5) / scale == -(0.5 / scale);
  }

  lemma ErrorsAdd(x: real, y: real, z: real, d: real, e: real)
    requires Within(x, y, d) && Within(y, z, e)
    ensures Within(x, z, e + d)
  {
  }

  /** The worst-case cost of a run before any rounding. */
  function ExactRunCost(p: Prices, input: nat, output: nat, requests: real): real {
    Scaled(ExactCost(p, input, output), requests)
  }

  /** Half a unit of the eighth place per request, and half a unit of the sixth for the total. */
  function RoundingError(requests: real): real {
    Scaled(0.5 / PLACES_8, requests) + 0.5 / PLACES_6
  }

  /** How far the twice-rounded estimate of a run can be from the exact worst-case cost. */
  lemma RunEstimateError(pricing: Pricing, model: string, input: nat, output: nat, cases: nat, attempts: nat)
    ensures var n := cases as real * attempts as real;
            Within(EstimateRunCost(pricing, model, input, output, cases, attempts),
                   ExactRunCost(ModelPrices(pricing, model), input, output, n), RoundingError(n))
  {
    var n := cases as real * attempts as real;
    var exact := ExactCost(ModelPrices(pricing, model), input, output);
    var perRequest := EstimateCost(pricing, model, input, output);
    RoundOff(exact, PLACES_8);
    TimesIsScaled(perRequest, cases, attempts);
    ScaledError(perRequest, exact, n, 0.5 / PLACES_8);
    var total := Times(perRequest, cases, attempts);
    RoundOff(total, PLACES_6);
    ErrorsAdd(Round(total, PLACES_6), total, ExactRunCost(ModelPrices(pricing, model), input, output, n),
              0.5 / PLACES_6, Scaled(0.5 / PLACES_8, n));
  }

  // ---------------------------------------------------------------------------
  // The estimate used before a dispatch
  // ---------------------------------------------------------------------------

  const ASSUMED_INPUT_TOKENS := 500
  const ROUNDING_SLACK := 0.5 / PLACES_6

  /** The estimate for one request: a fixed input size and the output limit. */
  function RequestEstimate(pricing: Pricing, model: string, maxOutputTokens: nat): real {
    EstimateRunCost(pricing, model, ASSUMED_INPUT_TOKENS, maxOutputTokens, 1, 1)
  }

  /** A response within the assumed sizes costs at most its estimate and half a millionth more. */
  lemma ActualNearEstimate(pricing: Pricing, model: string, maxOutputTokens: nat, input: nat, output: nat)
    requires NonNegative(ModelPrices(pricing, model))
    requires input <= ASSUMED_INPUT_TOKENS && output <= maxOutputTokens
    ensures EstimateCost(pricing, model, input, output)
         <= RequestEstimate(pricing, model, maxOutputTokens) + ROUNDING_SLACK
  {
    EstimateMonotone(pricing, model, input, output, ASSUMED_INPUT_TOKENS, maxOutputTokens);
    RoundNear(EstimateCost(pricing, model, ASSUMED_INPUT_TOKENS, maxOutputTokens), PLACES_6);
  }

  /** The cost of the largest request within the assumed sizes, in units of the eighth place. */
  function LargestCost(pricing: Pricing, model: string, maxOutputTokens: nat): int {
    RoundInt(ExactCost(ModelPrices(pricing, model), ASSUMED_INPUT_TOKENS, maxOutputTokens) * PLACES_8)
  }

  /** Rounding to the sixth place takes nothing off so many units of the eighth. */
  predicate KeptByRounding(units: int) {
    units % 100 == 0 || units % 100 > 50 || (units % 100 == 50 && units / 100 % 2 == 1)
  }

  lemma RoundedHundredth(units: int)
    ensures RoundInt(units as real / 100.0) ==
              units / 100 + if units % 100 != 0 && KeptByRounding(units) then 1 else 0
  {
    var q, r := units / 100, units % 100;
    assert units as real / 100.0 == q as real + r as real / 100.0;
    assert (units as real / 100.0).Floor == q;
  }

  lemma EstimateInUnits(pricing: Pricing, model: string, maxOutputTokens: nat)
    ensures var units := LargestCost(pricing, model, maxOutputTokens);
            && EstimateCost(pricing, model, ASSUMED_INPUT_TOKENS, maxOutputTokens) == units as real / PLACES_8
            && RequestEstimate(pricing, model, maxOutputTokens) == RoundInt(units as real / 100.0) as real / PLACES_6
  {
    var cost := LargestCost(pricing, model, maxOutputTokens) as real / PLACES_8;
    assert Times(cost, 1, 1) == cost;
    assert cost * PLACES_6 == LargestCost(pricing, model, maxOutputTokens) as real / 100.0;
  }

  lemma LargestIsCovered(pricing: Pricing, model: string, maxOutputTokens: nat)
    ensures EstimateCost(pricing, model, ASSUMED_INPUT_TOKENS, maxOutputTokens)
              <= RequestEstimate(pricing, model, maxOutputTokens)
            <==> KeptByRounding(LargestCost(pricing, model, maxOutputTokens))
  {
    var units := LargestCost(pricing, model, maxOutputTokens);
    EstimateInUnits(pricing, model, maxOutputTokens);
    RoundedHundredth(units);
    assert units as real / PLACES_8 <= RoundInt(units as real / 100.0) as real / PLACES_6
           <==> units <= 100 * RoundInt(units as real / 100.0);
  }

  /**
   The estimate covers every response within the assumed sizes exactly when rounding it to
   the sixth place takes nothing off the cost of the largest.
   */
  lemma EstimateCovers(pricing: Pricing, model: string, maxOutputTokens: nat)
    requires NonNegative(ModelPrices(pricing, model))
    ensures (forall input: nat, output: nat :: input <= ASSUMED_INPUT_TOKENS && output <= maxOutputTokens ==>
               EstimateCost(pricing, model, input, output) <= RequestEstimate(pricing, model, maxOutputTokens))
            <==> KeptByRounding(LargestCost(pricing, model, maxOutputTokens))
  {
    LargestIsCovered(pricing, model, maxOutputTokens);
    forall input: nat, output: nat | input <= ASSUMED_INPUT_TOKENS && output <= maxOutputTokens
      ensures EstimateCost(pricing, model, input, output)
           <= EstimateCost(pricing, model, ASSUMED_INPUT_TOKENS, maxOutputTokens)
    {
      EstimateMonotone(pricing, model, input, output, ASSUMED_INPUT_TOKENS, maxOutputTokens);
    }
  }

  /** For one: here the estimate rounds to nothing and the response does not. */
  lemma EstimateCanRoundAway()
    ensures var pricing := [("m", Prices(Some(0.0008), None))];
            && RequestEstimate(pricing, "m", 0) == 0.0
            && EstimateCost(pricing, "m", ASSUMED_INPUT_TOKENS, 0) == 0.0000004
  {
    var pricing := [("m", Prices(Some(0.0008), None))];
    assert ModelPrices(pricing, "m") == Prices(Some(0.0008), None);
    assert ExactCost(Prices(Some(0.0008), None), 500, 0) == 0.0000004;
    assert (0.0000004 * PLACES_8) == 40.0;
    assert RoundInt(40.0) == 40;
    assert 0.0000004 * 1.0 * 1.0 * PLACES_6 == 0.4;
    assert RoundInt(0.4) == 0;
  }
}
