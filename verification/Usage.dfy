// Usage accounting (crates/kenjaku-core/src/types/usage.rs) and the cost estimate
// (crates/kenjaku-infra/src/llm/gemini.rs). Amounts of money are real numbers.

module Usage {
  // ---- Microdollars ------------------------------------------------------------------------

  const MICRO := 1_000_000.0

  // Rounding half away from zero.
  function Round(x: real): int {
    if x >= 0.0 then (x + 0.5).Floor else -((-x + 0.5).Floor)
  }

  function Round6dp(x: real): real {
    Round(x * MICRO) as real / MICRO
  }

  // A whole number of microdollars.
  predicate OnGrid(x: real) {
    Round(x * 1_000_000.0) as real == x * 1_000_000.0
  }

  lemma {:induction false} RoundIsNear(x: real)
    ensures -0.5 <= Round(x) as real - x <= 0.5
  {
  }

  // Halves are rounded away from zero.
  lemma {:induction false} RoundOfHalf(n: nat)
    ensures Round(n as real + 0.5) == n + 1 && Round(-(n as real) - 0.5) == -(n + 1)
  {
  }

  lemma {:induction false} RoundOfInt(n: int)
    ensures Round(n as real) == n
  {
  }

  lemma {:induction false} Round6dpIsNear(x: real)
    ensures -0.000_000_5 <= Round6dp(x) - x <= 0.000_000_5
    ensures OnGrid(Round6dp(x))
    ensures OnGrid(x) ==> Round6dp(x) == x
  {
    RoundIsNear(x * MICRO);
    var n := Round(x * MICRO);
    assert Round6dp(x) * MICRO == n as real;
    RoundOfInt(n);
  }

  lemma {:induction false} GridIsClosed(x: real, y: real)
    requires OnGrid(x) && OnGrid(y)
    ensures OnGrid(x + y)
  {
    var a, b := Round(x * MICRO), Round(y * MICRO);
    assert (x + y) * MICRO == (a + b) as real;
    RoundOfInt(a + b);
  }

  // ---- The estimate ------------------------------------------------------------------------

  predicate Contains(s: string, part: string) {
    part <= s || (s != "" && Contains(s[1..], part))
  }

  // Dollars per million input and output tokens.
  datatype Rates = Rates(input: real, output: real)

  function CostRatesForModel(model: string): Rates {
    if Contains(model, "pro") then Rates(2.00, 12.00)
    else if Contains(model, "flash-lite") || Contains(model, "flash_lite") then Rates(0.10, 0.40)
    else Rates(0.30, 2.50)
  }

  datatype ServiceTier = Standard | Flex | Priority

  function CostMultiplier(tier: ServiceTier): real {
    match tier
    case Standard => 1.0
    case Flex => 0.5
    case Priority => 1.75
  }

  function ExactCost(model: string, tier: ServiceTier, promptTokens: nat, completionTokens: nat): real {
    var rates := CostRatesForModel(model);
    CostMultiplier(tier) *
    (promptTokens as real / 1_000_000.0 * rates.input + completionTokens as real / 1_000_000.0 * rates.output)
  }

  lemma {:induction false} ContainsPart(a: string, part: string, b: string)
    ensures Contains(a + part + b, part)
  {
    var s := a + part + b;
    if a == "" {
      assert part <= s;
    } else {
      assert s[1..] == a[1..] + part + b;
      ContainsPart(a[1..], part, b);
    }
  }

  lemma {:induction false} ContainsSplits(s: string, part: string) returns (a: string, b: string)
    requires Contains(s, part)
    ensures s == a + part + b
  {
    if part <= s {
      a, b := "", s[|part|..];
    } else {
      a, b := ContainsSplits(s[1..], part);
      a := [s[0]] + a;
    }
  }

  // The price list, in dollars for a million tokens: input, then output.
  lemma {:induction false} PriceList(model: string, a: string, b: string, c: string)
    requires model == a + b + c
    ensures b == "pro" ==> CostRatesForModel(model) == Rates(2.00, 12.00)
    ensures b in {"flash-lite", "flash_lite"} && !Contains(model, "pro") ==>
              CostRatesForModel(model) == Rates(0.10, 0.40)
    ensures !Contains(model, "pro") && !Contains(model, "flash-lite") && !Contains(model, "flash_lite") ==>
              CostRatesForModel(model) == Rates(0.30, 2.50)
  {
    ContainsPart(a, b, c);
  }

  // The price by model and tier.
  lemma {:induction false} PriceOfCall(model: string, prompt: nat, completion: nat)
    ensures var rates := CostRatesForModel(model);
            var full := (prompt as real * rates.input + completion as real * rates.output) / 1_000_000.0;
            && ExactCost(model, Standard, prompt, completion) == full
            && ExactCost(model, Flex, prompt, completion) == full / 2.0
            && ExactCost(model, Priority, prompt, completion) == full * 1.75
  {
  }

  // The estimate is a whole number of microdollars, at most half a microdollar from the exact price.
  function EstimateCost(model: string, tier: ServiceTier, promptTokens: nat, completionTokens: nat): (cost: real)
    ensures OnGrid(cost)
    ensures -0.000_000_5 <= cost - ExactCost(model, tier, promptTokens, completionTokens) <= 0.000_000_5
  {
    Round6dpIsNear(ExactCost(model, tier, promptTokens, completionTokens));
    Round6dp(ExactCost(model, tier, promptTokens, completionTokens))
  }

  // ---- Totals ------------------------------------------------------------------------------

  const U32_MAX: nat := 0xFFFF_FFFF

  function SaturatingAdd(a: nat, b: nat): nat {
    Capped(a + b, U32_MAX)
  }

  function Capped(n: nat, bound: nat): nat {
    if n <= bound then n else bound
  }

  function AtMostU32(n: nat): nat {
    Capped(n, U32_MAX)
  }

  datatype LlmCall = LlmCall(
    purpose: string, model: string, inputTokens: nat, outputTokens: nat, costUsd: real, latencyMs: nat)

  function Input(c: LlmCall): int { c.inputTokens }

  function Output(c: LlmCall): int { c.outputTokens }

  function Micros(c: LlmCall): int { Round(c.costUsd * MICRO) }

  function Sum(f: LlmCall -> int, calls: seq<LlmCall>): int {
    if calls == [] then 0 else Sum(f, calls[..|calls| - 1]) + f(calls[|calls| - 1])
  }

  function InputSum(calls: seq<LlmCall>): (n: nat) {
    if calls == [] then 0 else InputSum(calls[..|calls| - 1]) + calls[|calls| - 1].inputTokens
  }

  function OutputSum(calls: seq<LlmCall>): (n: nat) {
    if calls == [] then 0 else OutputSum(calls[..|calls| - 1]) + calls[|calls| - 1].outputTokens
  }

  function CostSum(calls: seq<LlmCall>): real {
    if calls == [] then 0.0 else CostSum(calls[..|calls| - 1]) + calls[|calls| - 1].costUsd
  }

  // The cost as it is kept: rounded after every call.
  function RunningCost(calls: seq<LlmCall>): real {
    if calls == [] then 0.0 else Round6dp(RunningCost(calls[..|calls| - 1]) + calls[|calls| - 1].costUsd)
  }

  class UsageStats {
    var inputTokens: nat
    var outputTokens: nat
    var totalTokens: nat
    var estimatedCostUsd: real
    var calls: seq<LlmCall>

    predicate Valid()
      reads this
    {
      && inputTokens == AtMostU32(InputSum(calls))
      && outputTokens == AtMostU32(OutputSum(calls))
      && totalTokens == AtMostU32(InputSum(calls) + OutputSum(calls))
      && estimatedCostUsd == RunningCost(calls)
    }

    constructor ()
      ensures Valid() && calls == []
    {
      inputTokens, outputTokens, totalTokens, estimatedCostUsd, calls := 0, 0, 0, 0.0, [];
    }

    method Push(call: LlmCall)
      requires Valid()
      modifies this
      ensures Valid() && calls == old(calls) + [call]
      ensures inputTokens == Capped(old(inputTokens) + call.inputTokens, 4_294_967_295)
      ensures outputTokens == Capped(old(outputTokens) + call.outputTokens, 4_294_967_295)
      ensures totalTokens == Capped(inputTokens + outputTokens, 4_294_967_295)
      ensures estimatedCostUsd == Round6dp(old(estimatedCostUsd) + call.costUsd)
    {
      inputTokens := SaturatingAdd(inputTokens, call.inputTokens);
      outputTokens := SaturatingAdd(outputTokens, call.outputTokens);
      totalTokens := SaturatingAdd(inputTokens, outputTokens);
      estimatedCostUsd := Round6dp(estimatedCostUsd + call.costUsd);
      assert (calls + [call])[..|calls|] == calls;
      calls := calls + [call];
    }
  }

  lemma {:induction false} LargestU32(n: nat)
    ensures AtMostU32(n) == if n <= 4_294_967_295 then n else 4_294_967_295
  {
  }

  // The documented invariant total == input + output holds exactly while the sum of the two fits.
  lemma {:induction false} TotalIsSumUnlessSaturated(calls: seq<LlmCall>)
    ensures var i, o := AtMostU32(InputSum(calls)), AtMostU32(OutputSum(calls));
            AtMostU32(InputSum(calls) + OutputSum(calls)) == i + o <==> i + o <= U32_MAX
  {
  }

  // The kept cost is at most half a microdollar per call from the sum of the costs.
  lemma {:induction false} CostErrorIsSmall(calls: seq<LlmCall>)
    ensures var e := RunningCost(calls) - CostSum(calls);
            -0.5 * |calls| as real <= e * 1_000_000.0 <= 0.5 * |calls| as real
    ensures OnGrid(RunningCost(calls))
  {
    if calls != [] {
      var before, last := calls[..|calls| - 1], calls[|calls| - 1];
      CostErrorIsSmall(before);
      Round6dpIsNear(RunningCost(before) + last.costUsd);
      assert |calls| as real == |before| as real + 1.0;
    }
  }

  // It is that sum when every cost is a whole number of microdollars, as estimates are.
  lemma {:induction false} GridCostIsExact(calls: seq<LlmCall>)
    requires forall c :: c in calls ==> OnGrid(c.costUsd)
    ensures RunningCost(calls) == CostSum(calls) && OnGrid(CostSum(calls))
    ensures CostSum(calls) * MICRO == Sum(Micros, calls) as real
  {
    if calls != [] {
      var before, last := calls[..|calls| - 1], calls[|calls| - 1];
      GridCostIsExact(before);
      assert last in calls;
      GridIsClosed(CostSum(before), last.costUsd);
      Round6dpIsNear(CostSum(calls));
    }
  }

  // ---- Order does not matter ---------------------------------------------------------------

  lemma {:induction false} SumRemove(f: LlmCall -> int, calls: seq<LlmCall>, i: nat)
    requires i < |calls|
    ensures Sum(f, calls) == Sum(f, calls[..i] + calls[i + 1..]) + f(calls[i])
  {
    var n := |calls| - 1;
    var rest := calls[..i] + calls[i + 1..];
    if i == n {
      assert rest == calls[..n];
    } else {
      SumRemove(f, calls[..n], i);
      assert rest[..n - 1] == calls[..n][..i] + calls[..n][i + 1..] && rest[n - 1] == calls[n];
    }
  }

  lemma {:induction false} MultisetRemove(calls: seq<LlmCall>, i: nat)
    requires i < |calls|
    ensures multiset(calls[..i] + calls[i + 1..]) == multiset(calls) - multiset{calls[i]}
  {
    assert calls == calls[..i] + [calls[i]] + calls[i + 1..];
  }

  lemma {:induction false} SumOfPermutation(f: LlmCall -> int, a: seq<LlmCall>, b: seq<LlmCall>)
    requires multiset(a) == multiset(b)
    ensures Sum(f, a) == Sum(f, b)
    decreases |a|
  {
    if a == [] {
      assert |b| == |multiset(b)| == 0;
    } else {
      var n := |a| - 1;
      var x, front := a[n], a[..n];
      assert x in multiset(b);
      var i :| 0 <= i < |b| && b[i] == x;
      MultisetRemove(b, i);
      MultisetRemove(a, n);
      assert front + a[n + 1..] == front;
      SumOfPermutation(f, front, b[..i] + b[i + 1..]);
      SumRemove(f, b, i);
    }
  }

  lemma {:induction false} SumsAgree(calls: seq<LlmCall>)
    ensures InputSum(calls) == Sum(Input, calls) && OutputSum(calls) == Sum(Output, calls)
  {
    if calls != [] {
      SumsAgree(calls[..|calls| - 1]);
    }
  }

  // Concurrent steps may record their calls in any order: the totals are the same.
  lemma {:induction false} TotalsIgnoreOrder(a: seq<LlmCall>, b: seq<LlmCall>)
    requires multiset(a) == multiset(b)
    requires forall c :: c in a ==> OnGrid(c.costUsd)
    ensures InputSum(a) == InputSum(b) && OutputSum(a) == OutputSum(b) && RunningCost(a) == RunningCost(b)
  {
    SumsAgree(a);
    SumsAgree(b);
    SumOfPermutation(Input, a, b);
    SumOfPermutation(Output, a, b);
    SumOfPermutation(Micros, a, b);
    forall c | c in b ensures OnGrid(c.costUsd) {
      assert c in multiset(a);
    }
    GridCostIsExact(a);
    GridCostIsExact(b);
  }
}
