/**
 Per-model token counts and the cost of a fleet: an aggregate cost over merged models that never exceeds the sum of the
 per-game costs.
 */
module ViewerStats {
  datatype Tokens = Tokens(input: int, output: int, cache: int, cacheWrite: int) {
    function Plus(other: Tokens): Tokens {
      Tokens(input + other.input, output + other.output, cache + other.cache, cacheWrite + other.cacheWrite)
    }

    /** Input tokens billed at the full price; negative when an event reports more cached tokens than input tokens. */
    function Uncached(): int {
      input - cache - cacheWrite
    }
  }

  const NO_TOKENS := Tokens(0, 0, 0, 0)

  type ModelTokens = map<string, Tokens>

  function TokensOf(m: ModelTokens, model: string): Tokens {
    if model in m then m[model] else NO_TOKENS
  }

  // ------------------------------------------------------------------------------------------------ sums over models

  ghost function SumOver(models: set<string>, value: string -> real): real {
    if models == {} then 0.0
    else
      var model :| model in models;
      value(model) + SumOver(models - {model}, value)
  }

  lemma {:induction false} SumPick(models: set<string>, value: string -> real, model: string)
    requires model in models
    ensures SumOver(models, value) == value(model) + SumOver(models - {model}, value)
    decreases models
  {
    var first :| first in models && SumOver(models, value) == value(first) + SumOver(models - {first}, value);
    if first != model {
      SumPick(models - {first}, value, model);
      SumPick(models - {model}, value, first);
      assert models - {first} - {model} == models - {model} - {first};
    }
  }

  lemma {:induction false} SumOfEqual(models: set<string>, f: string -> real, g: string -> real)
    requires forall model :: model in models ==> f(model) == g(model)
    ensures SumOver(models, f) == SumOver(models, g)
    decreases models
  {
    if models != {} {
      var model :| model in models;
      SumPick(models, f, model);
      SumPick(models, g, model);
      SumOfEqual(models - {model}, f, g);
    }
  }

  /** Models without tokens add nothing. */
  lemma {:induction false} SumOfLarger(models: set<string>, more: set<string>, value: string -> real)
    requires models <= more && forall model :: model in more - models ==> value(model) == 0.0
    ensures SumOver(models, value) == SumOver(more, value)
    decreases more
  {
    if more - models == {} {
      assert forall model :: model in more && model !in models ==> model in more - models;
      assert models == more;
    } else {
      var model :| model in more - models;
      SumPick(more, value, model);
      SumOfLarger(models, more - {model}, value);
    }
  }

  /** Pointwise at most gives a sum at most, with equality exactly when the values are equal. */
  lemma {:induction false} SumIsMonotone(models: set<string>, f: string -> real, g: string -> real)
    requires forall model :: model in models ==> f(model) <= g(model)
    ensures SumOver(models, f) <= SumOver(models, g)
    ensures SumOver(models, f) == SumOver(models, g) <==> forall model :: model in models ==> f(model) == g(model)
    decreases models
  {
    if models != {} {
      var model :| model in models;
      SumPick(models, f, model);
      SumPick(models, g, model);
      SumIsMonotone(models - {model}, f, g);
      assert models == (models - {model}) + {model};
    }
  }

  // ------------------------------------------------------------------------------------------------ totals of a field

  ghost const INPUT := (t: Tokens) => t.input as real
  ghost const OUTPUT := (t: Tokens) => t.output as real
  ghost const CACHE := (t: Tokens) => t.cache as real

  ghost function FieldOf(m: ModelTokens, field: Tokens -> real): string -> real {
    (model: string) => field(TokensOf(m, model))
  }

  /** A field summed over all models. */
  ghost function TokenTotal(m: ModelTokens, field: Tokens -> real): real {
    SumOver(m.Keys, FieldOf(m, field))
  }

  lemma TotalOfUpdated(m: ModelTokens, model: string, t: Tokens, field: Tokens -> real)
    requires field(NO_TOKENS) == 0.0
    ensures TokenTotal(m[model := t], field) == TokenTotal(m, field) + field(t) - field(TokensOf(m, model))
  {
    var after := m[model := t];
    var rest := m.Keys - {model};
    assert after.Keys - {model} == rest;
    SumPick(after.Keys, FieldOf(after, field), model);
    forall other | other in rest ensures FieldOf(after, field)(other) == FieldOf(m, field)(other) {
      assert TokensOf(after, other) == TokensOf(m, other);
    }
    SumOfEqual(rest, FieldOf(after, field), FieldOf(m, field));
    if model in m {
      SumPick(m.Keys, FieldOf(m, field), model);
    } else {
      assert rest == m.Keys;
      assert TokensOf(m, model) == NO_TOKENS;
    }
    assert TokensOf(after, model) == t;
  }

  // ------------------------------------------------------------------------------------------------------------ cost

  /** Dollars per million tokens. */
  datatype Pricing = Pricing(input: real, output: real, cached: real, cacheWrite: real) {
    ghost predicate NonNegative() {
      input >= 0.0 && output >= 0.0 && cached >= 0.0 && cacheWrite >= 0.0
    }
  }

  function Positive(n: int): nat {
    if n < 0 then 0 else n
  }

  function Price(tokens: int, perMillion: real): real {
    tokens as real / 1000000.0 * perMillion
  }

  function ModelCost(p: Pricing, t: Tokens): real {
    Price(Positive(t.Uncached()), p.input)
    + Price(t.cache, p.cached)
    + Price(t.cacheWrite, p.cacheWrite)
    + Price(t.output, p.output)
  }

  lemma PricesAdd(a: int, b: int, perMillion: real)
    ensures Price(a + b, perMillion) == Price(a, perMillion) + Price(b, perMillion)
  {
  }

  lemma PriceSign(tokens: int, perMillion: real)
    requires tokens >= 0 && perMillion >= 0.0
    ensures Price(tokens, perMillion) >= 0.0
    ensures Price(tokens, perMillion) == 0.0 <==> tokens == 0 || perMillion == 0.0
  {
    var millions := tokens as real / 1000000.0;
    assert millions == 0.0 <==> tokens == 0;
    ProductSign(millions, perMillion);
  }

  lemma PriceOfNone(tokens: int, perMillion: real)
    requires tokens == 0
    ensures Price(tokens, perMillion) == 0.0
  {
  }

  ghost function CostAt(m: ModelTokens, pricing: string -> Pricing): string -> real {
    (model: string) => ModelCost(pricing(model), TokensOf(m, model))
  }

  /** `GameStats.cost()` of one game's model tokens, and the TOTAL row's cost of the merged ones. */
  ghost function Cost(m: ModelTokens, pricing: string -> Pricing): real {
    SumOver(m.Keys, CostAt(m, pricing))
  }

  // ------------------------------------------------------------------------------------------------- what each rate prices

  lemma PriceOfHigherRate(tokens: int, perMillion: real, d: real)
    ensures Price(tokens, perMillion + d) == Price(tokens, perMillion) + Price(tokens, d)
    ensures Price(tokens, d) == d * (tokens as real) / 1000000.0
    ensures Price(tokens, 0.0) == 0.0
  {
  }

  datatype Rate = Input | Output | Cached | CacheWrite

  function Raise(p: Pricing, rate: Rate, d: real): Pricing {
    match rate
    case Input => p.(input := p.input + d)
    case Output => p.(output := p.output + d)
    case Cached => p.(cached := p.cached + d)
    case CacheWrite => p.(cacheWrite := p.cacheWrite + d)
  }

  /** The tokens a rate is for: output tokens, tokens read from the cache, tokens written to it, and, for the input rate, the
      tokens that are neither, but none if there are fewer than none. */
  function TokensFor(rate: Rate, t: Tokens): int {
    match rate
    case Input => if t.input > t.cache + t.cacheWrite then t.input - t.cache - t.cacheWrite else 0
    case Output => t.output
    case Cached => t.cache
    case CacheWrite => t.cacheWrite
  }

  /** Tokens are charged at their own rate, and at no other: all rates 0 cost nothing, and raising one rate raises the cost by
      that much for each million of the tokens it is for. */
  lemma EachRateHasItsTokens(p: Pricing, t: Tokens, rate: Rate, d: real)
    ensures ModelCost(Pricing(0.0, 0.0, 0.0, 0.0), t) == 0.0
    ensures ModelCost(Raise(p, rate, d), t) == ModelCost(p, t) + Price(TokensFor(rate, t), d)
    ensures Price(TokensFor(rate, t), d) == d * (TokensFor(rate, t) as real) / 1000000.0
  {
    var left := Positive(t.Uncached());
    assert left == TokensFor(Input, t);
    PriceOfHigherRate(left, p.input, d);
    PriceOfHigherRate(t.output, p.output, d);
    PriceOfHigherRate(t.cache, p.cached, d);
    PriceOfHigherRate(t.cacheWrite, p.cacheWrite, d);
    PriceOfHigherRate(TokensFor(rate, t), 0.0, d);
    hide Price;
    PriceOfHigherRate(left, 0.0, 0.0);
    PriceOfHigherRate(t.output, 0.0, 0.0);
    PriceOfHigherRate(t.cache, 0.0, 0.0);
    PriceOfHigherRate(t.cacheWrite, 0.0, 0.0);
  }

  lemma {:induction false} ScaledSum(models: set<string>, f: string -> real, g: string -> real, k: real)
    requires forall model :: model in models ==> g(model) == k * f(model)
    ensures SumOver(models, g) == k * SumOver(models, f)
    decreases models
  {
    if models != {} {
      var model :| model in models;
      SumPick(models, f, model);
      SumPick(models, g, model);
      ScaledSum(models - {model}, f, g, k);
      Distribute(k, f(model), SumOver(models - {model}, f));
    }
  }

  lemma Distribute(k: real, a: real, b: real)
    ensures k * (a + b) == k * a + k * b
  {}

  ghost function FieldFor(rate: Rate): Tokens -> real {
    (t: Tokens) => TokensFor(rate, t) as real
  }

  ghost function ExtraCost(m: ModelTokens, rate: Rate, d: real): string -> real {
    (model: string) => Price(TokensFor(rate, TokensOf(m, model)), d)
  }

  /** So does the cost of a game, and that of the TOTAL row: raising one rate for every model raises the cost by that much for
      each million of the tokens of its kind. */
  lemma CostFollowsRate(m: ModelTokens, pricing: string -> Pricing, higher: string -> Pricing, rate: Rate, d: real)
    requires forall model :: higher(model) == Raise(pricing(model), rate, d)
    ensures Cost(m, higher) == Cost(m, pricing) + d / 1000000.0 * TokenTotal(m, FieldFor(rate))
  {
    hide SumOver, ModelCost, Price, Raise, TokensFor;
    var extra := ExtraCost(m, rate, d);
    forall model | model in m.Keys
      ensures CostAt(m, higher)(model) == CostAt(m, pricing)(model) + extra(model)
      ensures extra(model) == d / 1000000.0 * FieldOf(m, FieldFor(rate))(model) {
      EachRateHasItsTokens(pricing(model), TokensOf(m, model), rate, d);
      Regroup(d, TokensFor(rate, TokensOf(m, model)) as real);
    }
    SumOfSums(m.Keys, CostAt(m, pricing), extra, CostAt(m, higher));
    ScaledSum(m.Keys, FieldOf(m, FieldFor(rate)), extra, d / 1000000.0);
  }

  lemma Regroup(d: real, n: real)
    ensures d * n / 1000000.0 == d / 1000000.0 * n
  {}

  function MergedTokens(games: seq<ModelTokens>, model: string): Tokens {
    if games == [] then NO_TOKENS
    else MergedTokens(games[..|games| - 1], model).Plus(TokensOf(games[|games| - 1], model))
  }

  function AllModels(games: seq<ModelTokens>): set<string> {
    if games == [] then {} else AllModels(games[..|games| - 1]) + games[|games| - 1].Keys
  }

  function Merged(games: seq<ModelTokens>): ModelTokens {
    map model | model in AllModels(games) :: MergedTokens(games, model)
  }

  /** The aggregation loop of `build_view`: each game's models are added to the running totals. */
  method Aggregate(games: seq<ModelTokens>) returns (agg: ModelTokens)
    ensures agg == Merged(games)
  {
    agg := map[];
    for i := 0 to |games|
      invariant agg == Merged(games[..i])
    {
      assert games[..i + 1][..i] == games[..i];
      agg := AddGame(agg, games[i]);
      assert agg == Merged(games[..i + 1]) by {
        forall model | model in AllModels(games[..i + 1])
          ensures agg[model] == MergedTokens(games[..i + 1], model)
        {
          if model !in AllModels(games[..i]) { UnknownModel(games[..i], model); }
        }
      }
    }
    assert games[..|games|] == games;
  }

  lemma {:induction false} UnknownModel(games: seq<ModelTokens>, model: string)
    requires model !in AllModels(games)
    ensures MergedTokens(games, model) == NO_TOKENS
  {
    if games != [] { UnknownModel(games[..|games| - 1], model); }
  }

  method AddGame(agg: ModelTokens, game: ModelTokens) returns (sum: ModelTokens)
    ensures sum.Keys == agg.Keys + game.Keys
    ensures forall model :: model in sum ==> sum[model] == TokensOf(agg, model).Plus(TokensOf(game, model))
  {
    sum := agg;
    var todo := game.Keys;
    while todo != {}
      invariant todo <= game.Keys && sum.Keys == agg.Keys + (game.Keys - todo)
      invariant forall model :: model in sum ==>
                  sum[model] == if model in todo then TokensOf(agg, model)
                                else TokensOf(agg, model).Plus(TokensOf(game, model))
      decreases todo
    {
      var model :| model in todo;
      if model !in sum {
        sum := sum[model := NO_TOKENS];
      }
      sum := sum[model := sum[model].Plus(game[model])];
      todo := todo - {model};
    }
  }

  ghost function SumOfCosts(games: seq<ModelTokens>, pricing: string -> Pricing): real {
    if games == [] then 0.0
    else SumOfCosts(games[..|games| - 1], pricing) + Cost(games[|games| - 1], pricing)
  }

  /** One model's costs, summed over the games. */
  ghost function ModelCosts(games: seq<ModelTokens>, p: Pricing, model: string): real {
    if games == [] then 0.0
    else ModelCosts(games[..|games| - 1], p, model) + ModelCost(p, TokensOf(games[|games| - 1], model))
  }

  /** One model's uncached input tokens, game by game. */
  ghost function UncachedCounts(games: seq<ModelTokens>, model: string): seq<int> {
    if games == [] then []
    else UncachedCounts(games[..|games| - 1], model) + [TokensOf(games[|games| - 1], model).Uncached()]
  }

  ghost function Sum(counts: seq<int>): int {
    if counts == [] then 0 else Sum(counts[..|counts| - 1]) + counts[|counts| - 1]
  }

  ghost function PositiveSum(counts: seq<int>): int {
    if counts == [] then 0 else PositiveSum(counts[..|counts| - 1]) + Positive(counts[|counts| - 1])
  }

  ghost predicate NoneNegative(counts: seq<int>) {
    forall i :: 0 <= i < |counts| ==> counts[i] >= 0
  }

  ghost predicate NonePositive(counts: seq<int>) {
    forall i :: 0 <= i < |counts| ==> counts[i] <= 0
  }

  /** Negative counts of some games are not offset by positive counts of others. */
  ghost predicate SameSign(counts: seq<int>) {
    NoneNegative(counts) || NonePositive(counts)
  }

  lemma {:induction false} PositiveParts(counts: seq<int>)
    ensures PositiveSum(counts) >= Sum(counts) && PositiveSum(counts) >= 0
    ensures PositiveSum(counts) == Sum(counts) <==> NoneNegative(counts)
    ensures PositiveSum(counts) == 0 <==> NonePositive(counts)
  {
    if counts != [] {
      var front, last := counts[..|counts| - 1], counts[|counts| - 1];
      PositiveParts(front);
      assert counts == front + [last];
      assert NoneNegative(counts) <==> NoneNegative(front) && last >= 0;
      assert NonePositive(counts) <==> NonePositive(front) && last <= 0;
    }
  }

  /** What merging lets cancel. */
  ghost function Offset(counts: seq<int>): int {
    PositiveSum(counts) - Positive(Sum(counts))
  }

  lemma OffsetIsZeroIff(counts: seq<int>)
    ensures Offset(counts) >= 0
    ensures Offset(counts) == 0 <==> SameSign(counts)
  {
    PositiveParts(counts);
  }

  lemma CostOfSum(p: Pricing, a: Tokens, b: Tokens, gap: int)
    ensures
      Price(gap, p.input) + ModelCost(p, a) + ModelCost(p, b) - ModelCost(p, a.Plus(b))
      == Price(gap + Positive(a.Uncached()) + Positive(b.Uncached()) - Positive(a.Uncached() + b.Uncached()), p.input)
  {
    hide Price, Positive;
    var x, y, z := Positive(a.Uncached()), Positive(b.Uncached()), Positive(a.Uncached() + b.Uncached());
    assert a.Plus(b).Uncached() == a.Uncached() + b.Uncached();
    PricesAdd(a.cache, b.cache, p.cached);
    PricesAdd(a.cacheWrite, b.cacheWrite, p.cacheWrite);
    PricesAdd(a.output, b.output, p.output);
    PricesAdd(gap + x + y - z, z, p.input);
    PricesAdd(gap, x + y, p.input);
    PricesAdd(x, y, p.input);
    assert gap + (x + y) == gap + x + y - z + z;
  }

  /** How much one model's merged cost falls short of the sum of its costs. */
  lemma {:induction false} CostGap(games: seq<ModelTokens>, p: Pricing, model: string)
    ensures MergedTokens(games, model).Uncached() == Sum(UncachedCounts(games, model))
    ensures ModelCosts(games, p, model) - ModelCost(p, MergedTokens(games, model))
            == Price(Offset(UncachedCounts(games, model)), p.input)
  {
    if games != [] {
      hide ModelCost, Price;
      var front, last := games[..|games| - 1], TokensOf(games[|games| - 1], model);
      CostGap(front, p, model);
      var before, counts := UncachedCounts(front, model), UncachedCounts(games, model);
      assert counts == before + [last.Uncached()] && counts[..|counts| - 1] == before;
      CostOfSum(p, MergedTokens(front, model), last, Offset(before));
    }
  }

  ghost predicate NothingOffset(games: seq<ModelTokens>, p: Pricing, model: string) {
    p.input == 0.0 || SameSign(UncachedCounts(games, model))
  }

  /** One model, over all games: merging never costs more, and costs the same exactly when the full input price is 0 or
      the games' uncached counts do not have mixed signs. */
  lemma MergedModelCost(games: seq<ModelTokens>, p: Pricing, model: string)
    requires p.NonNegative()
    ensures ModelCost(p, MergedTokens(games, model)) <= ModelCosts(games, p, model)
    ensures ModelCost(p, MergedTokens(games, model)) == ModelCosts(games, p, model) <==>
            NothingOffset(games, p, model)
  {
    hide ModelCost, Offset, Price, SameSign;
    CostGap(games, p, model);
    OffsetIsZeroIff(UncachedCounts(games, model));
    PriceSign(Offset(UncachedCounts(games, model)), p.input);
  }

  lemma ProductSign(a: real, b: real)
    requires a >= 0.0 && b >= 0.0
    ensures a * b >= 0.0 && (a * b == 0.0 <==> a == 0.0 || b == 0.0)
  {
  }

  ghost function CostsAt(games: seq<ModelTokens>, pricing: string -> Pricing): string -> real {
    (model: string) => ModelCosts(games, pricing(model), model)
  }

  lemma {:induction false} SumOfSums(models: set<string>, f: string -> real, g: string -> real, h: string -> real)
    requires forall model :: model in models ==> h(model) == f(model) + g(model)
    ensures SumOver(models, h) == SumOver(models, f) + SumOver(models, g)
    decreases models
  {
    if models != {} {
      var model :| model in models;
      SumPick(models, f, model);
      SumPick(models, g, model);
      SumPick(models, h, model);
      SumOfSums(models - {model}, f, g, h);
    }
  }

  lemma NoTokensAreFree(p: Pricing, t: Tokens)
    requires t.Uncached() == 0 && t.cache == 0 && t.cacheWrite == 0 && t.output == 0
    ensures ModelCost(p, t) == 0.0
  {
    PriceOfNone(t.cache, p.cached);
    PriceOfNone(t.cacheWrite, p.cacheWrite);
    PriceOfNone(t.output, p.output);
    PriceOfNone(Positive(t.Uncached()), p.input);
  }

  /** Summing by game and summing by model give the same total. */
  lemma {:induction false} CostsByModel(games: seq<ModelTokens>, pricing: string -> Pricing, models: set<string>)
    requires AllModels(games) <= models
    ensures SumOfCosts(games, pricing) == SumOver(models, CostsAt(games, pricing))
  {
    if games == [] {
      ZeroSum(models, CostsAt(games, pricing));
    } else {
      var front, last := games[..|games| - 1], games[|games| - 1];
      hide ModelCost;
      CostsByModel(front, pricing, models);
      forall model | model in models - last.Keys ensures CostAt(last, pricing)(model) == 0.0 {
        NoTokensAreFree(pricing(model), TokensOf(last, model));
      }
      SumOfLarger(last.Keys, models, CostAt(last, pricing));
      SumOfSums(models, CostsAt(front, pricing), CostAt(last, pricing), CostsAt(games, pricing));
    }
  }

  lemma {:induction false} ZeroSum(models: set<string>, value: string -> real)
    requires forall model :: model in models ==> value(model) == 0.0
    ensures SumOver(models, value) == 0.0
    decreases models
  {
    if models != {} {
      var model :| model in models;
      SumPick(models, value, model);
      ZeroSum(models - {model}, value);
    }
  }

  /** The aggregate cost is at most the sum of the per-game costs, and equal to it if and only if no model with a nonzero
      input price has an uncached count above 0 in one game and below 0 in another. */
  lemma AggregateCost(games: seq<ModelTokens>, pricing: string -> Pricing)
    requires forall model :: pricing(model).NonNegative()
    ensures Cost(Merged(games), pricing) <= SumOfCosts(games, pricing)
    ensures Cost(Merged(games), pricing) == SumOfCosts(games, pricing) <==>
            forall model :: model in AllModels(games) ==> NothingOffset(games, pricing(model), model)
  {
    hide ModelCost, NothingOffset;
    var models := AllModels(games);
    var merged := CostAt(Merged(games), pricing);
    assert Merged(games).Keys == models;
    CostsByModel(games, pricing, models);
    forall model | model in models
      ensures merged(model) <= CostsAt(games, pricing)(model)
      ensures merged(model) == CostsAt(games, pricing)(model) <==>
              NothingOffset(games, pricing(model), model)
    {
      MergedModelCost(games, pricing(model), model);
    }
    SumIsMonotone(models, merged, CostsAt(games, pricing));
  }

  lemma {:induction false} CountsAreNonNegative(games: seq<ModelTokens>, model: string)
    requires forall i :: 0 <= i < |games| ==> TokensOf(games[i], model).Uncached() >= 0
    ensures NoneNegative(UncachedCounts(games, model))
  {
    if games != [] { CountsAreNonNegative(games[..|games| - 1], model); }
  }

  /** The usual case: when no game reports more cached than input tokens for a model, nothing is lost. */
  lemma AggregateCostIsExact(games: seq<ModelTokens>, pricing: string -> Pricing)
    requires forall model :: pricing(model).NonNegative()
    requires forall i, model :: 0 <= i < |games| && model in games[i] ==>
               games[i][model].cache + games[i][model].cacheWrite <= games[i][model].input
    ensures Cost(Merged(games), pricing) == SumOfCosts(games, pricing)
  {
    AggregateCost(games, pricing);
    forall model | model in AllModels(games) ensures NothingOffset(games, pricing(model), model) {
      CountsAreNonNegative(games, model);
    }
  }

  /** Two games, one of which reports 5 more cached than input tokens: merged, the 5 are offset against the other's. */
  lemma OffsetLowersTheTotal(p: Pricing)
    requires p.NonNegative() && p.input > 0.0
    ensures
      var games := [map["m" := Tokens(10, 0, 0, 0)], map["m" := Tokens(0, 0, 5, 0)]];
      Cost(Merged(games), _ => p) < SumOfCosts(games, _ => p)
  {
    var games := [map["m" := Tokens(10, 0, 0, 0)], map["m" := Tokens(0, 0, 5, 0)]];
    AggregateCost(games, _ => p);
    assert games[..1] == [games[0]] && [games[0]][..0] == [];
    assert UncachedCounts([games[0]], "m") == [10];
    assert UncachedCounts(games, "m") == [10, 0 - 5];
    var counts := UncachedCounts(games, "m");
    assert counts[0] == 10 && counts[1] == 0 - 5;
    assert "m" in AllModels(games) && !NothingOffset(games, p, "m");
  }
}
