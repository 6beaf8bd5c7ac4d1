// Quorum rules over plain signer lists: majority, percentage and weighted threshold, and
// when two accepted signer lists must share a member.
module QuorumConfigs {
  import opened Wrappers
  import opened FiniteSums

  const U32_MAX: nat := 0xFFFF_FFFF

  type u32 = x: nat | x <= 0xFFFF_FFFF

  datatype QuorumRule =
    | Majority
    | Threshold(percent: nat)
    | Weighted(weights: map<string, u32>, threshold: nat)

  datatype QuorumConfig = QuorumConfig(rule: QuorumRule, authorized: seq<string>)

  datatype TrustError =
    | ThresholdTooHigh(threshold: nat, available: nat)
    | WeightedThresholdUnachievable(requested: nat, maximum: nat)

  // SumOverflows is an arithmetic fault: the 32-bit total of the weights does not fit.
  datatype Construction = Built(config: QuorumConfig) | Refused(error: TrustError) | SumOverflows

  // DividesByZero and TooHeavy are the arithmetic faults of the rules themselves.
  datatype Verdict =
    | Decided(accepted: bool)
    | BadDid(signer: string)
    | Unauthorized(signer: string)
    | DuplicateSigner
    | DividesByZero
    | TooHeavy

  // ----- constructors -----

  function NewMajority(authorized: seq<string>): QuorumConfig {
    QuorumConfig(Majority, authorized)
  }

  function NewThreshold(authorized: seq<string>, percent: nat): Result<QuorumConfig, TrustError> {
    if percent > 100 then Failure(ThresholdTooHigh(percent, |authorized|))
    else Success(QuorumConfig(Threshold(percent), authorized))
  }

  // The authorized signers are the weighed ones, in whatever order the map yields them.
  method NewWeighted(weights: map<string, u32>, threshold: nat) returns (r: Construction)
    ensures var total := Weight(weights.Keys, weights);
            if total > U32_MAX then r == SumOverflows
            else if threshold > total then r == Refused(WeightedThresholdUnachievable(threshold, total))
            else r.Built? && r.config.rule == Weighted(weights, threshold)
                 && Distinct(r.config.authorized) && Members(r.config.authorized) == weights.Keys
    ensures r.Built? ==> MadeWeighted(r.config)
  {
    var left, total, authorized := weights.Keys, 0, [];
    while left != {}
      invariant left <= weights.Keys
      invariant total + Weight(left, weights) == Weight(weights.Keys, weights)
      invariant Members(authorized) == weights.Keys - left
      invariant Distinct(authorized)
      decreases left
    {
      var k :| k in left;
      WeightWithout(left, weights, k);
      assert k !in Members(authorized);
      assert Members(authorized + [k]) == Members(authorized) + {k};
      total := total + weights[k];
      authorized := authorized + [k];
      left := left - {k};
    }
    if total > U32_MAX {
      return SumOverflows;
    }
    if threshold > total {
      return Refused(WeightedThresholdUnachievable(threshold, total));
    }
    r := Built(QuorumConfig(Weighted(weights, threshold), authorized));
  }

  // ----- validation -----

  // The first signer that is not authorized, if any.
  function FirstUnauthorized(authorized: seq<string>, signers: seq<string>): Option<string> {
    if signers == [] then None
    else if signers[0] !in authorized then Some(signers[0])
    else FirstUnauthorized(authorized, signers[1..])
  }

  // Weights of listed signers added up; signers without a weight count nothing.
  function AddWeights(weights: map<string, u32>, signers: seq<string>): nat {
    if signers == [] then 0
    else (if signers[0] in weights then weights[signers[0]] else 0) + AddWeights(weights, signers[1..])
  }

  // `parses` says which strings are well-formed DIDs.
  function VerdictOf(parses: string -> bool, config: QuorumConfig, signers: seq<string>): Verdict {
    var stranger := FirstUnauthorized(config.authorized, signers);
    if stranger.Some? then
      if parses(stranger.value) then Unauthorized(stranger.value) else BadDid(stranger.value)
    else if !Distinct(signers) then DuplicateSigner
    else
      match config.rule
      case Majority => Decided(|signers| >= |config.authorized| / 2 + 1)
      case Threshold(percent) =>
        if config.authorized == [] then DividesByZero
        else Decided(|signers| * 100 / |config.authorized| >= percent)
      case Weighted(weights, threshold) =>
        var total := AddWeights(weights, signers);
        if total > U32_MAX then TooHeavy else Decided(total >= threshold)
  }

  method ValidateQuorum(parses: string -> bool, config: QuorumConfig, signers: seq<string>) returns (r: Verdict)
    ensures r == VerdictOf(parses, config, signers)
  {
    var i := 0;
    while i < |signers|
      invariant i <= |signers|
      invariant FirstUnauthorized(config.authorized, signers[i..]) == FirstUnauthorized(config.authorized, signers)
    {
      assert signers[i..][1..] == signers[i + 1..];
      if signers[i] !in config.authorized {
        return if parses(signers[i]) then Unauthorized(signers[i]) else BadDid(signers[i]);
      }
      i := i + 1;
    }
    assert FirstUnauthorized(config.authorized, signers) == None;
    MembersOfDistinct(signers);
    if |Members(signers)| != |signers| {
      return DuplicateSigner;
    }
    match config.rule {
      case Majority =>
        var required := |config.authorized| / 2 + 1;
        return Decided(|signers| >= required);
      case Threshold(percent) =>
        if config.authorized == [] {
          return DividesByZero;
        }
        var percentage := |signers| * 100 / |config.authorized|;
        return Decided(percentage >= percent);
      case Weighted(weights, threshold) =>
        var total := 0;
        i := 0;
        while i < |signers|
          invariant i <= |signers|
          invariant total <= U32_MAX
          invariant total + AddWeights(weights, signers[i..]) == AddWeights(weights, signers)
        {
          assert signers[i..][1..] == signers[i + 1..];
          if signers[i] in weights {
            total := total + weights[signers[i]];
          }
          if total > U32_MAX {
            return TooHeavy;
          }
          i := i + 1;
        }
        return Decided(total >= threshold);
    }
  }

  // Percentages above a hundred are refused, all others accepted as they are.
  lemma NewThresholdExact(authorized: seq<string>, percent: nat)
    ensures NewThreshold(authorized, percent).Success? <==> percent <= 100
    ensures percent <= 100 ==> NewThreshold(authorized, percent).value == QuorumConfig(Threshold(percent), authorized)
    ensures percent > 100 ==> NewThreshold(authorized, percent).error == ThresholdTooHigh(percent, |authorized|)
  {
  }

  // ----- which check refuses first -----

  lemma {:induction false} FirstUnauthorizedExact(authorized: seq<string>, signers: seq<string>, i: nat)
    requires i < |signers| && signers[i] !in authorized && forall j | 0 <= j < i :: signers[j] in authorized
    ensures FirstUnauthorized(authorized, signers) == Some(signers[i])
    decreases i
  {
    if i > 0 {
      FirstUnauthorizedExact(authorized, signers[1..], i - 1);
    }
  }

  // The first signer that is not authorized is reported, as an unauthorized or a malformed
  // one; then repeated signers are refused, and only then does the rule decide.
  lemma RefusalExact(parses: string -> bool, config: QuorumConfig, signers: seq<string>)
    ensures forall i | 0 <= i < |signers| && signers[i] !in config.authorized && (forall j | 0 <= j < i :: signers[j] in config.authorized) ::
              VerdictOf(parses, config, signers) == if parses(signers[i]) then Unauthorized(signers[i]) else BadDid(signers[i])
    ensures (forall s | s in signers :: s in config.authorized) ==>
              (VerdictOf(parses, config, signers) == DuplicateSigner <==> !Distinct(signers))
    ensures VerdictOf(parses, config, signers).Decided? ==> Distinct(signers) && forall s | s in signers :: s in config.authorized
  {
    forall i | 0 <= i < |signers| && signers[i] !in config.authorized && (forall j | 0 <= j < i :: signers[j] in config.authorized)
      ensures FirstUnauthorized(config.authorized, signers) == Some(signers[i])
    {
      FirstUnauthorizedExact(config.authorized, signers, i);
    }
    AuthorizedWhenNoStranger(config.authorized, signers);
  }

  // ----- the rules agree with their usual statements -----

  lemma PercentageIsExact(n: nat, all: nat, percent: nat)
    requires all > 0
    ensures n * 100 / all >= percent <==> 100 * n >= percent * all
  {
    var q := n * 100 / all;
    assert q * all <= n * 100 < (q + 1) * all;
    if q >= percent {
      Scale(percent, q, all);
    } else {
      Scale(q + 1, percent, all);
    }
  }

  predicate Accepts(parses: string -> bool, config: QuorumConfig, signers: seq<string>) {
    VerdictOf(parses, config, signers) == Decided(true)
  }

  lemma {:induction false} AuthorizedWhenNoStranger(authorized: seq<string>, signers: seq<string>)
    ensures FirstUnauthorized(authorized, signers) == None <==> forall s | s in signers :: s in authorized
    decreases signers
  {
    if signers != [] {
      AuthorizedWhenNoStranger(authorized, signers[1..]);
      assert forall s :: s in signers <==> s == signers[0] || s in signers[1..];
    }
  }

  // The fewest signers the counting rules accept.
  function Fewest(config: QuorumConfig): nat
    requires !config.rule.Weighted?
  {
    if config.rule.Majority? then |config.authorized| / 2 + 1
    else (config.rule.percent * |config.authorized| + 99) / 100
  }

  // A percentage of no signers at all, which only the empty list reaches.
  predicate DividesByNobody(config: QuorumConfig) {
    config.rule.Threshold? && config.authorized == []
  }

  lemma DivisionByZeroExact(parses: string -> bool, config: QuorumConfig, signers: seq<string>)
    ensures VerdictOf(parses, config, signers) == DividesByZero <==> DividesByNobody(config) && signers == []
  {
  }

  // Majority and percentage rules accept exactly the distinct authorized lists long enough:
  // more than half the configured signers, or at least the stated percentage of them.
  lemma CountingRuleExact(parses: string -> bool, config: QuorumConfig, signers: seq<string>)
    requires !config.rule.Weighted? && !DividesByNobody(config)
    ensures Accepts(parses, config, signers)
       <==> (forall s | s in signers :: s in config.authorized) && Distinct(signers) && |signers| >= Fewest(config)
    ensures |signers| >= Fewest(config)
       <==> if config.rule.Majority? then 2 * |signers| > |config.authorized|
            else 100 * |signers| >= config.rule.percent * |config.authorized|
  {
    AuthorizedWhenNoStranger(config.authorized, signers);
    if config.rule.Threshold? {
      var t := config.rule.percent * |config.authorized|;
      PercentageIsExact(|signers|, |config.authorized|, config.rule.percent);
      assert 100 * |signers| >= t <==> |signers| >= (t + 99) / 100;
    }
  }

  // ----- intersection -----

  predicate Share(a: seq<string>, b: seq<string>) {
    exists s | s in a :: s in b
  }

  lemma CountedListsMeet(authorized: seq<string>, a: seq<string>, b: seq<string>)
    requires Distinct(a) && Distinct(b) && |a| + |b| > |authorized|
    requires (forall s | s in a :: s in authorized) && (forall s | s in b :: s in authorized)
    ensures Share(a, b)
  {
    MembersOfDistinct(a);
    MembersOfDistinct(b);
    MembersOfDistinct(authorized);
    LargeSetsMeet(Members(a), Members(b), Members(authorized));
    var s :| s in Members(a) * Members(b);
  }

  // Any two lists accepted by majority, or by a percentage above fifty, share a signer.
  lemma CountingQuorumsMeet(parses: string -> bool, config: QuorumConfig, a: seq<string>, b: seq<string>)
    requires config.rule == Majority || (config.rule.Threshold? && config.rule.percent > 50)
    requires Accepts(parses, config, a) && Accepts(parses, config, b)
    ensures Share(a, b)
  {
    if DividesByNobody(config) {
      DivisionByZeroExact(parses, config, a);
    } else {
      CountingRuleExact(parses, config, a);
      CountingRuleExact(parses, config, b);
      if config.rule.Threshold? {
        Scale(51, config.rule.percent, |config.authorized|);
      }
      assert 2 * Fewest(config) > |config.authorized|;
      CountedListsMeet(config.authorized, a, b);
    }
  }

  // Exactly when: with distinct authorized signers, all pairs of accepted lists share a
  // signer if and only if twice the fewest accepted exceeds their number.
  lemma CountingQuorumsMeetExactly(parses: string -> bool, config: QuorumConfig)
    requires !config.rule.Weighted? && !DividesByNobody(config) && Distinct(config.authorized)
    ensures (forall a, b | Accepts(parses, config, a) && Accepts(parses, config, b) :: Share(a, b))
       <==> 2 * Fewest(config) > |config.authorized|
  {
    var all, m := config.authorized, Fewest(config);
    if 2 * m > |all| {
      forall a, b | Accepts(parses, config, a) && Accepts(parses, config, b) ensures Share(a, b) {
        CountingRuleExact(parses, config, a);
        CountingRuleExact(parses, config, b);
        CountedListsMeet(all, a, b);
      }
    } else {
      DisjointListsAccepted(parses, config);
    }
  }

  lemma DisjointListsAccepted(parses: string -> bool, config: QuorumConfig)
    requires !config.rule.Weighted? && !DividesByNobody(config) && Distinct(config.authorized)
    requires 2 * Fewest(config) <= |config.authorized|
    ensures var a, b := config.authorized[..Fewest(config)], config.authorized[Fewest(config)..2 * Fewest(config)];
            Accepts(parses, config, a) && Accepts(parses, config, b) && !Share(a, b)
  {
    var a, b := config.authorized[..Fewest(config)], config.authorized[Fewest(config)..2 * Fewest(config)];
    CountingRuleExact(parses, config, a);
    CountingRuleExact(parses, config, b);
    assert forall s | s in a :: s in config.authorized;
    assert forall s | s in b :: s in config.authorized;
  }

  // ----- weighted rules -----

  // Distinct signers add up to the weight of those that have one.
  lemma {:induction false} AddWeightsIsWeight(weights: map<string, u32>, signers: seq<string>)
    requires Distinct(signers)
    ensures AddWeights(weights, signers) == Weight(Members(signers) * weights.Keys, weights)
    decreases signers
  {
    if signers != [] {
      var first, weighed := signers[0], Members(signers) * weights.Keys;
      assert Members(signers) == {first} + Members(signers[1..]);
      assert first !in signers[1..];
      AddWeightsIsWeight(weights, signers[1..]);
      if first in weights {
        assert weighed - {first} == Members(signers[1..]) * weights.Keys;
        WeightWithout(weighed, weights, first);
      } else {
        assert weighed == Members(signers[1..]) * weights.Keys;
      }
    }
  }

  // Any weighted rule, made by the constructor or not: distinct authorized signers are
  // weighed, those without a weight counting nothing, and a sum beyond 32 bits is a fault.
  lemma WeightedVerdictExact(parses: string -> bool, config: QuorumConfig, signers: seq<string>)
    requires config.rule.Weighted? && Distinct(signers) && forall s | s in signers :: s in config.authorized
    ensures var weight := Weight(Members(signers) * config.rule.weights.Keys, config.rule.weights);
            VerdictOf(parses, config, signers) == if weight > U32_MAX then TooHeavy else Decided(weight >= config.rule.threshold)
  {
    AuthorizedWhenNoStranger(config.authorized, signers);
    AddWeightsIsWeight(config.rule.weights, signers);
  }

  // A configuration as the weighted constructor makes it.
  ghost predicate MadeWeighted(config: QuorumConfig) {
    && config.rule.Weighted?
    && Members(config.authorized) == config.rule.weights.Keys
    && config.rule.threshold <= Weight(config.rule.weights.Keys, config.rule.weights) <= U32_MAX
  }

  // The duplicate and authorization checks keep the sum below the total, so no addition
  // overflows, and acceptance is a comparison of the signers' weight.
  lemma WeightedRuleExact(parses: string -> bool, config: QuorumConfig, signers: seq<string>)
    requires MadeWeighted(config)
    ensures VerdictOf(parses, config, signers) != TooHeavy
    ensures Accepts(parses, config, signers)
       <==> && Members(signers) <= config.rule.weights.Keys && Distinct(signers)
            && Weight(Members(signers), config.rule.weights) >= config.rule.threshold
  {
    var weights := config.rule.weights;
    AuthorizedWhenNoStranger(config.authorized, signers);
    assert forall s :: s in config.authorized <==> s in Members(config.authorized);
    if Members(signers) <= weights.Keys && Distinct(signers) {
      AddWeightsIsWeight(weights, signers);
      assert Members(signers) * weights.Keys == Members(signers);
      WeightOfSubset(Members(signers), weights.Keys, weights);
    }
  }

  // Thresholds above half the total weight force accepted lists to share a signer.
  lemma WeightedQuorumsMeet(parses: string -> bool, config: QuorumConfig, a: seq<string>, b: seq<string>)
    requires MadeWeighted(config)
    requires 2 * config.rule.threshold > Weight(config.rule.weights.Keys, config.rule.weights)
    requires Accepts(parses, config, a) && Accepts(parses, config, b)
    ensures Share(a, b)
  {
    WeightedRuleExact(parses, config, a);
    WeightedRuleExact(parses, config, b);
    HeavySetsMeet(Members(a), Members(b), config.rule.weights.Keys, config.rule.weights);
    var s :| s in Members(a) * Members(b);
  }
}
