// Choosing an executor for each announced job: bids filtered and scored by the job's policy
// and the bidder's verified reputation, and each job assigned at most once. Scores are reals.
module BidSelection {
  import opened Wrappers

  type JobId = string
  type Did = string
  type Cid = string

  datatype Bid = Bid(jobId: JobId, executorDid: Did, price: nat, timestamp: int, comment: string, region: Option<string>)

  datatype ExecutionPolicy = ExecutionPolicy(
    repWeight: real,
    priceWeight: real,
    regionFilter: Option<string>,
    minReputation: Option<real>,
    maxPrice: Option<nat>)

  datatype RecordEvent = JobCompletedSuccessfully | JobFailed | OtherEvent

  datatype Record = Record(subject: Did, event: RecordEvent)

  function Clamp(x: real, lo: real, hi: real): real {
    var atLeast := if x < lo then lo else x;
    if atLeast > hi then hi else atLeast
  }

  // ----- reputation from verified records -----

  function Matching(records: map<Cid, Record>, did: Did, event: RecordEvent): set<Cid> {
    set c | c in records && records[c] == Record(did, event)
  }

  function ReputationFrom(successes: nat, failures: nat): real {
    Clamp(50.0 + successes as real * 10.0 - failures as real * 15.0, 0.0, 100.0)
  }

  function Reputation(records: map<Cid, Record>, did: Did): real {
    ReputationFrom(|Matching(records, did, JobCompletedSuccessfully)|, |Matching(records, did, JobFailed)|)
  }

  method CalculateReputationScore(records: map<Cid, Record>, did: Did) returns (score: real)
    ensures score == Reputation(records, did)
  {
    var successes, failures := 0, 0;
    var left := records.Keys;
    ghost var seen: map<Cid, Record> := map[];
    while left != {}
      invariant left <= records.Keys
      invariant seen == records - left
      invariant successes == |Matching(seen, did, JobCompletedSuccessfully)|
      invariant failures == |Matching(seen, did, JobFailed)|
      decreases left
    {
      var c :| c in left;
      var record := records[c];
      MatchingNext(seen, c, record, did, JobCompletedSuccessfully);
      MatchingNext(seen, c, record, did, JobFailed);
      if record.subject == did {
        match record.event {
          case JobCompletedSuccessfully => successes := successes + 1;
          case JobFailed => failures := failures + 1;
          case OtherEvent =>
        }
      }
      seen := seen[c := record];
      left := left - {c};
    }
    assert seen == records;
    score := Clamp(50.0 + successes as real * 10.0 - failures as real * 15.0, 0.0, 100.0);
    if successes == 0 && failures == 0 {
      score := 50.0;
    }
  }

  lemma MatchingNext(records: map<Cid, Record>, c: Cid, record: Record, did: Did, event: RecordEvent)
    requires c !in records
    ensures |Matching(records[c := record], did, event)|
         == |Matching(records, did, event)| + if record == Record(did, event) then 1 else 0
  {
    if record == Record(did, event) {
      assert Matching(records[c := record], did, event) == Matching(records, did, event) + {c};
    } else {
      assert Matching(records[c := record], did, event) == Matching(records, did, event);
    }
  }

  // ----- scoring one bid -----

  function PriceComponent(bid: Bid, policy: ExecutionPolicy): real {
    var ceiling := if policy.maxPrice.Some? then policy.maxPrice.value as real else bid.price as real * 2.0;
    if ceiling > 0.0 then Clamp(1.0 - bid.price as real / ceiling, 0.0, 1.0) else 1.0
  }

  function ReputationComponent(reputation: real): real {
    Clamp(reputation / 100.0, 0.0, 1.0)
  }

  function Blend(priceWeight: real, price: real, repWeight: real, reputation: real): real {
    priceWeight * price + repWeight * reputation
  }

  function TotalScore(bid: Bid, policy: ExecutionPolicy, reputation: real): real {
    Blend(policy.priceWeight, PriceComponent(bid, policy), policy.repWeight, ReputationComponent(reputation))
  }

  function EvaluateBidAgainstPolicy(bid: Bid, policy: ExecutionPolicy, reputation: real): Option<real> {
    if policy.maxPrice.Some? && bid.price > policy.maxPrice.value then None
    else if policy.minReputation.Some? && reputation < policy.minReputation.value then None
    else
      var total := TotalScore(bid, policy, reputation);
      if total > 0.0 then Some(total) else None
  }

  // The region filter comes first, then price, reputation and a positive score.
  function ScoreOf(bid: Bid, policy: ExecutionPolicy, records: map<Cid, Record>): Option<real> {
    if policy.regionFilter.Some? && bid.region != policy.regionFilter then None
    else EvaluateBidAgainstPolicy(bid, policy, Reputation(records, bid.executorDid))
  }

  // ----- choosing among bids -----

  function Scores(bids: seq<Bid>, policy: ExecutionPolicy, records: map<Cid, Record>): seq<Option<real>> {
    seq(|bids|, i requires 0 <= i < |bids| => ScoreOf(bids[i], policy, records))
  }

  // The last of the highest scores.
  function BestScored(scores: seq<Option<real>>): (best: Option<nat>)
    ensures best.Some? ==> best.value < |scores| && scores[best.value].Some?
  {
    if scores == [] then None
    else
      var last := |scores| - 1;
      var best := BestScored(scores[..last]);
      if scores[last].None? then best
      else if best.None? || scores[last].value >= scores[best.value].value then Some(last)
      else best
  }

  // The first of the lowest-priced bids.
  function Cheapest(bids: seq<Bid>): (best: Option<nat>)
    ensures best.Some? ==> best.value < |bids|
  {
    if bids == [] then None
    else
      var last := |bids| - 1;
      var best := Cheapest(bids[..last]);
      if best.None? || bids[last].price < bids[best.value].price then Some(last) else best
  }

  function Choose(bids: seq<Bid>, policy: Option<ExecutionPolicy>, records: map<Cid, Record>): Option<nat> {
    if policy.Some? then BestScored(Scores(bids, policy.value, records)) else Cheapest(bids)
  }

  method ChooseBid(bids: seq<Bid>, policy: Option<ExecutionPolicy>, records: map<Cid, Record>) returns (best: Option<nat>)
    ensures best == Choose(bids, policy, records)
  {
    best := None;
    var bestScore := 0.0;
    var i := 0;
    while i < |bids|
      invariant i <= |bids|
      invariant best == Choose(bids[..i], policy, records)
      invariant policy.Some? && best.Some? ==> Some(bestScore) == ScoreOf(bids[best.value], policy.value, records)
    {
      assert bids[..i + 1][..i] == bids[..i];
      if policy.Some? {
        assert Scores(bids[..i + 1], policy.value, records)[..i] == Scores(bids[..i], policy.value, records);
        var region := policy.value.regionFilter;
        if region.None? || bids[i].region == region {
          var reputation := CalculateReputationScore(records, bids[i].executorDid);
          var score := EvaluateBidAgainstPolicy(bids[i], policy.value, reputation);
          if score.Some? && (best.None? || score.value >= bestScore) {
            best, bestScore := Some(i), score.value;
          }
        }
      } else if best.None? || bids[i].price < bids[best.value].price {
        best := Some(i);
      }
      i := i + 1;
    }
    assert bids[..i] == bids;
  }

  // ----- what the choice guarantees -----

  // Index i has a score, no score is higher, and none after it is as high.
  predicate IsBest(scores: seq<Option<real>>, i: nat) {
    && i < |scores| && scores[i].Some?
    && forall j | 0 <= j < |scores| && scores[j].Some? ::
         scores[j].value <= scores[i].value && (j > i ==> scores[j].value < scores[i].value)
  }

  lemma {:induction false} BestScoredIsBest(scores: seq<Option<real>>)
    ensures match BestScored(scores)
            case None => forall j | 0 <= j < |scores| :: scores[j] == None
            case Some(i) => IsBest(scores, i)
    decreases |scores|
  {
    if scores != [] {
      var earlier := scores[..|scores| - 1];
      BestScoredIsBest(earlier);
      assert forall j | 0 <= j < |earlier| :: earlier[j] == scores[j];
    }
  }

  lemma {:induction false} BestScoredExact(scores: seq<Option<real>>)
    ensures BestScored(scores) == None <==> forall j | 0 <= j < |scores| :: scores[j] == None
    ensures forall i: nat :: BestScored(scores) == Some(i) <==> IsBest(scores, i)
  {
    BestScoredIsBest(scores);
    forall i: nat | IsBest(scores, i) ensures BestScored(scores) == Some(i) {
      assert scores[i].Some?;
    }
  }

  lemma {:induction false} CheapestExact(bids: seq<Bid>)
    ensures Cheapest(bids).None? <==> bids == []
    ensures Cheapest(bids).Some? ==>
              var i := Cheapest(bids).value;
              forall j | 0 <= j < |bids| :: bids[i].price <= bids[j].price && (j < i ==> bids[i].price < bids[j].price)
    decreases |bids|
  {
    if bids != [] {
      CheapestExact(bids[..|bids| - 1]);
    }
  }

  // A chosen bid meets the region, price and reputation filters with a positive score, and
  // no eligible bid scores higher; without a policy no bid is cheaper. No bid is chosen only
  // when none is eligible.
  lemma ChoiceIsBest(bids: seq<Bid>, policy: Option<ExecutionPolicy>, records: map<Cid, Record>)
    ensures var best := Choose(bids, policy, records);
            match (best, policy) {
            case (Some(i), Some(p)) =>
              var reputation := Reputation(records, bids[i].executorDid);
              && (p.regionFilter.Some? ==> bids[i].region == p.regionFilter)
              && (p.maxPrice.Some? ==> bids[i].price <= p.maxPrice.value)
              && (p.minReputation.Some? ==> reputation >= p.minReputation.value)
              && TotalScore(bids[i], p, reputation) > 0.0
              && forall j | 0 <= j < |bids| && ScoreOf(bids[j], p, records).Some? ::
                   ScoreOf(bids[j], p, records).value <= TotalScore(bids[i], p, reputation)
            case (Some(i), None) => forall j | 0 <= j < |bids| :: bids[i].price <= bids[j].price
            case (None, Some(p)) => forall j | 0 <= j < |bids| :: ScoreOf(bids[j], p, records) == None
            case (None, None) => bids == []
            }
  {
    if policy.Some? {
      var scores := Scores(bids, policy.value, records);
      BestScoredIsBest(scores);
      assert forall j | 0 <= j < |bids| :: scores[j] == ScoreOf(bids[j], policy.value, records);
    } else {
      CheapestExact(bids);
    }
  }

  // Under a price ceiling a cheaper bid never has a smaller price component; without one the
  // price does not count, since every positive price is measured against its own double.
  lemma PriceComponentMeaning(a: Bid, b: Bid, policy: ExecutionPolicy)
    requires a.price <= b.price
    ensures policy.maxPrice.Some? ==> PriceComponent(a, policy) >= PriceComponent(b, policy)
    ensures policy.maxPrice == None ==> PriceComponent(a, policy) == if a.price == 0 then 1.0 else 0.5
  {
    match policy.maxPrice {
      case Some(ceiling) =>
        if ceiling > 0 {
          DivideMonotone(a.price as real, b.price as real, ceiling as real);
        }
      case None =>
        if a.price > 0 {
          HalfOfDouble(a.price as real);
        }
    }
  }

  // Exactly when the cheaper of two bids a policy admits has the better price component:
  // under a ceiling always, without one only when it is free.
  lemma PriceCountsExactly(a: Bid, b: Bid, policy: ExecutionPolicy)
    requires a.price < b.price && (policy.maxPrice.Some? ==> b.price <= policy.maxPrice.value)
    ensures PriceComponent(a, policy) > PriceComponent(b, policy) <==> policy.maxPrice.Some? || a.price == 0
  {
    match policy.maxPrice {
      case Some(ceiling) =>
        DivideStrictly(a.price as real, b.price as real, ceiling as real);
      case None =>
        PriceComponentMeaning(a, b, policy);
        HalfOfDouble(b.price as real);
    }
  }

  // For bidders of equal reputation, a positive price weight carries this over to scores.
  lemma {:induction false} PriceDecidesExactly(a: Bid, b: Bid, policy: ExecutionPolicy, reputation: real)
    requires policy.priceWeight > 0.0
    requires a.price < b.price && (policy.maxPrice.Some? ==> b.price <= policy.maxPrice.value)
    ensures TotalScore(a, policy, reputation) > TotalScore(b, policy, reputation) <==> policy.maxPrice.Some? || a.price == 0
  {
    BlendStrictly(policy.priceWeight, PriceComponent(a, policy), PriceComponent(b, policy), policy.repWeight, ReputationComponent(reputation));
    PriceCountsExactly(a, b, policy);
  }

  lemma BlendStrictly(priceWeight: real, x: real, y: real, repWeight: real, reputation: real)
    requires priceWeight > 0.0
    ensures Blend(priceWeight, x, repWeight, reputation) > Blend(priceWeight, y, repWeight, reputation) <==> x > y
  {
    ScaleStrictly(priceWeight, x, y);
  }

  lemma ScaleStrictly(weight: real, x: real, y: real)
    requires weight > 0.0
    ensures weight * x > weight * y <==> x > y
  {
    if x <= y {
      Monotone(weight, x, y);
    } else {
      assert weight * (x - y) > 0.0;
    }
  }

  lemma DivideStrictly(x: real, y: real, z: real)
    requires 0.0 <= x < y <= z
    ensures 0.0 <= x / z < y / z <= 1.0
  {
    var p, q := x / z, y / z;
    assert z * p == x && z * q == y;
    if q <= p {
      Monotone(z, q, p);
    }
    if q > 1.0 {
      ScaleStrictly(z, q, 1.0);
    }
  }

  lemma DivideMonotone(x: real, y: real, z: real)
    requires x <= y && z > 0.0
    ensures x / z <= y / z
  {
  }

  lemma HalfOfDouble(x: real)
    requires x > 0.0
    ensures x / (x * 2.0) == 0.5
  {
  }

  // The price component is what is left of the ceiling, as a share of it.
  lemma PriceComponentExact(bid: Bid, policy: ExecutionPolicy)
    requires policy.maxPrice.Some? && bid.price <= policy.maxPrice.value
    ensures var ceiling := policy.maxPrice.value as real;
            if policy.maxPrice.value == 0 then PriceComponent(bid, policy) == 1.0
            else ceiling * PriceComponent(bid, policy) == ceiling - bid.price as real
  {
    var price, ceiling := bid.price as real, policy.maxPrice.value as real;
    if ceiling > 0.0 {
      ShareOf(price, ceiling);
    }
  }

  lemma ShareOf(x: real, y: real)
    requires 0.0 <= x <= y && y > 0.0
    ensures 0.0 <= x / y <= 1.0 && y * (1.0 - x / y) == y - x
  {
    var q := x / y;
    assert y * q == x;
    if q > 1.0 {
      ScaleStrictly(y, q, 1.0);
    }
  }

  // A score is the price component under the price weight plus the reputation, out of a
  // hundred, under the reputation weight.
  lemma ScoreIsLinear(bid: Bid, policy: ExecutionPolicy, reputation: real)
    requires 0.0 <= reputation <= 100.0
    ensures TotalScore(bid, policy.(priceWeight := 1.0, repWeight := 0.0), reputation) == PriceComponent(bid, policy)
    ensures 100.0 * TotalScore(bid, policy.(priceWeight := 0.0, repWeight := 1.0), reputation) == reputation
    ensures forall a, b, c, d ::
              BothWeights(bid, policy, reputation, a + c, b + d)
              == BothWeights(bid, policy, reputation, a, b) + BothWeights(bid, policy, reputation, c, d)
  {
    var x, y := PriceComponent(bid, policy), ReputationComponent(reputation);
    ShareOf(reputation, 100.0);
    BlendUnits(x, y);
    forall a, b, c, d
      ensures BothWeights(bid, policy, reputation, a + c, b + d)
           == BothWeights(bid, policy, reputation, a, b) + BothWeights(bid, policy, reputation, c, d)
    {
      BlendAdds(a, b, c, d, x, y);
    }
  }

  function BothWeights(bid: Bid, policy: ExecutionPolicy, reputation: real, priceWeight: real, repWeight: real): real {
    TotalScore(bid, policy.(priceWeight := priceWeight, repWeight := repWeight), reputation)
  }

  lemma BlendUnits(x: real, y: real)
    ensures Blend(1.0, x, 0.0, y) == x && Blend(0.0, x, 1.0, y) == y
  {
  }

  lemma BlendAdds(a: real, b: real, c: real, d: real, x: real, y: real)
    ensures Blend(a + c, x, b + d, y) == Blend(a, x, b, y) + Blend(c, x, d, y)
  {
    assert (a + c) * x == a * x + c * x && (b + d) * y == b * y + d * y;
  }

  // Exactly when a policy admits a bid, and with what score.
  lemma AdmittedExactly(bid: Bid, policy: ExecutionPolicy, records: map<Cid, Record>)
    ensures var reputation := Reputation(records, bid.executorDid);
            && (ScoreOf(bid, policy, records).Some? <==>
                  && (policy.regionFilter.Some? ==> bid.region == policy.regionFilter)
                  && (policy.maxPrice.Some? ==> bid.price <= policy.maxPrice.value)
                  && (policy.minReputation.Some? ==> reputation >= policy.minReputation.value)
                  && TotalScore(bid, policy, reputation) > 0.0)
            && (ScoreOf(bid, policy, records).Some? ==> ScoreOf(bid, policy, records).value == TotalScore(bid, policy, reputation))
  {
  }

  // ----- what records do to a reputation -----

  // Fifty, ten more for each success and fifteen less for each failure, between 0 and 100.
  lemma ReputationExact(records: map<Cid, Record>, did: Did)
    ensures var successes := set c | c in records && records[c].subject == did && records[c].event.JobCompletedSuccessfully?;
            var failures := set c | c in records && records[c].subject == did && records[c].event.JobFailed?;
            var standing := 50.0 + 10.0 * |successes| as real - 15.0 * |failures| as real;
            && (0.0 <= standing <= 100.0 ==> Reputation(records, did) == standing)
            && (standing < 0.0 ==> Reputation(records, did) == 0.0)
            && (standing > 100.0 ==> Reputation(records, did) == 100.0)
  {
    var successes := set c | c in records && records[c].subject == did && records[c].event.JobCompletedSuccessfully?;
    var failures := set c | c in records && records[c].subject == did && records[c].event.JobFailed?;
    assert Matching(records, did, JobCompletedSuccessfully) == successes;
    assert Matching(records, did, JobFailed) == failures;
  }

  lemma NoRecordsMeansFifty(records: map<Cid, Record>, did: Did)
    requires forall c | c in records :: records[c].subject != did
    ensures Reputation(records, did) == 50.0
  {
    assert Matching(records, did, JobCompletedSuccessfully) == {} == Matching(records, did, JobFailed);
  }

  // The subject's standing before clamping.
  function Standing(records: map<Cid, Record>, did: Did): real {
    50.0 + 10.0 * |Matching(records, did, JobCompletedSuccessfully)| as real - 15.0 * |Matching(records, did, JobFailed)| as real
  }

  // One more failure costs its subject fifteen points or all it has, less only where
  // successes in excess of a hundred points absorb it, and no one else anything.
  lemma FailureLowersReputation(records: map<Cid, Record>, cid: Cid, subject: Did, did: Did)
    requires cid !in records
    ensures var before, after := Reputation(records, did), Reputation(records[cid := Record(subject, JobFailed)], did);
            if did != subject then after == before
            else after <= before
                 && (Standing(records, did) <= 100.0 ==> after == before - if before < 15.0 then before else 15.0)
  {
    var failure := Record(subject, JobFailed);
    MatchingNext(records, cid, failure, did, JobCompletedSuccessfully);
    MatchingNext(records, cid, failure, did, JobFailed);
  }

  // One more success earns its subject ten points or what is missing to a hundred, less only
  // where failures below zero absorb it.
  lemma SuccessAmount(records: map<Cid, Record>, cid: Cid, subject: Did)
    requires cid !in records && Standing(records, subject) >= 0.0
    ensures var before, after := Reputation(records, subject), Reputation(records[cid := Record(subject, JobCompletedSuccessfully)], subject);
            after == before + if before > 90.0 then 100.0 - before else 10.0
  {
    var success := Record(subject, JobCompletedSuccessfully);
    MatchingNext(records, cid, success, subject, JobCompletedSuccessfully);
    MatchingNext(records, cid, success, subject, JobFailed);
  }

  // A bidder whose reputation falls scores no higher, if it is still admitted.
  lemma FailureLowersScore(bid: Bid, policy: ExecutionPolicy, records: map<Cid, Record>, cid: Cid, subject: Did)
    requires policy.repWeight >= 0.0 && cid !in records
    ensures var before, after := ScoreOf(bid, policy, records), ScoreOf(bid, policy, records[cid := Record(subject, JobFailed)]);
            && (after.Some? ==> before.Some? && after.value <= before.value)
            && (bid.executorDid != subject ==> after == before)
  {
    var after := records[cid := Record(subject, JobFailed)];
    FailureLowersReputation(records, cid, subject, bid.executorDid);
    GainIsShared(bid, bid, policy, Reputation(after, bid.executorDid), Reputation(records, bid.executorDid));
  }

  // With a non-negative reputation weight, a failure of a losing bidder leaves the same bid
  // winning, ties included.
  lemma {:induction false} FailureKeepsWinner(bids: seq<Bid>, policy: ExecutionPolicy, records: map<Cid, Record>, i: nat, loser: Did, cid: Cid)
    requires policy.repWeight >= 0.0 && cid !in records
    requires BestScored(Scores(bids, policy, records)) == Some(i) && loser != bids[i].executorDid
    ensures BestScored(Scores(bids, policy, records[cid := Record(loser, JobFailed)])) == Some(i)
  {
    var after := records[cid := Record(loser, JobFailed)];
    var earlier, later := Scores(bids, policy, records), Scores(bids, policy, after);
    forall j | 0 <= j < |bids|
      ensures (later[j].Some? ==> earlier[j].Some? && later[j].value <= earlier[j].value) && (j == i ==> later[j] == earlier[j])
    {
      FailureLowersScore(bids[j], policy, records, cid, loser);
    }
    LowerScoresKeepBest(earlier, later, i);
  }

  lemma LowerScoresKeepBest(earlier: seq<Option<real>>, later: seq<Option<real>>, i: nat)
    requires |earlier| == |later| && BestScored(earlier) == Some(i) && later[i] == earlier[i]
    requires forall j | 0 <= j < |later| && later[j].Some? :: earlier[j].Some? && later[j].value <= earlier[j].value
    ensures BestScored(later) == Some(i)
  {
    BestScoredExact(earlier);
    assert IsBest(earlier, i);
    assert IsBest(later, i);
    BestScoredExact(later);
  }

  // ----- a success never costs its executor the job -----

  lemma SuccessRaisesReputation(records: map<Cid, Record>, cid: Cid, subject: Did, did: Did)
    requires cid !in records
    ensures var after := records[cid := Record(subject, JobCompletedSuccessfully)];
            if did == subject then Reputation(after, did) >= Reputation(records, did)
            else Reputation(after, did) == Reputation(records, did)
  {
    var success := Record(subject, JobCompletedSuccessfully);
    MatchingNext(records, cid, success, did, JobCompletedSuccessfully);
    MatchingNext(records, cid, success, did, JobFailed);
  }

  lemma WeightedClamp(weight: real, a: real, b: real)
    requires weight >= 0.0 && a <= b
    ensures weight * ReputationComponent(a) <= weight * ReputationComponent(b)
  {
    assert a / 100.0 <= b / 100.0;
    Monotone(weight, ReputationComponent(a), ReputationComponent(b));
  }

  lemma Monotone(weight: real, a: real, b: real)
    requires weight >= 0.0 && a <= b
    ensures weight * a <= weight * b
  {
  }

  // A bidder whose reputation rises from r to r' gains the same amount on each of its bids.
  lemma GainIsShared(a: Bid, b: Bid, policy: ExecutionPolicy, r: real, r': real)
    requires policy.repWeight >= 0.0 && r <= r'
    ensures TotalScore(a, policy, r') - TotalScore(a, policy, r) == TotalScore(b, policy, r') - TotalScore(b, policy, r) >= 0.0
  {
    WeightedClamp(policy.repWeight, r, r');
  }

  // A bid that did not beat the winner does not beat it after the winner's success.
  lemma SuccessKeepsLead(winner: Bid, other: Bid, policy: ExecutionPolicy, records: map<Cid, Record>, cid: Cid)
    requires policy.repWeight >= 0.0 && cid !in records
    requires ScoreOf(winner, policy, records).Some?
    requires var s := ScoreOf(other, policy, records); s.Some? ==> s.value <= ScoreOf(winner, policy, records).value
    ensures var after := records[cid := Record(winner.executorDid, JobCompletedSuccessfully)];
            && ScoreOf(winner, policy, after).Some?
            && (ScoreOf(other, policy, after).Some? ==>
                  && ScoreOf(other, policy, after).value <= ScoreOf(winner, policy, after).value
                  && (ScoreOf(other, policy, after).value == ScoreOf(winner, policy, after).value ==>
                        ScoreOf(other, policy, records) == ScoreOf(winner, policy, records)))
  {
    var after := records[cid := Record(winner.executorDid, JobCompletedSuccessfully)];
    var r, r' := Reputation(records, winner.executorDid), Reputation(after, winner.executorDid);
    SuccessRaisesReputation(records, cid, winner.executorDid, winner.executorDid);
    SuccessRaisesReputation(records, cid, winner.executorDid, other.executorDid);
    GainIsShared(winner, other, policy, r, r');
  }

  // With a non-negative reputation weight, one more verified success for the winner's DID
  // leaves the same bid winning, ties included.
  lemma SuccessKeepsWinner(bids: seq<Bid>, policy: ExecutionPolicy, records: map<Cid, Record>, i: nat, cid: Cid)
    requires policy.repWeight >= 0.0 && cid !in records
    requires BestScored(Scores(bids, policy, records)) == Some(i)
    ensures BestScored(Scores(bids, policy, records[cid := Record(bids[i].executorDid, JobCompletedSuccessfully)])) == Some(i)
  {
    var after := records[cid := Record(bids[i].executorDid, JobCompletedSuccessfully)];
    var earlier, later := Scores(bids, policy, records), Scores(bids, policy, after);
    BestScoredExact(earlier);
    assert IsBest(earlier, i);
    SuccessKeepsLead(bids[i], bids[i], policy, records, cid);
    forall j | 0 <= j < |bids| && later[j].Some?
      ensures later[j].value <= later[i].value && (j > i ==> later[j].value < later[i].value)
    {
      assert earlier[j] == ScoreOf(bids[j], policy, records);
      SuccessKeepsLead(bids[i], bids[j], policy, records, cid);
    }
    assert IsBest(later, i);
    BestScoredExact(later);
  }

  // ----- the node -----

  datatype NodeView = NodeView(
    announced: map<JobId, Option<ExecutionPolicy>>,
    bids: map<JobId, seq<Bid>>,
    assignedJobs: set<JobId>,
    records: map<Cid, Record>)

  function BidsFor(v: NodeView, job: JobId): seq<Bid> {
    if job in v.bids then v.bids[job] else []
  }

  function StoreBid(v: NodeView, bid: Bid): NodeView {
    v.(bids := v.bids[bid.jobId := BidsFor(v, bid.jobId) + [bid]])
  }

  function WinnerOf(v: NodeView, job: JobId): Option<Bid>
    requires job in v.announced
  {
    var best := Choose(BidsFor(v, job), v.announced[job], v.records);
    if job in v.assignedJobs || best.None? then None else Some(BidsFor(v, job)[best.value])
  }

  // The assignments one selection round makes, when assigning the `refused` jobs fails.
  function Assignments(v: NodeView, refused: set<JobId>): map<JobId, Bid> {
    map job | job in v.announced && WinnerOf(v, job).Some? && job !in refused :: WinnerOf(v, job).value
  }

  class MeshNode {
    var announced: map<JobId, Option<ExecutionPolicy>>
    var bids: map<JobId, seq<Bid>>
    var assignedByOriginator: set<JobId>
    var verifiedRecords: map<Cid, Record>

    ghost function View(): NodeView
      reads this
    {
      NodeView(announced, bids, assignedByOriginator, verifiedRecords)
    }

    method HandleBid(jobId: JobId, executorDid: Did, price: nat, comment: string, region: Option<string>, now: int)
      modifies this
      ensures View() == StoreBid(old(View()), Bid(jobId, executorDid, price, now, comment, region))
    {
      var bid := Bid(jobId, executorDid, price, now, comment, region);
      if jobId !in bids {
        bids := bids[jobId := []];
      }
      bids := bids[jobId := bids[jobId] + [bid]];
    }

    method PickWinners() returns (jobsToAssign: map<JobId, Bid>)
      ensures jobsToAssign == map job | job in announced && WinnerOf(View(), job).Some? :: WinnerOf(View(), job).value
    {
      jobsToAssign := map[];
      var left := announced.Keys;
      while left != {}
        invariant left <= announced.Keys
        invariant jobsToAssign == map job | job in announced.Keys - left && WinnerOf(View(), job).Some? :: WinnerOf(View(), job).value
        decreases left
      {
        var job :| job in left;
        if job !in assignedByOriginator && job in bids && bids[job] != [] {
          var best := ChooseBid(bids[job], announced[job], verifiedRecords);
          if best.Some? {
            jobsToAssign := jobsToAssign[job := bids[job][best.value]];
          }
        }
        left := left - {job};
      }
    }

    method SelectExecutorForOriginatedJobs(refused: set<JobId>) returns (made: map<JobId, Bid>)
      modifies this`assignedByOriginator
      ensures made == Assignments(old(View()), refused)
      ensures View() == old(View()).(assignedJobs := old(View()).assignedJobs + made.Keys)
    {
      var jobsToAssign := PickWinners();
      made := map[];
      var left := jobsToAssign.Keys;
      while left != {}
        invariant left <= jobsToAssign.Keys
        invariant made.Keys == jobsToAssign.Keys - left - refused
        invariant forall job | job in made :: made[job] == jobsToAssign[job]
        invariant assignedByOriginator == old(assignedByOriginator) + made.Keys
        decreases left
      {
        var job :| job in left;
        if job !in refused {
          assignedByOriginator := assignedByOriginator + {job};
          made := made[job := jobsToAssign[job]];
        }
        left := left - {job};
      }
    }
  }

  // One of the job's stored bids: the policy admits it and admits none that scores higher,
  // or without a policy no stored bid is cheaper.
  predicate DeservesToWin(v: NodeView, job: JobId, winner: Bid) {
    && job in v.announced && winner in BidsFor(v, job)
    && match v.announced[job]
       case Some(p) =>
         && ScoreOf(winner, p, v.records).Some?
         && forall b | b in BidsFor(v, job) && ScoreOf(b, p, v.records).Some? ::
              ScoreOf(b, p, v.records).value <= ScoreOf(winner, p, v.records).value
       case None => forall b | b in BidsFor(v, job) :: winner.price <= b.price
  }

  // Whatever the node's state, a winner deserves to win a job not yet assigned, and a job
  // without a winner is assigned already or has no bid that is admitted.
  lemma {:induction false} WinnerExact(v: NodeView, job: JobId)
    requires job in v.announced
    ensures match WinnerOf(v, job)
            case Some(winner) => job !in v.assignedJobs && DeservesToWin(v, job, winner)
            case None =>
              job !in v.assignedJobs ==>
                forall b | b in BidsFor(v, job) :: v.announced[job].Some? && ScoreOf(b, v.announced[job].value, v.records) == None
  {
    ChoiceIsBest(BidsFor(v, job), v.announced[job], v.records);
    if v.announced[job].Some? {
      BestScoredIsBest(Scores(BidsFor(v, job), v.announced[job].value, v.records));
    }
  }

  // What a policy, or its absence, lets compete.
  predicate Admits(v: NodeView, job: JobId, bid: Bid)
    requires job in v.announced
  {
    v.announced[job].None? || ScoreOf(bid, v.announced[job].value, v.records).Some?
  }

  // A round assigns exactly the announced, unassigned jobs with an admitted bid whose
  // assignment is not refused.
  lemma RoundExact(v: NodeView, refused: set<JobId>, job: JobId)
    ensures job in Assignments(v, refused)
       <==> job in v.announced && job !in v.assignedJobs && job !in refused && exists b :: b in BidsFor(v, job) && Admits(v, job, b)
  {
    if job in v.announced {
      WinnerExact(v, job);
      if WinnerOf(v, job).Some? {
        assert WinnerOf(v, job).value in BidsFor(v, job) && Admits(v, job, WinnerOf(v, job).value);
      }
    }
  }

  // ----- runs of the node -----

  datatype Event =
    | Announce(job: JobId, policy: Option<ExecutionPolicy>)
    | Receive(bid: Bid)
    | Verify(cid: Cid, record: Record)
    | Select(refused: set<JobId>)

  // One selection round: the state it saw and the assignments it made.
  datatype Round = Round(seen: NodeView, made: map<JobId, Bid>)

  datatype History = History(view: NodeView, rounds: seq<Round>)

  function Step(h: History, e: Event): History {
    match e
    case Announce(job, policy) => h.(view := h.view.(announced := h.view.announced[job := policy]))
    case Receive(bid) => h.(view := StoreBid(h.view, bid))
    case Verify(cid, record) => h.(view := h.view.(records := h.view.records[cid := record]))
    case Select(refused) =>
      var made := Assignments(h.view, refused);
      History(h.view.(assignedJobs := h.view.assignedJobs + made.Keys), h.rounds + [Round(h.view, made)])
  }

  function Run(h: History, events: seq<Event>): History
    decreases events
  {
    if events == [] then h else Run(Step(h, events[0]), events[1..])
  }

  // No job is assigned in two rounds.
  predicate WonOnce(rounds: seq<Round>) {
    forall r, s | 0 <= r < s < |rounds| :: rounds[r].made.Keys !! rounds[s].made.Keys
  }

  // Each winner was a bid for its job that deserved to win in the state its round saw.
  predicate WonDeservedly(rounds: seq<Round>) {
    forall r | 0 <= r < |rounds| :: MadeDeservedly(rounds[r].seen, rounds[r].made)
  }

  predicate MadeDeservedly(v: NodeView, made: map<JobId, Bid>) {
    forall job | job in made :: DeservesToWin(v, job, made[job]) && made[job].jobId == job
  }

  ghost predicate Sound(h: History) {
    WonOnce(h.rounds) && WonDeservedly(h.rounds) && BidsAreKeyed(h.view) && h.view.assignedJobs == Won(h.rounds)
  }

  // All jobs assigned so far.
  function Won(rounds: seq<Round>): set<JobId> {
    set r, job | 0 <= r < |rounds| && job in rounds[r].made :: job
  }

  predicate BidsAreKeyed(v: NodeView) {
    forall job, bid | job in v.bids && bid in v.bids[job] :: bid.jobId == job
  }

  lemma RoundSound(v: NodeView, refused: set<JobId>)
    requires BidsAreKeyed(v)
    ensures Assignments(v, refused).Keys !! v.assignedJobs
    ensures MadeDeservedly(v, Assignments(v, refused))
  {
    forall job | job in Assignments(v, refused)
      ensures job !in v.assignedJobs
      ensures DeservesToWin(v, job, Assignments(v, refused)[job]) && Assignments(v, refused)[job].jobId == job
    {
      WinnerExact(v, job);
    }
  }

  lemma WonNext(rounds: seq<Round>, last: Round)
    ensures Won(rounds + [last]) == Won(rounds) + last.made.Keys
  {
    assert forall r | 0 <= r < |rounds| :: (rounds + [last])[r] == rounds[r];
    assert (rounds + [last])[|rounds|] == last;
  }

  lemma SelectSound(h: History, refused: set<JobId>)
    requires Sound(h)
    ensures Sound(Step(h, Select(refused)))
  {
    var last := Round(h.view, Assignments(h.view, refused));
    RoundSound(h.view, refused);
    RoundsGrow(h.rounds, last);
    WonNext(h.rounds, last);
  }

  lemma RoundsGrow(rounds: seq<Round>, last: Round)
    requires WonOnce(rounds) && last.made.Keys !! Won(rounds)
    requires WonDeservedly(rounds) && MadeDeservedly(last.seen, last.made)
    ensures WonOnce(rounds + [last]) && WonDeservedly(rounds + [last])
  {
    var all := rounds + [last];
    forall r, s | 0 <= r < s < |all| ensures all[r].made.Keys !! all[s].made.Keys {
      if s == |rounds| {
        assert rounds[r].made.Keys <= Won(rounds);
      }
    }
    forall r | 0 <= r < |all| ensures MadeDeservedly(all[r].seen, all[r].made) {
      assert r < |rounds| ==> all[r] == rounds[r];
    }
  }

  lemma StepSound(h: History, e: Event)
    requires Sound(h)
    ensures Sound(Step(h, e))
  {
    if e.Select? {
      SelectSound(h, e.refused);
    }
  }

  lemma {:induction false} RunSound(h: History, events: seq<Event>)
    requires Sound(h)
    ensures Sound(Run(h, events))
    decreases events
  {
    if events != [] {
      StepSound(h, events[0]);
      RunSound(Step(h, events[0]), events[1..]);
    }
  }

  // Over every run no job gets more than one successful assignment, and every winner was a
  // bid received for that job that deserved to win in the state its round saw.
  lemma {:induction false} AssignedAtMostOnce(events: seq<Event>)
    ensures var h := Run(History(NodeView(map[], map[], {}, map[]), []), events);
            WonOnce(h.rounds) && WonDeservedly(h.rounds) && h.view.assignedJobs == Won(h.rounds)
  {
    RunSound(History(NodeView(map[], map[], {}, map[]), []), events);
  }

  // The bids received for a job, in order.
  function Received(events: seq<Event>, job: JobId): seq<Bid> {
    if events == [] then []
    else if events[0].Receive? && events[0].bid.jobId == job then [events[0].bid] + Received(events[1..], job)
    else Received(events[1..], job)
  }

  // Over every run a job's bids are those received for it, in order and all kept.
  lemma {:induction false} BidsAreKept(h: History, events: seq<Event>, job: JobId)
    ensures BidsFor(Run(h, events).view, job) == BidsFor(h.view, job) + Received(events, job)
    decreases events
  {
    if events == [] {
      assert BidsFor(h.view, job) + [] == BidsFor(h.view, job);
    } else {
      BidsAreKept(Step(h, events[0]), events[1..], job);
    }
  }
}
