// Reputation profiles: counters and running means updated event by event, with 64-bit
// saturating counters and a truncating 32-bit mean. Accuracies are reals.
module Reputation {
  import opened Wrappers
  import opened FiniteSums

  type Did = string

  const U32_MAX: nat := 0xFFFF_FFFF
  const U64_MAX: nat := 0xFFFF_FFFF_FFFF_FFFF

  type u32 = x: nat | x <= 0xFFFF_FFFF

  datatype Event =
    | JobCompleted(durationMs: u32, bidAccuracy: real, onTime: bool)
    | JobFailed
    | DishonestyPenalty
    | StakeIncreased(newTotal: nat)
    | StakeDecreased(newTotal: nat)
    | EndorsementReceived(from: Did)
    | EndorsementRevoked(from: Did)
    | ScoreAdjusted(newScore: real)

  datatype Profile = Profile(
    lastUpdated: int,
    totalJobs: nat,
    successfulJobs: nat,
    failedJobs: nat,
    jobsOnTime: nat,
    jobsLate: nat,
    averageExecutionMs: Option<nat>,
    averageBidAccuracy: Option<real>,
    dishonestyEvents: nat,
    endorsements: seq<Did>,
    currentStake: Option<nat>,
    computedScore: real)

  function SaturatingAdd(a: nat, b: nat, max: nat): nat {
    if a + b > max then max else a + b
  }

  function SaturatingMul(a: nat, b: nat): nat {
    if a * b > U64_MAX then U64_MAX else a * b
  }

  function AverageU32(prev: Option<nat>, value: nat, count: nat): nat {
    if count == 0 || prev.None? then value
    else SaturatingAdd(SaturatingMul(prev.value, count - 1), value, U64_MAX) / count % (U32_MAX + 1)
  }

  function AverageReal(prev: Option<real>, value: real, count: nat): real {
    if count == 0 || prev.None? then value
    else (prev.value * (count - 1) as real + value) / count as real
  }

  function Retain(dids: seq<Did>, dropped: Did): seq<Did> {
    if dids == [] then []
    else if dids[0] == dropped then Retain(dids[1..], dropped)
    else [dids[0]] + Retain(dids[1..], dropped)
  }

  function Apply(p: Profile, e: Event, now: int): Profile {
    var q := match e
      case JobCompleted(duration, accuracy, onTime) =>
        var count := SaturatingAdd(p.successfulJobs, 1, U64_MAX);
        p.(successfulJobs := count,
           jobsOnTime := if onTime then SaturatingAdd(p.jobsOnTime, 1, U64_MAX) else p.jobsOnTime,
           jobsLate := if onTime then p.jobsLate else SaturatingAdd(p.jobsLate, 1, U64_MAX),
           averageExecutionMs := Some(AverageU32(p.averageExecutionMs, duration, count)),
           averageBidAccuracy := Some(AverageReal(p.averageBidAccuracy, accuracy, count)),
           totalJobs := SaturatingAdd(p.totalJobs, 1, U64_MAX))
      case JobFailed =>
        p.(failedJobs := SaturatingAdd(p.failedJobs, 1, U64_MAX), totalJobs := SaturatingAdd(p.totalJobs, 1, U64_MAX))
      case DishonestyPenalty => p.(dishonestyEvents := SaturatingAdd(p.dishonestyEvents, 1, U32_MAX))
      case StakeIncreased(total) => p.(currentStake := Some(total))
      case StakeDecreased(total) => p.(currentStake := Some(total))
      case EndorsementReceived(from) =>
        if from in p.endorsements then p else p.(endorsements := p.endorsements + [from])
      case EndorsementRevoked(from) => p.(endorsements := Retain(p.endorsements, from))
      case ScoreAdjusted(score) => p.(computedScore := score);
    q.(lastUpdated := now)
  }

  class ReputationProfile {
    var lastUpdated: int
    var totalJobs: nat
    var successfulJobs: nat
    var failedJobs: nat
    var jobsOnTime: nat
    var jobsLate: nat
    var averageExecutionMs: Option<nat>
    var averageBidAccuracy: Option<real>
    var dishonestyEvents: nat
    var endorsements: seq<Did>
    var currentStake: Option<nat>
    var computedScore: real

    ghost function View(): Profile
      reads this
    {
      Profile(lastUpdated, totalJobs, successfulJobs, failedJobs, jobsOnTime, jobsLate, averageExecutionMs,
              averageBidAccuracy, dishonestyEvents, endorsements, currentStake, computedScore)
    }

    method ApplyEvent(e: Event, now: int)
      modifies this
      ensures View() == Apply(old(View()), e, now)
    {
      match e {
        case JobCompleted(duration, accuracy, onTime) =>
          successfulJobs := SaturatingAdd(successfulJobs, 1, U64_MAX);
          if onTime {
            jobsOnTime := SaturatingAdd(jobsOnTime, 1, U64_MAX);
          } else {
            jobsLate := SaturatingAdd(jobsLate, 1, U64_MAX);
          }
          averageExecutionMs := Some(AverageU32(averageExecutionMs, duration, successfulJobs));
          averageBidAccuracy := Some(AverageReal(averageBidAccuracy, accuracy, successfulJobs));
          totalJobs := SaturatingAdd(totalJobs, 1, U64_MAX);
        case JobFailed =>
          failedJobs := SaturatingAdd(failedJobs, 1, U64_MAX);
          totalJobs := SaturatingAdd(totalJobs, 1, U64_MAX);
        case DishonestyPenalty =>
          dishonestyEvents := SaturatingAdd(dishonestyEvents, 1, U32_MAX);
        case StakeIncreased(total) =>
          currentStake := Some(total);
        case StakeDecreased(total) =>
          currentStake := Some(total);
        case EndorsementReceived(from) =>
          if from !in endorsements {
            endorsements := endorsements + [from];
          }
        case EndorsementRevoked(from) =>
          endorsements := Retain(endorsements, from);
        case ScoreAdjusted(score) =>
          computedScore := score;
      }
      lastUpdated := now;
    }
  }

  // ----- runs, newest event last -----

  // A profile no event has touched yet.
  predicate Empty(p: Profile) {
    && p.totalJobs == p.successfulJobs == p.failedJobs == p.jobsOnTime == p.jobsLate == 0
    && p.averageExecutionMs == None && p.averageBidAccuracy == None && p.endorsements == []
  }

  datatype Timed = Timed(event: Event, at: int)

  function Run(p: Profile, events: seq<Timed>): Profile {
    if events == [] then p
    else Apply(Run(p, events[..|events| - 1]), events[|events| - 1].event, events[|events| - 1].at)
  }

  function Durations(events: seq<Timed>): seq<nat> {
    if events == [] then []
    else
      var earlier, e := Durations(events[..|events| - 1]), events[|events| - 1].event;
      if e.JobCompleted? then earlier + [e.durationMs] else earlier
  }

  function Accuracies(events: seq<Timed>): seq<real> {
    if events == [] then []
    else
      var earlier, e := Accuracies(events[..|events| - 1]), events[|events| - 1].event;
      if e.JobCompleted? then earlier + [e.bidAccuracy] else earlier
  }

  function Sum(s: seq<nat>): nat {
    if s == [] then 0 else Sum(s[..|s| - 1]) + s[|s| - 1]
  }

  function RealSum(s: seq<real>): real {
    if s == [] then 0.0 else RealSum(s[..|s| - 1]) + s[|s| - 1]
  }

  // The means as the profile updates them, one value at a time.
  function MeanOf(s: seq<nat>): Option<nat> {
    if s == [] then None else Some(AverageU32(MeanOf(s[..|s| - 1]), s[|s| - 1], |s|))
  }

  function RealMeanOf(s: seq<real>): Option<real> {
    if s == [] then None else Some(AverageReal(RealMeanOf(s[..|s| - 1]), s[|s| - 1], |s|))
  }

  // Whether the last event about this endorser was an endorsement rather than a revocation.
  predicate Endorsing(events: seq<Timed>, did: Did) {
    if events == [] then false
    else
      match events[|events| - 1].event
      case EndorsementReceived(from) => from == did || Endorsing(events[..|events| - 1], did)
      case EndorsementRevoked(from) => from != did && Endorsing(events[..|events| - 1], did)
      case _ => Endorsing(events[..|events| - 1], did)
  }

  // ----- the truncating mean -----

  lemma Quotient(s: nat, n: nat, lo: nat, hi: nat)
    requires n > 0 && lo * n <= s <= hi * n
    ensures lo <= s / n <= hi
  {
    var q := s / n;
    assert s == n * q + s % n;
    if q < lo {
      Scale(q + 1, lo, n);
    }
  }

  // While the product fits 64 bits the mean is a plain division, and stays between the
  // values averaged.
  lemma MeanStep(a: nat, n: nat, d: nat, lo: nat, hi: nat)
    requires n > 0 && lo <= a <= hi && lo <= d <= hi && hi <= U32_MAX && a * (n - 1) + d <= U64_MAX
    ensures AverageU32(Some(a), d, n) == (a * (n - 1) + d) / n
    ensures lo <= AverageU32(Some(a), d, n) <= hi
  {
    var s := a * (n - 1) + d;
    Scale(a, hi, n - 1);
    Scale(lo, a, n - 1);
    assert hi * (n - 1) + hi == hi * n && lo * (n - 1) + lo == lo * n;
    Quotient(s, n, lo, hi);
  }

  // Where the sum does not fit 64 bits the mean is the largest 64-bit number divided by the
  // count; the cast to 32 bits never cuts it.
  lemma MeanSaturates(a: nat, n: nat, d: nat)
    requires n > 0 && a <= U32_MAX && d <= U32_MAX && a * (n - 1) + d > U64_MAX
    ensures AverageU32(Some(a), d, n) == U64_MAX / n <= U32_MAX
  {
    Scale(a, U32_MAX, n - 1);
    assert U32_MAX * (n - 1) + U32_MAX == U32_MAX * n;
    Quotient(U64_MAX, n, 0, U32_MAX);
  }

  // What one truncation loses is less than the count.
  lemma MeanLoss(a: nat, n: nat, d: nat)
    requires n > 0
    ensures var m := (a * (n - 1) + d) / n;
            a * (n - 1) + d - (n - 1) <= n * m <= a * (n - 1) + d
  {
    var s := a * (n - 1) + d;
    assert s == n * (s / n) + s % n;
  }

  // n times the mean falls short of the sum by at most n(n-1)/2.
  predicate MeanWithin(mean: nat, n: nat, sum: nat) {
    2 * sum - n * (n - 1) <= 2 * (n * mean) <= 2 * sum
  }

  lemma MeanWithinStep(a: nat, n: nat, sum: nat, d: nat)
    requires n > 1 && MeanWithin(a, n - 1, sum)
    ensures MeanWithin((a * (n - 1) + d) / n, n, sum + d)
  {
    MeanLoss(a, n, d);
    assert n * (n - 1) == (n - 1) * (n - 2) + 2 * (n - 1);
    assert a * (n - 1) == (n - 1) * a;
  }

  predicate Between(durations: seq<nat>, lo: nat, hi: nat) {
    forall d | d in durations :: lo <= d <= hi
  }

  // ----- the counters -----

  predicate IsCompleted(e: Event) {
    e.JobCompleted?
  }

  predicate IsFailed(e: Event) {
    e.JobFailed?
  }

  predicate IsJob(e: Event) {
    e.JobCompleted? || e.JobFailed?
  }

  predicate IsOnTime(e: Event) {
    e.JobCompleted? && e.onTime
  }

  predicate IsLate(e: Event) {
    e.JobCompleted? && !e.onTime
  }

  function Tally(events: seq<Timed>, counted: Event -> bool): nat {
    if events == [] then 0
    else Tally(events[..|events| - 1], counted) + if counted(events[|events| - 1].event) then 1 else 0
  }

  function Saturated(n: nat): nat {
    if n > U64_MAX then U64_MAX else n
  }

  lemma {:induction false} TalliesAddUp(events: seq<Timed>)
    ensures Tally(events, IsJob) == Tally(events, IsCompleted) + Tally(events, IsFailed)
    ensures Tally(events, IsCompleted) == Tally(events, IsOnTime) + Tally(events, IsLate)
    ensures Tally(events, IsCompleted) == |Durations(events)| == |Accuracies(events)|
    decreases |events|
  {
    if events != [] {
      TalliesAddUp(events[..|events| - 1]);
    }
  }

  lemma ApplyCounts(p: Profile, e: Event, now: int)
    ensures var q := Apply(p, e, now);
            && q.totalJobs == (if IsJob(e) then SaturatingAdd(p.totalJobs, 1, U64_MAX) else p.totalJobs)
            && q.successfulJobs == (if IsCompleted(e) then SaturatingAdd(p.successfulJobs, 1, U64_MAX) else p.successfulJobs)
            && q.failedJobs == (if IsFailed(e) then SaturatingAdd(p.failedJobs, 1, U64_MAX) else p.failedJobs)
            && q.jobsOnTime == (if IsOnTime(e) then SaturatingAdd(p.jobsOnTime, 1, U64_MAX) else p.jobsOnTime)
            && q.jobsLate == (if IsLate(e) then SaturatingAdd(p.jobsLate, 1, U64_MAX) else p.jobsLate)
  {
  }

  // Each counter holds the number of its events, up to saturation.
  lemma {:induction false} CountersExact(p: Profile, events: seq<Timed>)
    requires Empty(p)
    ensures var q := Run(p, events);
            && q.totalJobs == Saturated(Tally(events, IsJob))
            && q.successfulJobs == Saturated(Tally(events, IsCompleted))
            && q.failedJobs == Saturated(Tally(events, IsFailed))
            && q.jobsOnTime == Saturated(Tally(events, IsOnTime))
            && q.jobsLate == Saturated(Tally(events, IsLate))
    decreases |events|
  {
    if events != [] {
      var earlier, e := events[..|events| - 1], events[|events| - 1];
      CountersExact(p, earlier);
      ApplyCounts(Run(p, earlier), e.event, e.at);
    }
  }

  // The counters add up as long as the total does not saturate.
  lemma CountersAddUp(p: Profile, events: seq<Timed>)
    requires Empty(p) && Tally(events, IsJob) <= U64_MAX
    ensures var q := Run(p, events);
            && q.totalJobs == q.successfulJobs + q.failedJobs
            && q.successfulJobs == q.jobsOnTime + q.jobsLate
            && q.successfulJobs == |Durations(events)|
  {
    CountersExact(p, events);
    TalliesAddUp(events);
  }

  // ----- the other fields -----

  predicate IsDishonest(e: Event) {
    e.DishonestyPenalty?
  }

  function StakeOf(e: Event): Option<nat> {
    match e
    case StakeIncreased(total) => Some(total)
    case StakeDecreased(total) => Some(total)
    case _ => None
  }

  function ScoreOf(e: Event): Option<real> {
    if e.ScoreAdjusted? then Some(e.newScore) else None
  }

  // The value of the last event that has one, or the initial value.
  function Last<T>(initial: T, of: Event -> Option<T>, events: seq<Timed>): T {
    if events == [] then initial
    else
      var value := of(events[|events| - 1].event);
      if value.Some? then value.value else Last(initial, of, events[..|events| - 1])
  }

  // Penalties are counted up to saturation, stake and score are the last ones announced, and
  // the time is that of the last event.
  lemma {:induction false} OtherFieldsExact(p: Profile, events: seq<Timed>)
    requires p.dishonestyEvents == 0
    ensures var q := Run(p, events);
            && q.dishonestyEvents == (if Tally(events, IsDishonest) > U32_MAX then U32_MAX else Tally(events, IsDishonest))
            && q.currentStake == Last(p.currentStake, e => if StakeOf(e).Some? then Some(StakeOf(e)) else None, events)
            && q.computedScore == Last(p.computedScore, ScoreOf, events)
            && q.lastUpdated == if events == [] then p.lastUpdated else events[|events| - 1].at
    decreases |events|
  {
    if events != [] {
      OtherFieldsExact(p, events[..|events| - 1]);
    }
  }

  // ----- the means over runs -----

  lemma {:induction false} RunMeans(p: Profile, events: seq<Timed>)
    requires Empty(p) && |Durations(events)| <= U64_MAX
    ensures Run(p, events).averageExecutionMs == MeanOf(Durations(events))
    ensures Run(p, events).averageBidAccuracy == RealMeanOf(Accuracies(events))
    decreases |events|
  {
    if events != [] {
      var earlier, e := events[..|events| - 1], events[|events| - 1].event;
      RunMeans(p, earlier);
      CountersExact(p, earlier);
      TalliesAddUp(earlier);
      if e.JobCompleted? {
        assert Durations(events)[..|Durations(earlier)|] == Durations(earlier);
        assert Accuracies(events)[..|Accuracies(earlier)|] == Accuracies(earlier);
      }
    }
  }

  // A mean times its count is at most the sum, so no step saturates while the sum fits.
  lemma NoSaturation(a: nat, n: nat, sum: nat, d: nat)
    requires n > 0 && MeanWithin(a, n - 1, sum) && sum + d <= U64_MAX
    ensures a * (n - 1) + d <= U64_MAX
  {
    assert a * (n - 1) == (n - 1) * a;
  }

  lemma {:induction false} MeanOfBound(s: seq<nat>, lo: nat, hi: nat)
    requires s != [] && Between(s, lo, hi) && hi <= U32_MAX && Sum(s) <= U64_MAX
    ensures lo <= MeanOf(s).value <= hi && MeanWithin(MeanOf(s).value, |s|, Sum(s))
    decreases |s|
  {
    var earlier, d := s[..|s| - 1], s[|s| - 1];
    assert d in s;
    if earlier != [] {
      assert forall x | x in earlier :: x in s;
      MeanOfBound(earlier, lo, hi);
      var a := MeanOf(earlier).value;
      NoSaturation(a, |s|, Sum(earlier), d);
      MeanStep(a, |s|, d, lo, hi);
      MeanWithinStep(a, |s|, Sum(earlier), d);
    }
  }

  lemma {:induction false} DurationsFitU32(events: seq<Timed>)
    ensures Between(Durations(events), 0, U32_MAX)
    decreases |events|
  {
    if events != [] {
      DurationsFitU32(events[..|events| - 1]);
    }
  }

  // After any run from an empty profile, with n completed jobs of total duration S, the
  // stored average a satisfies S - n(n-1)/2 <= n*a <= S; n and S are what 64 bits can hold.
  lemma {:induction false} RunningMeanBound(p: Profile, events: seq<Timed>)
    requires Empty(p) && |Durations(events)| <= U64_MAX && Sum(Durations(events)) <= U64_MAX
    ensures var q, n, s := Run(p, events), |Durations(events)|, Sum(Durations(events));
            && q.successfulJobs == n
            && (q.averageExecutionMs.Some? <==> n > 0)
            && (n > 0 ==> MeanWithin(q.averageExecutionMs.value, n, s))
  {
    CountersExact(p, events);
    TalliesAddUp(events);
    RunMeans(p, events);
    DurationsFitU32(events);
    if Durations(events) != [] {
      MeanOfBound(Durations(events), 0, U32_MAX);
    }
  }

  // The average lies between the shortest and the longest duration.
  lemma {:induction false} RunningMeanBetween(p: Profile, events: seq<Timed>, shortest: nat, longest: nat)
    requires Empty(p) && |Durations(events)| <= U64_MAX && Sum(Durations(events)) <= U64_MAX
    requires shortest in Durations(events) && longest in Durations(events)
    requires Between(Durations(events), shortest, longest)
    ensures Run(p, events).averageExecutionMs.Some?
    ensures shortest <= Run(p, events).averageExecutionMs.value <= longest
  {
    RunMeans(p, events);
    DurationsFitU32(events);
    MeanOfBound(Durations(events), shortest, longest);
  }

  predicate RealMeanIs(mean: real, n: nat, sum: real) {
    mean * n as real == sum
  }

  lemma {:induction false} RealMeanExact(s: seq<real>)
    requires s != []
    ensures RealMeanIs(RealMeanOf(s).value, |s|, RealSum(s))
    decreases |s|
  {
    var earlier := s[..|s| - 1];
    if earlier != [] {
      RealMeanExact(earlier);
      Cancel(RealMeanOf(earlier).value * (|s| - 1) as real + s[|s| - 1], |s| as real);
    }
  }

  lemma Cancel(x: real, y: real)
    requires y != 0.0
    ensures x / y * y == x
  {
  }

  // Over the reals the accuracy mean is exact.
  lemma AccuracyMeanExact(p: Profile, events: seq<Timed>)
    requires Empty(p) && 0 < |Durations(events)| <= U64_MAX
    ensures Run(p, events).averageBidAccuracy.Some?
    ensures RealMeanIs(Run(p, events).averageBidAccuracy.value, |Durations(events)|, RealSum(Accuracies(events)))
  {
    TalliesAddUp(events);
    RunMeans(p, events);
    RealMeanExact(Accuracies(events));
  }

  // ----- endorsements -----

  lemma {:induction false} RetainExact(dids: seq<Did>, dropped: Did)
    ensures forall d :: d in Retain(dids, dropped) <==> d in dids && d != dropped
    ensures Distinct(dids) ==> Distinct(Retain(dids, dropped))
    decreases dids
  {
    if dids != [] {
      RetainExact(dids[1..], dropped);
      assert forall d :: d in dids <==> d == dids[0] || d in dids[1..];
      if Distinct(dids) && dids[0] != dropped {
        assert dids[0] !in dids[1..];
        assert dids[0] !in Retain(dids[1..], dropped);
      }
    }
  }

  // Endorsements are duplicate-free and hold exactly those whose last word was an endorsement.
  lemma {:induction false} EndorsementsExact(p: Profile, events: seq<Timed>)
    requires Empty(p)
    ensures Distinct(Run(p, events).endorsements)
    ensures forall d :: d in Run(p, events).endorsements <==> Endorsing(events, d)
    decreases |events|
  {
    if events != [] {
      var earlier, e := events[..|events| - 1], events[|events| - 1].event;
      EndorsementsExact(p, earlier);
      if e.EndorsementRevoked? {
        RetainExact(Run(p, earlier).endorsements, e.from);
      }
    }
  }
}
