// Resource authorization over an append-only usage log: quotas and sliding-window rate
// limits, and what they guarantee over every run of check-then-record.
module ResourcePolicy {
  import opened Wrappers

  type Did = string

  // A reading of the system clock, which fails when the clock stands before the Unix epoch.
  type Clock = Option<nat>

  datatype Token = Token(resourceType: string, amount: nat, scope: string, expiresAt: Option<nat>, issuer: Option<string>)

  datatype Authorization =
    | AllowAll
    | Quota(quota: nat)
    | RateLimit(amount: nat, periodSecs: nat)
    | PermitList(permits: seq<Did>)

  datatype AuthorizationError =
    | NoPolicyFound(resourceType: string, scope: string)
    | TokenExpired(expiresAt: nat, currentTime: nat)
    | QuotaExceeded(quota: nat, currentUsage: nat, requested: nat)
    | RateLimitExceeded(limit: nat, periodSecs: nat, currentUsage: nat, requested: nat)
    | AccessDenied(did: Did)
    | SystemTimeError

  datatype Key = Key(did: Did, resourceType: string, scope: string)

  datatype Entry = Entry(time: nat, amount: nat)

  type Usage = map<Key, seq<Entry>>

  type Policies = map<(string, string), Authorization>

  function KeyOf(did: Did, token: Token): Key {
    Key(did, token.resourceType, token.scope)
  }

  // ----- the log -----

  function LogOf(usage: Usage, key: Key): seq<Entry> {
    if key in usage then usage[key] else []
  }

  function SumOf(log: seq<Entry>): nat {
    if log == [] then 0 else log[0].amount + SumOf(log[1..])
  }

  // The entries not older than a time, in order.
  function Since(log: seq<Entry>, time: nat): seq<Entry> {
    if log == [] then []
    else if log[0].time >= time then [log[0]] + Since(log[1..], time)
    else Since(log[1..], time)
  }

  function Record(usage: Usage, did: Did, token: Token, now: Clock): Usage {
    var key := KeyOf(did, token);
    if now.None? then usage else usage[key := LogOf(usage, key) + [Entry(now.value, token.amount)]]
  }

  // ----- the check -----

  // The earliest time a rate limit still counts.
  function WindowStart(now: nat, period: nat): nat {
    if now >= period then now - period else 0
  }

  function Recent(log: seq<Entry>, period: nat, now: nat): nat {
    SumOf(Since(log, WindowStart(now, period)))
  }

  // The clock is read once for the expiry and once for the rate limit, each only if needed.
  function Check(policies: Policies, usage: Usage, did: Did, token: Token, expiryNow: Clock, now: Clock): Result<bool, AuthorizationError> {
    var slot, log := (token.resourceType, token.scope), LogOf(usage, KeyOf(did, token));
    if slot !in policies then Failure(NoPolicyFound(token.resourceType, token.scope))
    else if token.expiresAt.Some? && expiryNow.None? then Failure(SystemTimeError)
    else if token.expiresAt.Some? && expiryNow.value > token.expiresAt.value then
      Failure(TokenExpired(token.expiresAt.value, expiryNow.value))
    else
      match policies[slot]
      case AllowAll => Success(true)
      case Quota(quota) =>
        if SumOf(log) + token.amount <= quota then Success(true)
        else Failure(QuotaExceeded(quota, SumOf(log), token.amount))
      case RateLimit(amount, period) =>
        if now.None? then Failure(SystemTimeError)
        else if Recent(log, period, now.value) + token.amount <= amount then Success(true)
        else Failure(RateLimitExceeded(amount, period, Recent(log, period, now.value), token.amount))
      case PermitList(permits) =>
        if did in permits then Success(true) else Failure(AccessDenied(did))
  }

  // ----- repository and enforcer -----

  class InMemoryResourceRepository {
    var usage: Usage

    constructor ()
      ensures usage == map[]
    {
      usage := map[];
    }

    method RecordUsage(did: Did, token: Token, now: Clock) returns (r: Result<Unit, AuthorizationError>)
      modifies this
      ensures r == if now.Some? then Success(Unit) else Failure(SystemTimeError)
      ensures usage == Record(old(usage), did, token, now)
    {
      if now.None? {
        return Failure(SystemTimeError);
      }
      var key := KeyOf(did, token);
      if key !in usage {
        usage := usage[key := []];
      }
      usage := usage[key := usage[key] + [Entry(now.value, token.amount)]];
      r := Success(Unit);
    }

    function GetUsage(did: Did, resourceType: string, scope: string): nat
      reads this
    {
      SumOf(LogOf(usage, Key(did, resourceType, scope)))
    }

    function GetUsageHistory(did: Did, resourceType: string, scope: string, since: nat): seq<Entry>
      reads this
    {
      Since(LogOf(usage, Key(did, resourceType, scope)), since)
    }
  }

  class ResourcePolicyEnforcer {
    const repository: InMemoryResourceRepository
    var policies: Policies

    constructor (repository: InMemoryResourceRepository)
      ensures this.repository == repository && policies == map[]
    {
      this.repository := repository;
      policies := map[];
    }

    method SetPolicy(resourceType: string, scope: string, policy: Authorization)
      modifies this
      ensures policies == old(policies)[(resourceType, scope) := policy]
    {
      policies := policies[(resourceType, scope) := policy];
    }

    method CheckAuthorization(did: Did, token: Token, expiryNow: Clock, now: Clock) returns (r: Result<bool, AuthorizationError>)
      ensures r == Check(policies, repository.usage, did, token, expiryNow, now)
    {
      var slot := (token.resourceType, token.scope);
      if slot !in policies {
        return Failure(NoPolicyFound(token.resourceType, token.scope));
      }
      if token.expiresAt.Some? {
        if expiryNow.None? {
          return Failure(SystemTimeError);
        }
        if expiryNow.value > token.expiresAt.value {
          return Failure(TokenExpired(token.expiresAt.value, expiryNow.value));
        }
      }
      match policies[slot] {
        case AllowAll =>
          return Success(true);
        case Quota(quota) =>
          var usage := repository.GetUsage(did, token.resourceType, token.scope);
          if usage + token.amount <= quota {
            return Success(true);
          }
          return Failure(QuotaExceeded(quota, usage, token.amount));
        case RateLimit(amount, period) =>
          if now.None? {
            return Failure(SystemTimeError);
          }
          var since := if now.value >= period then now.value - period else 0;
          var recent := SumOf(repository.GetUsageHistory(did, token.resourceType, token.scope, since));
          if recent + token.amount <= amount {
            return Success(true);
          }
          return Failure(RateLimitExceeded(amount, period, recent, token.amount));
        case PermitList(permits) =>
          if did in permits {
            return Success(true);
          }
          return Failure(AccessDenied(did));
      }
    }
  }

  // ----- windows -----

  // The amounts recorded in the period ending at `end`, both ends included.
  function WindowSum(log: seq<Entry>, period: nat, end: int): nat {
    if log == [] then 0
    else (if end - period <= log[0].time <= end then log[0].amount else 0) + WindowSum(log[1..], period, end)
  }

  ghost predicate WindowsWithin(log: seq<Entry>, limit: nat, period: nat) {
    forall t: int :: WindowSum(log, period, t) <= limit
  }

  lemma {:induction false} WindowSumConcat(a: seq<Entry>, b: seq<Entry>, period: nat, end: int)
    ensures WindowSum(a + b, period, end) == WindowSum(a, period, end) + WindowSum(b, period, end)
    decreases a
  {
    if a == [] {
      assert a + b == b;
    } else {
      assert (a + b)[1..] == a[1..] + b;
      WindowSumConcat(a[1..], b, period, end);
    }
  }

  lemma WindowOfOne(e: Entry, period: nat, end: int)
    ensures WindowSum([e], period, end) == if end - period <= e.time <= end then e.amount else 0
  {
    assert [e][1..] == [];
  }

  lemma {:induction false} WindowInsideSince(log: seq<Entry>, since: nat, period: nat, end: int)
    requires since <= end - period || since == 0
    ensures WindowSum(log, period, end) <= SumOf(Since(log, since))
    decreases log
  {
    if log != [] {
      WindowInsideSince(log[1..], since, period, end);
      if log[0].time >= since {
        assert Since(log, since)[1..] == Since(log[1..], since);
      }
    }
  }

  lemma {:induction false} SinceIsWindow(log: seq<Entry>, period: nat, now: nat)
    requires forall e | e in log :: e.time <= now
    ensures Recent(log, period, now) == WindowSum(log, period, now)
    decreases log
  {
    if log != [] {
      assert log[0] in log;
      assert forall e | e in log[1..] :: e in log;
      SinceIsWindow(log[1..], period, now);
      if log[0].time >= WindowStart(now, period) {
        assert Since(log, WindowStart(now, period))[1..] == Since(log[1..], WindowStart(now, period));
      }
    }
  }

  lemma {:induction false} SumOfAppend(log: seq<Entry>, e: Entry)
    ensures SumOf(log + [e]) == SumOf(log) + e.amount
    decreases log
  {
    if log == [] {
      assert (log + [e])[1..] == [];
    } else {
      assert (log + [e])[1..] == log[1..] + [e];
      SumOfAppend(log[1..], e);
    }
  }

  // ----- when one checked use is safe -----

  // The record carries no earlier clock than the check, or the check counted the whole log,
  // or there is nothing to spend.
  predicate SafeTiming(limit: nat, period: nat, checkNow: nat, recordNow: nat) {
    limit == 0 || checkNow <= recordNow || checkNow <= period
  }

  // Whatever was recorded before, a use that passes the check keeps every window within the limit.
  ghost predicate UsesAreSafe(limit: nat, period: nat, checkNow: nat, recordNow: nat) {
    forall log: seq<Entry>, amount: nat
      | WindowsWithin(log, limit, period) && Recent(log, period, checkNow) + amount <= limit ::
      WindowsWithin(log + [Entry(recordNow, amount)], limit, period)
  }

  // The last entry's check already counted whatever shares a window with it.
  lemma UseKeepsWindows(log: seq<Entry>, limit: nat, period: nat, amount: nat, checkNow: nat, recordNow: nat)
    requires WindowsWithin(log, limit, period) && Recent(log, period, checkNow) + amount <= limit
    requires SafeTiming(limit, period, checkNow, recordNow)
    ensures WindowsWithin(log + [Entry(recordNow, amount)], limit, period)
  {
    forall t: int ensures WindowSum(log + [Entry(recordNow, amount)], period, t) <= limit {
      WindowSumConcat(log, [Entry(recordNow, amount)], period, t);
      WindowOfOne(Entry(recordNow, amount), period, t);
      assert WindowSum(log, period, t) <= limit;
      if t - period <= recordNow <= t && limit > 0 {
        WindowInsideSince(log, WindowStart(checkNow, period), period, t);
      }
    }
  }

  // A time that a check no longer counts and that shares a window with the record.
  function Forgotten(period: nat, checkNow: nat, recordNow: nat): nat
    requires recordNow < checkNow && period < checkNow
  {
    if recordNow < checkNow - period then recordNow else checkNow - period - 1
  }

  lemma ForgottenLog(limit: nat, period: nat, checkNow: nat, recordNow: nat)
    requires !SafeTiming(limit, period, checkNow, recordNow)
    ensures var log := [Entry(Forgotten(period, checkNow, recordNow), limit)];
            && WindowsWithin(log, limit, period)
            && Recent(log, period, checkNow) == 0
            && WindowSum(log + [Entry(recordNow, 1)], period, recordNow) == limit + 1
  {
    var early := Entry(Forgotten(period, checkNow, recordNow), limit);
    assert [early][1..] == [];
    assert Since([early], WindowStart(checkNow, period)) == Since([], WindowStart(checkNow, period));
    WindowOfOne(early, period, recordNow);
    WindowOfOne(Entry(recordNow, 1), period, recordNow);
    WindowSumConcat([early], [Entry(recordNow, 1)], period, recordNow);
    forall t: int ensures WindowSum([early], period, t) <= limit {
      WindowOfOne(early, period, t);
    }
  }

  // Exactly which clock readings make check-then-record safe for every log.
  lemma TimingExact(limit: nat, period: nat, checkNow: nat, recordNow: nat)
    ensures UsesAreSafe(limit, period, checkNow, recordNow) <==> SafeTiming(limit, period, checkNow, recordNow)
  {
    if SafeTiming(limit, period, checkNow, recordNow) {
      forall log: seq<Entry>, amount: nat
        | WindowsWithin(log, limit, period) && Recent(log, period, checkNow) + amount <= limit
        ensures WindowsWithin(log + [Entry(recordNow, amount)], limit, period)
      {
        UseKeepsWindows(log, limit, period, amount, checkNow, recordNow);
      }
    } else {
      ForgottenLog(limit, period, checkNow, recordNow);
      var log := [Entry(Forgotten(period, checkNow, recordNow), limit)];
      assert !WindowsWithin(log + [Entry(recordNow, 1)], limit, period);
    }
  }

  // ----- runs -----

  // An attempt is checked and, if authorized, recorded before anything else happens; a bare
  // record skips the check.
  datatype Event =
    | Attempt(did: Did, token: Token, expiryNow: Clock, checkNow: Clock, recordNow: Clock)
    | BareRecord(did: Did, token: Token, recordNow: Clock)

  function Step(policies: Policies, usage: Usage, e: Event): Usage {
    if e.Attempt? && Check(policies, usage, e.did, e.token, e.expiryNow, e.checkNow).Failure? then usage
    else Record(usage, e.did, e.token, e.recordNow)
  }

  function Run(policies: Policies, usage: Usage, events: seq<Event>): Usage
    decreases events
  {
    if events == [] then usage else Run(policies, Step(policies, usage, events[0]), events[1..])
  }

  // Every use of this key is checked first, with clock readings that make it safe.
  predicate Disciplined(events: seq<Event>, key: Key, limit: nat, period: nat) {
    forall e | e in events && KeyOf(e.did, e.token) == key ::
      e.Attempt? && (e.checkNow.Some? && e.recordNow.Some? ==> SafeTiming(limit, period, e.checkNow.value, e.recordNow.value))
  }

  // Sliding-window safety: in every run that is disciplined for a key under an unchanged
  // rate limit, no window of the period ever holds more than the limit.
  lemma {:induction false} SlidingWindowSafety(policies: Policies, usage: Usage, events: seq<Event>, key: Key)
    requires (key.resourceType, key.scope) in policies && policies[(key.resourceType, key.scope)].RateLimit?
    requires var p := policies[(key.resourceType, key.scope)];
             Disciplined(events, key, p.amount, p.periodSecs) && WindowsWithin(LogOf(usage, key), p.amount, p.periodSecs)
    ensures var p := policies[(key.resourceType, key.scope)];
            WindowsWithin(LogOf(Run(policies, usage, events), key), p.amount, p.periodSecs)
    decreases events
  {
    if events != [] {
      var e, p := events[0], policies[(key.resourceType, key.scope)];
      assert e in events;
      if KeyOf(e.did, e.token) == key && e.recordNow.Some?
         && Check(policies, usage, e.did, e.token, e.expiryNow, e.checkNow).Success? {
        UseKeepsWindows(LogOf(usage, key), p.amount, p.periodSecs, e.token.amount, e.checkNow.value, e.recordNow.value);
      }
      SlidingWindowSafety(policies, Step(policies, usage, e), events[1..], key);
    }
  }

  // From an empty repository.
  lemma RateLimitHolds(policies: Policies, events: seq<Event>, key: Key, t: int)
    requires (key.resourceType, key.scope) in policies && policies[(key.resourceType, key.scope)].RateLimit?
    requires var p := policies[(key.resourceType, key.scope)]; Disciplined(events, key, p.amount, p.periodSecs)
    ensures var p := policies[(key.resourceType, key.scope)];
            WindowSum(LogOf(Run(policies, map[], events), key), p.periodSecs, t) <= p.amount
  {
    SlidingWindowSafety(policies, map[], events, key);
  }

  // The check refuses nothing it need not: when no entry lies in the future, a live token is
  // authorized exactly when recording it now keeps the current window within the limit.
  lemma CheckIsExact(policies: Policies, usage: Usage, did: Did, token: Token, now: nat)
    requires var slot := (token.resourceType, token.scope); slot in policies && policies[slot].RateLimit?
    requires token.expiresAt.Some? ==> now <= token.expiresAt.value
    requires forall e | e in LogOf(usage, KeyOf(did, token)) :: e.time <= now
    ensures var p := policies[(token.resourceType, token.scope)];
            (Check(policies, usage, did, token, Some(now), Some(now)).Success?
             <==> WindowSum(LogOf(Record(usage, did, token, Some(now)), KeyOf(did, token)), p.periodSecs, now) <= p.amount)
  {
    var p, log := policies[(token.resourceType, token.scope)], LogOf(usage, KeyOf(did, token));
    SinceIsWindow(log, p.periodSecs, now);
    WindowSumConcat(log, [Entry(now, token.amount)], p.periodSecs, now);
    WindowOfOne(Entry(now, token.amount), p.periodSecs, now);
  }

  // Under a quota the all-time sum stays within it; here the clocks do not matter.
  lemma {:induction false} QuotaSafety(policies: Policies, usage: Usage, events: seq<Event>, key: Key)
    requires (key.resourceType, key.scope) in policies && policies[(key.resourceType, key.scope)].Quota?
    requires forall e | e in events && KeyOf(e.did, e.token) == key :: e.Attempt?
    requires SumOf(LogOf(usage, key)) <= policies[(key.resourceType, key.scope)].quota
    ensures SumOf(LogOf(Run(policies, usage, events), key)) <= policies[(key.resourceType, key.scope)].quota
    decreases events
  {
    if events != [] {
      var e := events[0];
      assert e in events;
      if KeyOf(e.did, e.token) == key && e.recordNow.Some? {
        SumOfAppend(LogOf(usage, key), Entry(e.recordNow.value, e.token.amount));
      }
      QuotaSafety(policies, Step(policies, usage, e), events[1..], key);
    }
  }

  // ----- every policy, over runs -----

  // The token has not expired at a clock that can be read.
  predicate Live(token: Token, now: Clock) {
    token.expiresAt.None? || (now.Some? && now.value <= token.expiresAt.value)
  }

  // A live attempt whose use can be recorded.
  predicate Effective(e: Event) {
    e.Attempt? && Live(e.token, e.expiryNow) && e.recordNow.Some?
  }

  predicate OnlyAttempts(events: seq<Event>) {
    forall e | e in events :: e.Attempt?
  }

  // The entries of a key's effective attempts, in order.
  function EffectiveEntries(events: seq<Event>, key: Key): seq<Entry> {
    if events == [] then []
    else
      var rest := EffectiveEntries(events[1..], key);
      if Effective(events[0]) && KeyOf(events[0].did, events[0].token) == key
      then [Entry(events[0].recordNow.value, events[0].token.amount)] + rest
      else rest
  }

  // A step touches only the log of its own key, and appends at most its own entry.
  lemma StepAppends(policies: Policies, usage: Usage, e: Event, key: Key)
    ensures var log := LogOf(Step(policies, usage, e), key);
            if KeyOf(e.did, e.token) == key && e.recordNow.Some?
               && (e.Attempt? ==> Check(policies, usage, e.did, e.token, e.expiryNow, e.checkNow).Success?)
            then log == LogOf(usage, key) + [Entry(e.recordNow.value, e.token.amount)]
            else log == LogOf(usage, key)
  {
  }

  lemma OpenPolicyStep(policies: Policies, usage: Usage, e: Event, key: Key)
    requires (key.resourceType, key.scope) in policies && e.Attempt? && KeyOf(e.did, e.token) == key
    requires var p := policies[(key.resourceType, key.scope)]; p.AllowAll? || p.PermitList?
    ensures var p := policies[(key.resourceType, key.scope)];
            LogOf(Step(policies, usage, e), key)
            == if Effective(e) && (p.PermitList? ==> key.did in p.permits)
               then LogOf(usage, key) + [Entry(e.recordNow.value, e.token.amount)]
               else LogOf(usage, key)
  {
    StepAppends(policies, usage, e, key);
  }

  // Under a policy that asks nothing of the log, a key's attempts are recorded if and only if
  // they are effective and its DID is permitted.
  lemma {:induction false} OpenPolicyRuns(policies: Policies, usage: Usage, events: seq<Event>, key: Key)
    requires (key.resourceType, key.scope) in policies && OnlyAttempts(events)
    requires var p := policies[(key.resourceType, key.scope)]; p.AllowAll? || p.PermitList?
    ensures var p := policies[(key.resourceType, key.scope)];
            LogOf(Run(policies, usage, events), key)
            == if p.PermitList? && key.did !in p.permits then LogOf(usage, key)
               else LogOf(usage, key) + EffectiveEntries(events, key)
    decreases events
  {
    if events == [] {
      assert LogOf(usage, key) + [] == LogOf(usage, key);
    } else {
      assert events[0] in events;
      assert forall e | e in events[1..] :: e in events;
      StepAppends(policies, usage, events[0], key);
      if KeyOf(events[0].did, events[0].token) == key {
        OpenPolicyStep(policies, usage, events[0], key);
      }
      OpenPolicyRuns(policies, Step(policies, usage, events[0]), events[1..], key);
    }
  }

  // Attempts that are not effective are never recorded, and without a policy none is.
  lemma {:induction false} NothingRecorded(policies: Policies, usage: Usage, events: seq<Event>, key: Key)
    requires OnlyAttempts(events)
    requires (key.resourceType, key.scope) !in policies || EffectiveEntries(events, key) == []
    ensures LogOf(Run(policies, usage, events), key) == LogOf(usage, key)
    decreases events
  {
    if events != [] {
      assert events[0] in events;
      assert forall e | e in events[1..] :: e in events;
      StepAppends(policies, usage, events[0], key);
      NothingRecorded(policies, Step(policies, usage, events[0]), events[1..], key);
    }
  }

  // The effective entries that a quota lets through, one after the other.
  function WithinQuota(log: seq<Entry>, entries: seq<Entry>, quota: nat): seq<Entry>
    decreases entries
  {
    if entries == [] then log
    else WithinQuota(if SumOf(log) + entries[0].amount <= quota then log + [entries[0]] else log, entries[1..], quota)
  }

  // Under a quota an effective attempt is recorded if and only if the all-time sum with it
  // stays within the quota.
  lemma {:induction false} QuotaRuns(policies: Policies, usage: Usage, events: seq<Event>, key: Key)
    requires (key.resourceType, key.scope) in policies && policies[(key.resourceType, key.scope)].Quota? && OnlyAttempts(events)
    ensures LogOf(Run(policies, usage, events), key)
         == WithinQuota(LogOf(usage, key), EffectiveEntries(events, key), policies[(key.resourceType, key.scope)].quota)
    decreases events
  {
    if events != [] {
      var e := events[0];
      assert e in events;
      assert forall e | e in events[1..] :: e in events;
      StepAppends(policies, usage, e, key);
      QuotaRuns(policies, Step(policies, usage, e), events[1..], key);
      if Effective(e) && KeyOf(e.did, e.token) == key {
        var entry := Entry(e.recordNow.value, e.token.amount);
        assert EffectiveEntries(events, key)[1..] == EffectiveEntries(events[1..], key);
        assert EffectiveEntries(events, key)[0] == entry;
      }
    }
  }

  // Which error refuses an attempt: a missing policy before everything, then an unreadable
  // clock, then expiry, and only then the policy's own.
  lemma RefusalExact(policies: Policies, usage: Usage, did: Did, token: Token, expiryNow: Clock, now: Clock)
    ensures var r := Check(policies, usage, did, token, expiryNow, now);
            var slot := (token.resourceType, token.scope);
            && (r.Success? ==> r.value)
            && (r == Failure(NoPolicyFound(token.resourceType, token.scope)) <==> slot !in policies)
            && (slot in policies && token.expiresAt.Some? && expiryNow.None? ==> r == Failure(SystemTimeError))
            && (slot in policies && !Live(token, expiryNow) && expiryNow.Some? ==>
                  r == Failure(TokenExpired(token.expiresAt.value, expiryNow.value)))
            && (slot in policies && Live(token, expiryNow) && r.Failure? ==>
                  var log := LogOf(usage, KeyOf(did, token));
                  match policies[slot]
                  case Quota(quota) => r.error == QuotaExceeded(quota, SumOf(log), token.amount)
                  case RateLimit(amount, period) =>
                    r.error == if now.None? then SystemTimeError
                               else RateLimitExceeded(amount, period, Recent(log, period, now.value), token.amount)
                  case PermitList(_) => r.error == AccessDenied(did)
                  case AllowAll => false)
  {
  }

  // ----- both halves of the discipline are needed -----

  lemma {:induction false} WindowOfSimultaneous(uses: seq<Entry>, period: nat, now: nat, end: int)
    requires forall e | e in uses :: e.time == now
    ensures WindowSum(uses, period, end) == if end - period <= now <= end then SumOf(uses) else 0
    decreases uses
  {
    if uses != [] {
      assert uses[0] in uses;
      assert forall e | e in uses[1..] :: e in uses;
      WindowOfSimultaneous(uses[1..], period, now, end);
    }
  }

  lemma SimultaneousWindow(log: seq<Entry>, uses: seq<Entry>, period: nat, now: nat)
    requires (forall e | e in log :: e.time <= now) && (forall e | e in uses :: e.time == now)
    ensures WindowSum(log + uses, period, now) == Recent(log, period, now) + SumOf(uses)
  {
    SinceIsWindow(log, period, now);
    WindowSumConcat(log, uses, period, now);
    WindowOfSimultaneous(uses, period, now, now);
  }

  // The amounts in order, whenever they are recorded.
  function Amounts(uses: seq<Entry>): seq<nat> {
    seq(|uses|, i requires 0 <= i < |uses| => uses[i].amount)
  }

  function Total(amounts: seq<nat>): nat {
    if amounts == [] then 0 else amounts[0] + Total(amounts[1..])
  }

  lemma {:induction false} TotalOfAmounts(uses: seq<Entry>)
    ensures Total(Amounts(uses)) == SumOf(uses)
    decreases uses
  {
    if uses != [] {
      assert Amounts(uses)[1..] == Amounts(uses[1..]);
      TotalOfAmounts(uses[1..]);
    }
  }

  lemma {:induction false} WindowOfLater(uses: seq<Entry>, period: nat, now: nat, end: int)
    requires forall e | e in uses :: now <= e.time
    ensures WindowSum(uses, period, end) <= if now <= end then SumOf(uses) else 0
    decreases uses
  {
    if uses != [] {
      assert uses[0] in uses;
      assert forall e | e in uses[1..] :: e in uses;
      WindowOfLater(uses[1..], period, now, end);
    }
  }

  // Uses that pass together may be recorded at any times from the check on, in any order.
  lemma LaterUsesFit(log: seq<Entry>, uses: seq<Entry>, limit: nat, period: nat, now: nat)
    requires WindowsWithin(log, limit, period) && Recent(log, period, now) + SumOf(uses) <= limit
    requires forall e | e in uses :: now <= e.time
    ensures WindowsWithin(log + uses, limit, period)
  {
    forall t: int ensures WindowSum(log + uses, period, t) <= limit {
      WindowSumConcat(log, uses, period, t);
      WindowOfLater(uses, period, now, t);
      assert WindowSum(log, period, t) <= limit;
      if now <= t {
        WindowInsideSince(log, WindowStart(now, period), period, t);
      }
    }
  }

  predicate RecordedLater(uses: seq<Entry>, amounts: seq<nat>, now: nat) {
    Amounts(uses) == amounts && forall e | e in uses :: now <= e.time
  }

  // Any number of uses checked on one log before any of them is recorded keep every window
  // within the limit, whenever they are recorded, exactly when they would pass as one use.
  lemma InterleavedExact(log: seq<Entry>, amounts: seq<nat>, limit: nat, period: nat, now: nat)
    requires WindowsWithin(log, limit, period) && forall e | e in log :: e.time <= now
    ensures (forall uses | RecordedLater(uses, amounts, now) :: WindowsWithin(log + uses, limit, period))
       <==> Recent(log, period, now) + Total(amounts) <= limit
  {
    if Recent(log, period, now) + Total(amounts) <= limit {
      forall uses | RecordedLater(uses, amounts, now) ensures WindowsWithin(log + uses, limit, period) {
        TotalOfAmounts(uses);
        LaterUsesFit(log, uses, limit, period, now);
      }
    } else {
      var uses := seq(|amounts|, i requires 0 <= i < |amounts| => Entry(now, amounts[i]));
      assert Amounts(uses) == amounts;
      TotalOfAmounts(uses);
      SimultaneousWindow(log, uses, period, now);
      assert RecordedLater(uses, amounts, now) && !WindowsWithin(log + uses, limit, period);
    }
  }

  // Each use passes a check at its own record time, on the log with the earlier uses in it.
  predicate PassInTurn(log: seq<Entry>, uses: seq<Entry>, limit: nat, period: nat)
    decreases uses
  {
    uses == [] ||
    (Recent(log, period, uses[0].time) + uses[0].amount <= limit && PassInTurn(log + [uses[0]], uses[1..], limit, period))
  }

  lemma OneUseExact(log: seq<Entry>, use: Entry, limit: nat, period: nat)
    requires WindowsWithin(log, limit, period) && forall e | e in log :: e.time <= use.time
    ensures WindowsWithin(log + [use], limit, period) <==> Recent(log, period, use.time) + use.amount <= limit
  {
    if Recent(log, period, use.time) + use.amount <= limit {
      UseKeepsWindows(log, limit, period, use.amount, use.time, use.time);
    } else {
      assert [use][1..] == [];
      SimultaneousWindow(log, [use], period, use.time);
    }
  }

  // For uses recorded in time order, whenever they were checked: every window stays within
  // the limit exactly when each would have passed a check in its turn.
  lemma {:induction false} OrderedUsesExact(log: seq<Entry>, uses: seq<Entry>, limit: nat, period: nat)
    requires WindowsWithin(log, limit, period)
    requires forall e, u | e in log && u in uses :: e.time <= u.time
    requires forall i, j | 0 <= i < j < |uses| :: uses[i].time <= uses[j].time
    ensures WindowsWithin(log + uses, limit, period) <==> PassInTurn(log, uses, limit, period)
    decreases uses
  {
    if uses == [] {
      assert log + uses == log;
    } else {
      var first, rest := uses[0], uses[1..];
      assert first in uses;
      OneUseExact(log, first, limit, period);
      assert log + [first] + rest == log + uses;
      if Recent(log, period, first.time) + first.amount <= limit {
        forall e, u | e in log + [first] && u in rest ensures e.time <= u.time {
          assert u in uses;
          var j :| 0 <= j < |rest| && rest[j] == u;
          assert uses[j + 1] == u;
        }
        OrderedUsesExact(log + [first], rest, limit, period);
      } else {
        var t: int :| WindowSum(log + [first], period, t) > limit;
        WindowSumConcat(log + [first], rest, period, t);
      }
    }
  }

  // Under every limit but zero, two uses of the whole limit pass their checks on an empty
  // log and, both recorded, hold twice the limit in one window.
  lemma InterleavedChecksExceed(limit: nat, period: nat, did: Did, resourceType: string, scope: string, now: nat)
    requires limit > 0
    ensures var token := Token(resourceType, limit, scope, None, None);
            var policies: Policies := map[(resourceType, scope) := RateLimit(limit, period)];
            var usage := Record(Record(map[], did, token, Some(now)), did, token, Some(now));
            && Check(policies, map[], did, token, Some(now), Some(now)).Success?
            && WindowSum(LogOf(usage, KeyOf(did, token)), period, now) == 2 * limit > limit
  {
    var token, e := Token(resourceType, limit, scope, None, None), Entry(now, limit);
    var usage := Record(Record(map[], did, token, Some(now)), did, token, Some(now));
    assert LogOf(usage, KeyOf(did, token)) == [] + [e] + [e] == [e] + [e];
    WindowOfOne(e, period, now);
    WindowSumConcat([e], [e], period, now);
  }

  // Under every limit and period, clock readings that are not safe break the limit in a run
  // of two attempts: the whole limit at the forgotten time, then one more unit.
  lemma RecordBeforeCheckExceeds(limit: nat, period: nat, did: Did, resourceType: string, scope: string, checkNow: nat, recordNow: nat)
    requires !SafeTiming(limit, period, checkNow, recordNow)
    ensures var policies: Policies := map[(resourceType, scope) := RateLimit(limit, period)];
            var before := Some(Forgotten(period, checkNow, recordNow));
            var all, one := Token(resourceType, limit, scope, None, None), Token(resourceType, 1, scope, None, None);
            var events := [Attempt(did, all, before, before, before), Attempt(did, one, Some(checkNow), Some(checkNow), Some(recordNow))];
            WindowSum(LogOf(Run(policies, map[], events), Key(did, resourceType, scope)), period, recordNow) == limit + 1
  {
    var policies: Policies := map[(resourceType, scope) := RateLimit(limit, period)];
    var empty: Usage := map[];
    var key, time := Key(did, resourceType, scope), Forgotten(period, checkNow, recordNow);
    var all, one := Token(resourceType, limit, scope, None, None), Token(resourceType, 1, scope, None, None);
    var first := Attempt(did, all, Some(time), Some(time), Some(time));
    var second := Attempt(did, one, Some(checkNow), Some(checkNow), Some(recordNow));
    ForgottenLog(limit, period, checkNow, recordNow);
    var used := Step(policies, empty, first);
    assert LogOf(used, key) == [] + [Entry(time, limit)] == [Entry(time, limit)];
    assert LogOf(Step(policies, used, second), key) == [Entry(time, limit)] + [Entry(recordNow, 1)];
    assert [first, second][1..] == [second] && [second][1..] == [];
    assert Run(policies, empty, [first, second]) == Run(policies, used, [second]);
    assert Run(policies, used, [second]) == Run(policies, Step(policies, used, second), []);
  }

  // ----- sums in 64 bits -----

  const U64: nat := 0x1_0000_0000_0000_0000

  // What a build without overflow checks tests: both the sum and the addition wrap.
  predicate AdmitsWrapping(used: nat, amount: nat, limit: nat) {
    (used % U64 + amount) % U64 <= limit
  }

  // As long as the recorded uses are within the limit, the wrapping test lets through the
  // uses that fit and, on top, exactly those that carry the sum past 64 bits.
  lemma WrappingAdmitsExact(log: seq<Entry>, amount: nat, limit: nat)
    requires SumOf(log) <= limit < U64 && amount < U64
    ensures AdmitsWrapping(SumOf(log), amount, limit) <==> SumOf(log) + amount <= limit || U64 <= SumOf(log) + amount
  {
    var used := SumOf(log);
    assert used % U64 == used;
    if U64 <= used + amount {
      assert (used + amount) % U64 == used + amount - U64;
    } else {
      assert (used + amount) % U64 == used + amount;
    }
  }

  // A run under a quota in which every check is the wrapping one.
  function LogWrapping(log: seq<Entry>, uses: seq<Entry>, quota: nat): seq<Entry>
    decreases uses
  {
    if uses == [] then log
    else LogWrapping(if AdmitsWrapping(SumOf(log), uses[0].amount, quota) then log + [uses[0]] else log, uses[1..], quota)
  }

  // Quota safety survives wrapping for every sequence of requests if and only if no single
  // request is large enough to wrap on top of a full quota, or the quota is zero.
  lemma QuotaSurvivesWrapping(quota: nat, largest: nat)
    requires quota < U64 && largest < U64
    ensures (forall uses: seq<Entry> | (forall e | e in uses :: e.amount <= largest) :: SumOf(LogWrapping([], uses, quota)) <= quota)
       <==> quota == 0 || largest < U64 - quota
  {
    if quota == 0 || largest < U64 - quota {
      forall uses: seq<Entry> | (forall e | e in uses :: e.amount <= largest) ensures SumOf(LogWrapping([], uses, quota)) <= quota {
        WrappingStaysWithin([], uses, quota, largest);
      }
    } else {
      WrappingOvershoots(quota, largest);
    }
  }

  lemma {:induction false} WrappingStaysWithin(log: seq<Entry>, uses: seq<Entry>, quota: nat, largest: nat)
    requires quota < U64 && largest < U64 && (quota == 0 || largest < U64 - quota)
    requires SumOf(log) <= quota && forall e | e in uses :: e.amount <= largest
    ensures SumOf(LogWrapping(log, uses, quota)) <= quota
    decreases uses
  {
    if uses != [] {
      assert uses[0] in uses;
      assert forall e | e in uses[1..] :: e in uses;
      WrappingAdmitsExact(log, uses[0].amount, quota);
      SumOfAppend(log, uses[0]);
      WrappingStaysWithin(if AdmitsWrapping(SumOf(log), uses[0].amount, quota) then log + [uses[0]] else log, uses[1..], quota, largest);
    }
  }

  function Ones(n: nat): seq<Entry> {
    seq(n, _ => Entry(0, 1))
  }

  lemma UnitAdmitted(used: nat, quota: nat)
    requires used + 1 <= quota < U64
    ensures AdmitsWrapping(used, 1, quota)
  {
  }

  lemma NextAdmitted(log: seq<Entry>, uses: seq<Entry>, quota: nat)
    requires uses != [] && AdmitsWrapping(SumOf(log), uses[0].amount, quota)
    ensures LogWrapping(log, uses, quota) == LogWrapping(log + [uses[0]], uses[1..], quota)
  {
  }

  // Single units fill the quota one by one.
  lemma {:induction false} OnesAreAdmitted(log: seq<Entry>, n: nat, rest: seq<Entry>, quota: nat)
    requires SumOf(log) + n <= quota < U64
    ensures LogWrapping(log, Ones(n) + rest, quota) == LogWrapping(log + Ones(n), rest, quota)
    ensures SumOf(log + Ones(n)) == SumOf(log) + n
    decreases n
  {
    if n == 0 {
      assert Ones(n) + rest == rest && log + Ones(n) == log;
    } else {
      var unit := Entry(0, 1);
      SumOfAppend(log, unit);
      UnitAdmitted(SumOf(log), quota);
      NextAdmitted(log, [unit] + (Ones(n - 1) + rest), quota);
      OnesAreAdmitted(log + [unit], n - 1, rest, quota);
      assert [unit] + (Ones(n - 1) + rest) == Ones(n) + rest;
      assert log + [unit] + Ones(n - 1) == log + Ones(n);
    }
  }

  // A full quota, then the request that wraps the sum to zero.
  lemma WrappingOvershoots(quota: nat, largest: nat)
    requires 0 < quota < U64 && U64 - quota <= largest < U64
    ensures exists uses: seq<Entry> :: (forall e | e in uses :: e.amount <= largest) && SumOf(LogWrapping([], uses, quota)) > quota
  {
    var big := Entry(0, U64 - quota);
    OnesAreAdmitted([], quota, [big], quota);
    assert [] + Ones(quota) == Ones(quota);
    assert [big][1..] == [];
    assert LogWrapping(Ones(quota), [big], quota) == LogWrapping(Ones(quota) + [big], [], quota);
    SumOfAppend(Ones(quota), big);
    var uses := Ones(quota) + [big];
    assert forall e | e in uses :: e.amount <= largest;
    assert SumOf(LogWrapping([], uses, quota)) > quota;
  }
}
