// The tick-driven regenerator: one sweep over a ledger whose reads and updates may fail.
module ManaRegenerator {
  import opened Wrappers
  import opened FiniteSums
  import opened Mana

  type Did = string

  datatype ManaState = ManaState(currentMana: nat, maxMana: nat, regenRatePerEpoch: real, lastUpdatedEpoch: nat)

  datatype Fault = ReadFailed | UpdateFailed | ListingFailed

  // Which ledger calls fail during one tick.
  datatype Faults = Faults(onRead: set<Did>, onUpdate: set<Did>)

  datatype TickDetails = TickDetails(processed: nat, regenerated: nat, errors: seq<(Did, Fault)>)

  // ----- a sweep as a function -----

  function Regenerated(s: ManaState, rate: nat): ManaState {
    s.(currentMana := Min(s.currentMana + rate, s.maxMana))
  }

  datatype Sweep = Sweep(states: map<Did, ManaState>, regenerated: nat, errors: seq<(Did, Fault)>)

  function Visit(s: Sweep, rate: nat, faults: Faults, did: Did): Sweep {
    if did in faults.onRead then s.(errors := s.errors + [(did, ReadFailed)])
    else if did !in s.states || Regenerated(s.states[did], rate) == s.states[did] then s
    else
      var counted := s.(regenerated := s.regenerated + 1);
      if did in faults.onUpdate
      then counted.(errors := s.errors + [(did, UpdateFailed)])
      else counted.(states := s.states[did := Regenerated(s.states[did], rate)])
  }

  function VisitAll(s: Sweep, rate: nat, faults: Faults, dids: seq<Did>): Sweep
    decreases dids
  {
    if dids == [] then s else VisitAll(Visit(s, rate, faults, dids[0]), rate, faults, dids[1..])
  }

  // ----- the ledger and the regenerator -----

  class InMemoryManaLedger {
    var inner: map<Did, ManaState>

    constructor ()
      ensures inner == map[]
    {
      inner := map[];
    }

    method GetManaState(did: Did, faults: Faults) returns (r: Result<Option<ManaState>, Fault>)
      ensures r == if did in faults.onRead then Failure(ReadFailed)
                   else Success(if did in inner then Some(inner[did]) else None)
    {
      if did in faults.onRead {
        return Failure(ReadFailed);
      }
      r := Success(if did in inner then Some(inner[did]) else None);
    }

    method UpdateManaState(did: Did, state: ManaState, faults: Faults) returns (r: Result<Unit, Fault>)
      modifies this
      ensures r == if did in faults.onUpdate then Failure(UpdateFailed) else Success(Unit)
      ensures inner == if r.Success? then old(inner)[did := state] else old(inner)
    {
      if did in faults.onUpdate {
        return Failure(UpdateFailed);
      }
      inner := inner[did := state];
      r := Success(Unit);
    }
  }

  class Regenerator {
    const ledger: InMemoryManaLedger
    const rate: nat

    constructor (ledger: InMemoryManaLedger, rate: nat)
      ensures this.ledger == ledger && this.rate == rate
    {
      this.ledger := ledger;
      this.rate := rate;
    }

    // `listing` is what the ledger answers when asked for all DIDs.
    method Tick(listing: Result<seq<Did>, Fault>, faults: Faults) returns (r: Result<TickDetails, Fault>)
      modifies ledger
      ensures listing.Failure? ==> r == Failure(ListingFailed) && ledger.inner == old(ledger.inner)
      ensures listing.Success? ==>
                var s := VisitAll(Sweep(old(ledger.inner), 0, []), rate, faults, listing.value);
                && r == Success(TickDetails(|listing.value|, s.regenerated, s.errors))
                && ledger.inner == s.states
    {
      if listing.Failure? {
        return Failure(ListingFailed);
      }
      var dids := listing.value;
      var regenerated, errors := 0, [];
      var i := 0;
      while i < |dids|
        invariant i <= |dids|
        invariant VisitAll(Sweep(ledger.inner, regenerated, errors), rate, faults, dids[i..])
               == VisitAll(Sweep(old(ledger.inner), 0, []), rate, faults, dids)
      {
        var did := dids[i];
        assert dids[i..][1..] == dids[i + 1..];
        ghost var before := Sweep(ledger.inner, regenerated, errors);
        var read := ledger.GetManaState(did, faults);
        match read {
          case Success(Some(state)) =>
            var updated := Regenerated(state, rate);
            if updated.currentMana != state.currentMana {
              regenerated := regenerated + 1;
              var written := ledger.UpdateManaState(did, updated, faults);
              if written.Failure? {
                errors := errors + [(did, UpdateFailed)];
              }
            }
          case Success(None) =>
          case Failure(_) =>
            errors := errors + [(did, ReadFailed)];
        }
        assert Sweep(ledger.inner, regenerated, errors) == Visit(before, rate, faults, did);
        i := i + 1;
      }
      r := Success(TickDetails(|dids|, regenerated, errors));
    }
  }

  // ----- what one tick does to each DID -----

  function Outcome(s: ManaState, rate: nat, faults: Faults, did: Did): ManaState {
    if did in faults.onRead || did in faults.onUpdate then s else Regenerated(s, rate)
  }

  // The failure a DID meets, if any: an update is attempted only when the mana would change.
  function FaultOf(states: map<Did, ManaState>, rate: nat, faults: Faults, did: Did): seq<(Did, Fault)> {
    if did in faults.onRead then [(did, ReadFailed)]
    else if did in faults.onUpdate && did in states && Regenerated(states[did], rate) != states[did] then [(did, UpdateFailed)]
    else []
  }

  function FaultsOf(states: map<Did, ManaState>, rate: nat, faults: Faults, dids: seq<Did>): seq<(Did, Fault)> {
    if dids == [] then [] else FaultOf(states, rate, faults, dids[0]) + FaultsOf(states, rate, faults, dids[1..])
  }

  lemma {:induction false} FaultsOfOthers(a: map<Did, ManaState>, b: map<Did, ManaState>, rate: nat, faults: Faults, dids: seq<Did>)
    requires forall d | d in dids :: (d in a <==> d in b) && (d in a ==> a[d] == b[d])
    ensures FaultsOf(a, rate, faults, dids) == FaultsOf(b, rate, faults, dids)
    decreases dids
  {
    if dids != [] {
      FaultsOfOthers(a, b, rate, faults, dids[1..]);
    }
  }

  lemma {:induction false} SweepStates(s: Sweep, rate: nat, faults: Faults, dids: seq<Did>)
    requires Distinct(dids)
    ensures VisitAll(s, rate, faults, dids).states
         == map d | d in s.states :: if d in dids then Outcome(s.states[d], rate, faults, d) else s.states[d]
    decreases dids
  {
    if dids == [] {
      assert s.states == map d | d in s.states :: s.states[d];
    } else {
      SweepStates(Visit(s, rate, faults, dids[0]), rate, faults, dids[1..]);
      assert dids[0] !in dids[1..];
      assert forall d :: d in dids <==> d == dids[0] || d in dids[1..];
    }
  }

  lemma {:induction false} SweepErrors(s: Sweep, rate: nat, faults: Faults, dids: seq<Did>)
    requires Distinct(dids)
    ensures VisitAll(s, rate, faults, dids).errors == s.errors + FaultsOf(s.states, rate, faults, dids)
    decreases dids
  {
    if dids != [] {
      var next := Visit(s, rate, faults, dids[0]);
      SweepErrors(next, rate, faults, dids[1..]);
      assert dids[0] !in dids[1..];
      FaultsOfOthers(next.states, s.states, rate, faults, dids[1..]);
      assert next.errors == s.errors + FaultOf(s.states, rate, faults, dids[0]);
    }
  }

  // The DIDs whose mana would grow or shrink, counted whether or not the update succeeds.
  function Moving(states: map<Did, ManaState>, rate: nat, faults: Faults, dids: seq<Did>): nat {
    if dids == [] then 0
    else
      (if dids[0] in states && dids[0] !in faults.onRead && Regenerated(states[dids[0]], rate) != states[dids[0]] then 1 else 0)
      + Moving(states, rate, faults, dids[1..])
  }

  lemma {:induction false} MovingOfOthers(a: map<Did, ManaState>, b: map<Did, ManaState>, rate: nat, faults: Faults, dids: seq<Did>)
    requires forall d | d in dids :: (d in a <==> d in b) && (d in a ==> a[d] == b[d])
    ensures Moving(a, rate, faults, dids) == Moving(b, rate, faults, dids)
    decreases dids
  {
    if dids != [] {
      MovingOfOthers(a, b, rate, faults, dids[1..]);
    }
  }

  lemma {:induction false} SweepCounts(s: Sweep, rate: nat, faults: Faults, dids: seq<Did>)
    requires Distinct(dids)
    ensures VisitAll(s, rate, faults, dids).regenerated == s.regenerated + Moving(s.states, rate, faults, dids)
    decreases dids
  {
    if dids != [] {
      var next := Visit(s, rate, faults, dids[0]);
      SweepCounts(next, rate, faults, dids[1..]);
      assert dids[0] !in dids[1..];
      MovingOfOthers(next.states, s.states, rate, faults, dids[1..]);
    }
  }

  // Over a listing without repeats every DID is handled on its own: it regenerates unless
  // its read or update fails, exactly the failing ones appear in the errors, in order, and
  // the count of regenerated DIDs includes those whose update failed.
  lemma {:induction false} SweepExact(s: Sweep, rate: nat, faults: Faults, dids: seq<Did>)
    requires Distinct(dids)
    ensures var t := VisitAll(s, rate, faults, dids);
            && t.states == (map d | d in s.states :: if d in dids then Outcome(s.states[d], rate, faults, d) else s.states[d])
            && t.errors == s.errors + FaultsOf(s.states, rate, faults, dids)
            && t.regenerated == s.regenerated + Moving(s.states, rate, faults, dids)
  {
    SweepStates(s, rate, faults, dids);
    SweepCounts(s, rate, faults, dids);
    SweepErrors(s, rate, faults, dids);
  }

  // The listed DIDs whose state the tick really changes.
  function Updated(states: map<Did, ManaState>, rate: nat, faults: Faults, dids: seq<Did>): nat {
    if dids == [] then 0
    else
      (if dids[0] in states && Outcome(states[dids[0]], rate, faults, dids[0]) != states[dids[0]] then 1 else 0)
      + Updated(states, rate, faults, dids[1..])
  }

  function FailedUpdates(errors: seq<(Did, Fault)>): nat {
    if errors == [] then 0 else (if errors[0].1 == UpdateFailed then 1 else 0) + FailedUpdates(errors[1..])
  }

  lemma {:induction false} MovingSplits(states: map<Did, ManaState>, rate: nat, faults: Faults, dids: seq<Did>)
    ensures Moving(states, rate, faults, dids)
         == Updated(states, rate, faults, dids) + FailedUpdates(FaultsOf(states, rate, faults, dids))
    decreases dids
  {
    if dids != [] {
      var first, rest := FaultOf(states, rate, faults, dids[0]), FaultsOf(states, rate, faults, dids[1..]);
      MovingSplits(states, rate, faults, dids[1..]);
      if first == [] {
        assert first + rest == rest;
      } else {
        assert (first + rest)[1..] == rest;
      }
    }
  }

  // The count of a tick exceeds the DIDs it updated by its failed updates, so it is right
  // exactly when no update failed.
  lemma RegeneratedCountExact(states: map<Did, ManaState>, rate: nat, faults: Faults, dids: seq<Did>)
    requires Distinct(dids)
    ensures var t := VisitAll(Sweep(states, 0, []), rate, faults, dids);
            && t.regenerated == Updated(states, rate, faults, dids) + FailedUpdates(t.errors)
            && (t.regenerated == Updated(states, rate, faults, dids) <==> forall e | e in t.errors :: e.1 != UpdateFailed)
  {
    SweepExact(Sweep(states, 0, []), rate, faults, dids);
    MovingSplits(states, rate, faults, dids);
    assert [] + FaultsOf(states, rate, faults, dids) == FaultsOf(states, rate, faults, dids);
    NoFailedUpdates(FaultsOf(states, rate, faults, dids));
  }

  lemma {:induction false} NoFailedUpdates(errors: seq<(Did, Fault)>)
    ensures FailedUpdates(errors) == 0 <==> forall e | e in errors :: e.1 != UpdateFailed
    decreases errors
  {
    if errors != [] {
      NoFailedUpdates(errors[1..]);
      assert forall e :: e in errors <==> e == errors[0] || e in errors[1..];
    }
  }

  // A failed read or update leaves its DID unchanged, every other listed DID regenerates as
  // if nothing had failed, and the failing DID has exactly one error entry.
  lemma FailureIsolated(states: map<Did, ManaState>, rate: nat, faults: Faults, dids: seq<Did>, i: nat)
    requires Distinct(dids) && i < |dids| && FaultOf(states, rate, faults, dids[i]) != []
    ensures var t := VisitAll(Sweep(states, 0, []), rate, faults, dids);
            && t.states.Keys == states.Keys
            && (dids[i] in states ==> t.states[dids[i]] == states[dids[i]])
            && (forall d | d in states && d in dids && d !in faults.onRead + faults.onUpdate :: t.states[d] == Regenerated(states[d], rate))
            && (forall d | d in states && d !in dids :: t.states[d] == states[d])
            && Count(t.errors, dids[i]) == 1
  {
    SweepExact(Sweep(states, 0, []), rate, faults, dids);
    CountFaults(states, rate, faults, dids, dids[i]);
    assert [] + FaultsOf(states, rate, faults, dids) == FaultsOf(states, rate, faults, dids);
  }

  function Count(errors: seq<(Did, Fault)>, did: Did): nat {
    if errors == [] then 0 else (if errors[0].0 == did then 1 else 0) + Count(errors[1..], did)
  }

  lemma {:induction false} CountFaults(states: map<Did, ManaState>, rate: nat, faults: Faults, dids: seq<Did>, did: Did)
    requires Distinct(dids)
    ensures Count(FaultsOf(states, rate, faults, dids), did)
         == if did in dids then |FaultOf(states, rate, faults, did)| else 0
    decreases dids
  {
    if dids != [] {
      var first, rest := FaultOf(states, rate, faults, dids[0]), FaultsOf(states, rate, faults, dids[1..]);
      CountFaults(states, rate, faults, dids[1..], did);
      assert did in dids <==> did == dids[0] || did in dids[1..];
      if first == [] {
        assert first + rest == rest;
      } else {
        assert (first + rest)[1..] == rest;
      }
    }
  }

  // ----- many ticks -----

  datatype TickInput = TickInput(dids: seq<Did>, faults: Faults)

  function RunTicks(states: map<Did, ManaState>, rate: nat, ticks: seq<TickInput>): map<Did, ManaState>
    decreases ticks
  {
    if ticks == [] then states
    else RunTicks(VisitAll(Sweep(states, 0, []), rate, ticks[0].faults, ticks[0].dids).states, rate, ticks[1..])
  }

  // The DID is listed, once, and none of its ledger calls fail.
  predicate Smooth(t: TickInput, did: Did) {
    Distinct(t.dids) && did in t.dids && did !in t.faults.onRead && did !in t.faults.onUpdate
  }

  // After one or more undisturbed ticks the mana has a closed form, whatever happens to others.
  lemma {:induction false} RegeneratorClosedForm(states: map<Did, ManaState>, rate: nat, ticks: seq<TickInput>, did: Did)
    requires did in states && ticks != []
    requires forall t | t in ticks :: Smooth(t, did)
    ensures did in RunTicks(states, rate, ticks)
    ensures var s := states[did];
            RunTicks(states, rate, ticks)[did] == s.(currentMana := Min(s.currentMana + |ticks| * rate, s.maxMana))
    decreases ticks
  {
    var t, s := ticks[0], states[did];
    assert Smooth(t, did);
    SweepStates(Sweep(states, 0, []), rate, t.faults, t.dids);
    var next := VisitAll(Sweep(states, 0, []), rate, t.faults, t.dids).states;
    assert next[did] == Regenerated(s, rate);
    if |ticks| > 1 {
      RegeneratorClosedForm(next, rate, ticks[1..], did);
      OneMore(rate, |ticks| - 1);
    }
  }

  lemma OneMore(rate: nat, n: nat)
    ensures (n + 1) * rate == rate + n * rate
  {
  }
}
