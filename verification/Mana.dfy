// Mana pools: lazily regenerating token buckets, one per scope, with spending, credit and
// transfer. Every clock reading is a parameter and may go backwards.
module Mana {
  import opened Wrappers

  datatype ScopeKey = Federation(id: string) | Cooperative(id: string) | Community(id: string) | Individual(id: string)

  datatype ManaError = InsufficientMana(requested: nat, available: nat)

  function Min(a: nat, b: nat): nat {
    if a <= b then a else b
  }

  function Max(a: nat, b: nat): nat {
    if a <= b then b else a
  }

  // ----- one pool, as a value -----

  datatype Pool = Pool(current: nat, max: nat, regenPerSec: nat, lastUpdated: nat) {
    predicate Capped() {
      current <= max
    }

    function Regenerate(now: nat): Pool {
      if now > lastUpdated
      then this.(current := Min(current + (now - lastUpdated) * regenPerSec, max), lastUpdated := now)
      else this
    }

    function Consume(amount: nat, now: nat): (Result<Unit, ManaError>, Pool) {
      var p := Regenerate(now);
      if p.current >= amount
      then (Success(Unit), p.(current := p.current - amount))
      else (Failure(InsufficientMana(amount, p.current)), p)
    }

    function Credit(amount: nat, now: nat): Pool {
      var p := Regenerate(now);
      p.(current := Min(p.current + amount, p.max))
    }
  }

  type Report = (ScopeKey, nat)

  // The report made when a balance changes.
  function Changed(scope: ScopeKey, before: nat, after: nat): seq<Report> {
    if before != after then [(scope, after)] else []
  }

  // ----- the pool object and the metrics hook -----

  class MetricsHook {
    var reports: seq<Report>

    constructor ()
      ensures reports == []
    {
      reports := [];
    }

    method UpdateBalance(scope: ScopeKey, balance: nat)
      modifies this
      ensures reports == old(reports) + [(scope, balance)]
    {
      reports := reports + [(scope, balance)];
    }
  }

  function Reports(hook: MetricsHook?): seq<Report>
    reads hook
  {
    if hook == null then [] else hook.reports
  }

  class ManaPool {
    var current: nat
    var max: nat
    var regenPerSec: nat
    var lastUpdated: nat

    ghost function View(): Pool
      reads this
    {
      Pool(current, max, regenPerSec, lastUpdated)
    }

    constructor (max: nat, regenPerSec: nat, now: nat)
      ensures View() == Pool(max, max, regenPerSec, now)
    {
      this.current := max;
      this.max := max;
      this.regenPerSec := regenPerSec;
      this.lastUpdated := now;
    }

    method ApplyRegeneration(now: nat)
      modifies this
      ensures View() == old(View()).Regenerate(now)
    {
      if now > lastUpdated {
        var elapsed := now - lastUpdated;
        var regenAmount := elapsed * regenPerSec;
        current := Min(current + regenAmount, max);
        lastUpdated := now;
      }
    }

    method Available(scope: ScopeKey, hook: MetricsHook?, now: nat) returns (balance: nat)
      modifies this, hook
      ensures View() == old(View()).Regenerate(now)
      ensures balance == current
      ensures hook != null ==> hook.reports == old(hook.reports) + Changed(scope, old(current), current)
    {
      var before := current;
      ApplyRegeneration(now);
      if current != before && hook != null {
        hook.UpdateBalance(scope, current);
      }
      balance := current;
    }

    method Consume(amount: nat, scope: ScopeKey, hook: MetricsHook?, now: nat) returns (r: Result<Unit, ManaError>)
      modifies this, hook
      ensures (r, View()) == old(View()).Consume(amount, now)
      ensures hook != null ==>
                var settled := old(hook.reports) + Changed(scope, old(current), old(View()).Regenerate(now).current);
                hook.reports == if r.Success? then settled + [(scope, current)] else settled
    {
      var available := Available(scope, hook, now);
      if available >= amount {
        current := current - amount;
        if hook != null {
          hook.UpdateBalance(scope, current);
        }
        r := Success(Unit);
      } else {
        r := Failure(InsufficientMana(amount, available));
      }
    }

    method Credit(amount: nat, scope: ScopeKey, hook: MetricsHook?, now: nat)
      modifies this, hook
      ensures View() == old(View()).Credit(amount, now)
      ensures hook != null ==>
                var settled := old(View()).Regenerate(now).current;
                hook.reports == old(hook.reports) + Changed(scope, old(current), settled) + Changed(scope, settled, current)
    {
      var _ := Available(scope, hook, now);
      var before := current;
      current := Min(current + amount, max);
      if current != before && hook != null {
        hook.UpdateBalance(scope, current);
      }
    }
  }

  // ----- the manager, as a value -----

  datatype Book = Book(pools: map<ScopeKey, Pool>, reports: seq<Report>) {
    // Reports only reach a book that has a hook.
    function Report(hooked: bool, rs: seq<Report>): Book {
      if hooked then this.(reports := reports + rs) else this
    }

    function Put(k: ScopeKey, p: Pool): Book {
      this.(pools := pools[k := p])
    }

    function Available(hooked: bool, k: ScopeKey, now: nat): Book
      requires k in pools
    {
      var p := pools[k].Regenerate(now);
      Put(k, p).Report(hooked, Changed(k, pools[k].current, p.current))
    }

    // The clock is read once if the pool is created and once to bring it up to date.
    function EnsurePool(hooked: bool, k: ScopeKey, max: nat, regenPerSec: nat, created: nat, now: nat): Book {
      var b := if k in pools then this else Put(k, Pool(max, max, regenPerSec, created)).Report(hooked, [(k, max)]);
      var settled := b.Available(hooked, k, now);
      settled.Report(hooked, [(k, settled.pools[k].current)])
    }

    function Balance(hooked: bool, k: ScopeKey, now: nat): (Option<nat>, Book) {
      if k in pools
      then (Some(pools[k].Regenerate(now).current), Available(hooked, k, now))
      else (None, this)
    }

    function Spend(hooked: bool, k: ScopeKey, amount: nat, now: nat): (Result<Unit, ManaError>, Book) {
      if k in pools then
        var (r, p) := pools[k].Consume(amount, now);
        var b := Available(hooked, k, now);
        (r, if r.Success? then b.Put(k, p).Report(hooked, [(k, p.current)]) else b)
      else (Failure(InsufficientMana(amount, 0)), this)
    }

    function Credit(hooked: bool, k: ScopeKey, amount: nat, now: nat): Book
      requires k in pools
    {
      var b := Available(hooked, k, now);
      var p := pools[k].Credit(amount, now);
      b.Put(k, p).Report(hooked, Changed(k, b.pools[k].current, p.current))
    }

    function Transfer(hooked: bool, from: ScopeKey, to: ScopeKey, amount: nat, t: TransferClock): (Result<Unit, ManaError>, Book) {
      var (r, spent) := Spend(hooked, from, amount, t.spend);
      if r.Failure? then (r, spent)
      else
        var ensured := spent.EnsurePool(hooked, to, amount, 1, t.created, t.ensured);
        (Success(Unit), ensured.Credit(hooked, to, amount, t.credited))
    }
  }

  // The clock as a transfer reads it, in order.
  datatype TransferClock = TransferClock(spend: nat, created: nat, ensured: nat, credited: nat)

  // ----- the manager object -----

  class ManaManager {
    var pools: map<ScopeKey, ManaPool>
    const hook: MetricsHook?

    ghost function Objects(): set<object>
      reads this
    {
      (set k | k in pools :: pools[k]) + (if hook == null then {} else {hook})
    }

    // Each scope has a pool object of its own.
    ghost predicate Valid()
      reads this
    {
      forall j, k | j in pools && k in pools && j != k :: pools[j] != pools[k]
    }

    ghost function View(): Book
      reads this, Objects()
    {
      Book(map k | k in pools :: pools[k].View(), Reports(hook))
    }

    twostate lemma OnlyPoolChanged(key: ScopeKey)
      requires old(Valid()) && pools == old(pools) && key in pools
      requires forall k | k in pools && k != key :: unchanged(pools[k])
      ensures View().pools == old(View()).pools[key := pools[key].View()]
    {
    }

    constructor (hook: MetricsHook?)
      ensures Valid() && this.hook == hook && pools == map[]
      ensures View() == Book(map[], Reports(hook))
    {
      this.pools := map[];
      this.hook := hook;
    }

    method EnsurePool(key: ScopeKey, max: nat, regenPerSec: nat, created: nat, now: nat)
      requires Valid()
      modifies this, Objects()
      ensures Valid() && fresh(Objects() - old(Objects()))
      ensures key in pools
      ensures View() == old(View()).EnsurePool(hook != null, key, max, regenPerSec, created, now)
    {
      if key !in pools {
        CreatePool(key, max, regenPerSec, created);
      }
      ghost var made := View();
      var balance := PoolAvailable(key, now);
      ghost var settled := View();
      assert settled == made.Available(hook != null, key, now);
      if hook != null {
        hook.UpdateBalance(key, balance);
      }
      assert View() == settled.Report(hook != null, [(key, balance)]);
    }

    method PoolAvailable(key: ScopeKey, now: nat) returns (balance: nat)
      requires Valid() && key in pools
      modifies Objects()
      ensures Valid()
      ensures View() == old(View()).Available(hook != null, key, now)
      ensures balance == View().pools[key].current
    {
      balance := pools[key].Available(key, hook, now);
      OnlyPoolChanged(key);
    }

    method CreatePool(key: ScopeKey, max: nat, regenPerSec: nat, created: nat)
      requires Valid() && key !in pools
      modifies this, hook
      ensures Valid() && fresh(Objects() - old(Objects()))
      ensures pools.Keys == old(pools.Keys) + {key}
      ensures View() == old(View()).Put(key, Pool(max, max, regenPerSec, created)).Report(hook != null, [(key, max)])
    {
      var pool := new ManaPool(max, regenPerSec, created);
      if hook != null {
        hook.UpdateBalance(key, pool.current);
      }
      pools := pools[key := pool];
      assert View().pools == old(View()).pools[key := pool.View()];
    }

    method Balance(key: ScopeKey, now: nat) returns (balance: Option<nat>)
      requires Valid()
      modifies Objects()
      ensures Valid()
      ensures (balance, View()) == old(View()).Balance(hook != null, key, now)
    {
      if key in pools {
        var b := PoolAvailable(key, now);
        balance := Some(b);
      } else {
        balance := None;
      }
    }

    method Spend(key: ScopeKey, amount: nat, now: nat) returns (r: Result<Unit, ManaError>)
      requires Valid()
      modifies Objects()
      ensures Valid()
      ensures (r, View()) == old(View()).Spend(hook != null, key, amount, now)
    {
      if key in pools {
        r := pools[key].Consume(amount, key, hook, now);
        OnlyPoolChanged(key);
        assert View().pools == old(View()).Spend(hook != null, key, amount, now).1.pools;
      } else {
        r := Failure(InsufficientMana(amount, 0));
      }
    }

    method Transfer(from: ScopeKey, to: ScopeKey, amount: nat, t: TransferClock) returns (r: Result<Unit, ManaError>)
      requires Valid()
      modifies this, Objects()
      ensures Valid() && fresh(Objects() - old(Objects()))
      ensures (r, View()) == old(View()).Transfer(hook != null, from, to, amount, t)
    {
      r := Spend(from, amount, t.spend);
      if r.Success? {
        EnsurePool(to, amount, 1, t.created, t.ensured);
        CreditPool(to, amount, t.credited);
      }
    }

    method CreditPool(key: ScopeKey, amount: nat, now: nat)
      requires Valid() && key in pools
      modifies Objects()
      ensures Valid()
      ensures View() == old(View()).Credit(hook != null, key, amount, now)
    {
      pools[key].Credit(amount, key, hook, now);
      OnlyPoolChanged(key);
      assert View().pools == old(View()).Credit(hook != null, key, amount, now).pools;
    }
  }
}
