// What the mana pools guarantee over whole runs: conservation with clipping accounted for,
// the token-bucket bound, independence from how often the clock was read, conservation of a
// transfer, and metrics that mirror every stored balance.
module ManaTheorems {
  import opened Wrappers
  import opened Mana

  // ----- runs of one pool -----

  datatype PoolOp = Read(now: nat) | Spend(now: nat, amount: nat) | Deposit(now: nat, amount: nat)

  function Apply(p: Pool, op: PoolOp): Pool {
    match op
    case Read(now) => p.Regenerate(now)
    case Spend(now, amount) => p.Consume(amount, now).1
    case Deposit(now, amount) => p.Credit(amount, now)
  }

  function Accepted(p: Pool, op: PoolOp): nat {
    if op.Spend? && p.Consume(op.amount, op.now).0.Success? then op.amount else 0
  }

  function Deposited(op: PoolOp): nat {
    if op.Deposit? then op.amount else 0
  }

  // Mana lost to the cap by one operation.
  function Clipped(p: Pool, op: PoolOp): nat {
    var earned := if op.now > p.lastUpdated then (op.now - p.lastUpdated) * p.regenPerSec else 0;
    var settled := p.Regenerate(op.now);
    (if p.current + earned > p.max then p.current + earned - p.max else 0)
    + if op.Deposit? && settled.current + op.amount > settled.max then settled.current + op.amount - settled.max else 0
  }

  function Run(p: Pool, ops: seq<PoolOp>): Pool
    decreases ops
  {
    if ops == [] then p else Run(Apply(p, ops[0]), ops[1..])
  }

  function TotalAccepted(p: Pool, ops: seq<PoolOp>): nat
    decreases ops
  {
    if ops == [] then 0 else Accepted(p, ops[0]) + TotalAccepted(Apply(p, ops[0]), ops[1..])
  }

  function TotalDeposited(ops: seq<PoolOp>): nat {
    if ops == [] then 0 else Deposited(ops[0]) + TotalDeposited(ops[1..])
  }

  function TotalClipped(p: Pool, ops: seq<PoolOp>): nat
    decreases ops
  {
    if ops == [] then 0 else Clipped(p, ops[0]) + TotalClipped(Apply(p, ops[0]), ops[1..])
  }

  // The latest of a starting time and every clock reading.
  function Latest(start: nat, ops: seq<PoolOp>): (latest: nat)
    ensures start <= latest
    decreases ops
  {
    if ops == [] then start else Latest(Max(start, ops[0].now), ops[1..])
  }

  lemma StepConserves(p: Pool, op: PoolOp)
    requires p.Capped()
    ensures var q := Apply(p, op);
            && q.Capped() && q.max == p.max && q.regenPerSec == p.regenPerSec
            && q.lastUpdated == Max(p.lastUpdated, op.now)
            && p.current + Deposited(op) + p.regenPerSec * (q.lastUpdated - p.lastUpdated)
            == Accepted(p, op) + q.current + Clipped(p, op)
  {
    var elapsed := Max(p.lastUpdated, op.now) - p.lastUpdated;
    assert p.regenPerSec * elapsed == elapsed * p.regenPerSec;
  }

  // Exact conservation: everything held, credited or regenerated is spent, still held, or
  // was clipped by the cap. Time advances to the latest clock reading and never back.
  lemma {:induction false} PoolConservation(p: Pool, ops: seq<PoolOp>)
    requires p.Capped()
    ensures var q := Run(p, ops);
            && q.Capped() && q.max == p.max && q.regenPerSec == p.regenPerSec
            && q.lastUpdated == Latest(p.lastUpdated, ops)
            && p.current + TotalDeposited(ops) + p.regenPerSec * (q.lastUpdated - p.lastUpdated)
            == TotalAccepted(p, ops) + q.current + TotalClipped(p, ops)
    decreases ops
  {
    if ops != [] {
      var next, q := Apply(p, ops[0]), Run(p, ops);
      StepConserves(p, ops[0]);
      PoolConservation(next, ops[1..]);
      Distribute(p.regenPerSec, next.lastUpdated - p.lastUpdated, q.lastUpdated - next.lastUpdated);
    }
  }

  lemma Distribute(r: nat, a: nat, b: nat)
    ensures r * (a + b) == r * a + r * b
  {
  }

  lemma {:induction false} RunAppend(p: Pool, a: seq<PoolOp>, b: seq<PoolOp>)
    ensures Run(p, a + b) == Run(Run(p, a), b)
    ensures TotalAccepted(p, a + b) == TotalAccepted(p, a) + TotalAccepted(Run(p, a), b)
    decreases a
  {
    if a == [] {
      assert a + b == b;
    } else {
      assert (a + b)[1..] == a[1..] + b;
      RunAppend(Apply(p, a[0]), a[1..], b);
    }
  }

  // The token bucket: in any window of any run, accepted consumption is at most the cap plus
  // what regenerated and was credited during the window.
  lemma {:induction false} TokenBucketBound(p: Pool, before: seq<PoolOp>, window: seq<PoolOp>)
    requires p.Capped()
    ensures var start := Run(p, before).lastUpdated;
            TotalAccepted(p, before + window) - TotalAccepted(p, before)
            <= p.max + p.regenPerSec * (Latest(start, window) - start) + TotalDeposited(window)
  {
    RunAppend(p, before, window);
    PoolConservation(p, before);
    PoolConservation(Run(p, before), window);
  }

  // ----- the clock may be read any number of times, in any order -----

  lemma RegenerateTwice(p: Pool, a: nat, b: nat)
    requires p.Capped()
    ensures p.Regenerate(a).Regenerate(b) == p.Regenerate(Max(a, b))
  {
    if p.lastUpdated < a < b {
      var r := p.regenPerSec;
      Distribute(r, a - p.lastUpdated, b - a);
      assert r * (a - p.lastUpdated + (b - a)) == r * (b - p.lastUpdated);
      assert (a - p.lastUpdated) * r + (b - a) * r == (b - p.lastUpdated) * r;
    }
  }

  function Reads(clocks: seq<nat>): seq<PoolOp> {
    seq(|clocks|, i requires 0 <= i < |clocks| => Read(clocks[i]))
  }

  lemma {:induction false} ReadsAreOneRead(p: Pool, clocks: seq<nat>)
    requires p.Capped()
    ensures Run(p, Reads(clocks)) == p.Regenerate(Latest(p.lastUpdated, Reads(clocks)))
    decreases clocks
  {
    if clocks != [] {
      var next := p.Regenerate(clocks[0]);
      assert Reads(clocks)[1..] == Reads(clocks[1..]);
      ReadsAreOneRead(next, clocks[1..]);
      PoolConservation(next, Reads(clocks[1..]));
      StepConserves(p, Read(clocks[0]));
      RegenerateTwice(p, clocks[0], Latest(next.lastUpdated, Reads(clocks[1..])));
      assert Latest(p.lastUpdated, Reads(clocks)) == Latest(next.lastUpdated, Reads(clocks[1..]));
    }
  }

  // After reads at any clock values the balance depends only on the highest of them, and
  // readings at or before the start add nothing.
  lemma {:induction false} ClockPathIndependence(p: Pool, clocks: seq<nat>)
    requires p.Capped()
    ensures var highest := Latest(p.lastUpdated, Reads(clocks));
            && Run(p, Reads(clocks)).current == Min(p.current + (highest - p.lastUpdated) * p.regenPerSec, p.max)
            && Run(p, Reads(clocks)) == Run(p, [Read(highest)])
  {
    var highest := Latest(p.lastUpdated, Reads(clocks));
    ReadsAreOneRead(p, clocks);
    PoolConservation(p, Reads(clocks));
    assert [Read(highest)][1..] == [];
    assert Run(p, [Read(highest)]) == Run(Apply(p, Read(highest)), []);
  }

  // A read just before an operation that happens no earlier is invisible: same result, same
  // state from there on.
  lemma ReadIsInvisible(p: Pool, before: seq<PoolOp>, now: nat, op: PoolOp, rest: seq<PoolOp>)
    requires p.Capped() && now <= op.now
    ensures Run(p, before + [Read(now), op] + rest) == Run(p, before + [op] + rest)
    ensures TotalAccepted(p, before + [Read(now), op] + rest) == TotalAccepted(p, before + [op] + rest)
  {
    var q := Run(p, before);
    PoolConservation(p, before);
    RegenerateTwice(q, now, op.now);
    assert before + [Read(now), op] + rest == before + ([Read(now), op] + rest);
    assert before + [op] + rest == before + ([op] + rest);
    RunAppend(p, before, [Read(now), op] + rest);
    RunAppend(p, before, [op] + rest);
    assert ([Read(now), op] + rest)[1..] == [op] + rest;
    assert ([op] + rest)[1..] == rest;
  }

  // ----- sums over a map -----

  ghost function Total(m: map<ScopeKey, Pool>): nat {
    if m == map[] then 0
    else
      var k :| k in m;
      m[k].current + Total(m - {k})
  }

  lemma {:induction false} TotalWithout(m: map<ScopeKey, Pool>, k: ScopeKey)
    requires k in m
    ensures Total(m) == m[k].current + Total(m - {k})
  {
    var j :| j in m && Total(m) == m[j].current + Total(m - {j});
    if j != k {
      TotalWithout(m - {j}, k);
      TotalWithout(m - {k}, j);
      assert m - {j} - {k} == m - {k} - {j};
    }
  }

  lemma TotalUpdate(m: map<ScopeKey, Pool>, k: ScopeKey, p: Pool)
    ensures Total(m[k := p]) == p.current + Total(m - {k})
  {
    TotalWithout(m[k := p], k);
    assert m[k := p] - {k} == m - {k};
  }

  // ----- transfers -----

  function Settle(m: map<ScopeKey, Pool>, k: ScopeKey, now: nat): map<ScopeKey, Pool> {
    if k in m then m[k := m[k].Regenerate(now)] else m
  }

  // What the destination's cap takes out of a transfer.
  function TransferClip(m: map<ScopeKey, Pool>, from: ScopeKey, to: ScopeKey, amount: nat): nat {
    if to == from || to !in m || m[to].current + amount <= m[to].max then 0
    else m[to].current + amount - m[to].max
  }

  predicate AllCapped(m: map<ScopeKey, Pool>) {
    forall k | k in m :: m[k].Capped()
  }

  lemma RegenerateSettled(p: Pool, now: nat)
    requires p.Capped()
    ensures p.Regenerate(now).Regenerate(now) == p.Regenerate(now) && p.Regenerate(now).Capped()
  {
  }

  // The pools after a successful transfer with the clock still.
  function Moved(m: map<ScopeKey, Pool>, from: ScopeKey, to: ScopeKey, amount: nat, now: nat): map<ScopeKey, Pool>
    requires from in m
  {
    if from == to then m[from := m[from].Regenerate(now)]
    else
      m[from := m[from].Consume(amount, now).1]
       [to := if to in m then m[to].Credit(amount, now) else Pool(amount, amount, 1, now)]
  }

  lemma SpendPools(b: Book, hooked: bool, k: ScopeKey, amount: nat, now: nat)
    requires AllCapped(b.pools)
    ensures var (r, after) := b.Spend(hooked, k, amount, now);
            && (r.Success? <==> k in b.pools && b.pools[k].Regenerate(now).current >= amount)
            && (r.Failure? ==> r.error == InsufficientMana(amount, if k in b.pools then b.pools[k].Regenerate(now).current else 0))
            && after.pools == if r.Success? then b.pools[k := b.pools[k].Consume(amount, now).1] else Settle(b.pools, k, now)
  {
  }

  lemma EnsurePools(b: Book, hooked: bool, k: ScopeKey, max: nat, regenPerSec: nat, created: nat, now: nat)
    ensures b.EnsurePool(hooked, k, max, regenPerSec, created, now).pools
         == b.pools[k := (if k in b.pools then b.pools[k] else Pool(max, max, regenPerSec, created)).Regenerate(now)]
  {
  }

  lemma CreditPools(b: Book, hooked: bool, k: ScopeKey, amount: nat, now: nat)
    requires k in b.pools
    ensures b.Credit(hooked, k, amount, now).pools == b.pools[k := b.pools[k].Credit(amount, now)]
  {
  }

  lemma TransferResult(b: Book, hooked: bool, from: ScopeKey, to: ScopeKey, amount: nat, now: nat)
    requires AllCapped(b.pools)
    ensures var (r, after) := b.Transfer(hooked, from, to, amount, TransferClock(now, now, now, now));
            && (r.Success? <==> from in b.pools && b.pools[from].Regenerate(now).current >= amount)
            && (r.Failure? ==> r.error == InsufficientMana(amount, if from in b.pools then b.pools[from].Regenerate(now).current else 0))
            && after.pools == if r.Success? then Moved(b.pools, from, to, amount, now) else Settle(b.pools, from, now)
  {
    SpendPools(b, hooked, from, amount, now);
    var (r, spent) := b.Spend(hooked, from, amount, now);
    if r.Success? {
      var ensured := spent.EnsurePool(hooked, to, amount, 1, now, now);
      EnsurePools(spent, hooked, to, amount, 1, now, now);
      CreditPools(ensured, hooked, to, amount, now);
      MovedInSteps(b.pools, from, to, amount, now);
    }
  }

  lemma MovedInSteps(m: map<ScopeKey, Pool>, from: ScopeKey, to: ScopeKey, amount: nat, now: nat)
    requires from in m && AllCapped(m) && m[from].Regenerate(now).current >= amount
    ensures var spent := m[from := m[from].Consume(amount, now).1];
            var ready := (if to in spent then spent[to] else Pool(amount, amount, 1, now)).Regenerate(now);
            spent[to := ready][to := ready.Credit(amount, now)] == Moved(m, from, to, amount, now)
  {
    if to in m {
      RegenerateSettled(m[to], now);
    }
  }

  lemma MovedConserves(m: map<ScopeKey, Pool>, from: ScopeKey, to: ScopeKey, amount: nat, now: nat)
    requires from in m && AllCapped(m) && m[from].Regenerate(now).current >= amount
    ensures var settled := Settle(Settle(m, from, now), to, now);
            Total(Moved(m, from, to, amount, now)) + TransferClip(settled, from, to, amount) == Total(settled)
  {
    RegenerateSettled(m[from], now);
    var p, paid := m[from].Regenerate(now), m[from].Consume(amount, now).1;
    if from == to {
      assert Settle(Settle(m, from, now), to, now) == m[from := p];
    } else if to in m {
      assert Settle(Settle(m, from, now), to, now) == m[from := p][to := m[to].Regenerate(now)];
      TotalOfTwo(m, from, p, to, m[to].Regenerate(now));
      TotalOfTwo(m, from, paid, to, m[to].Credit(amount, now));
    } else {
      TotalOfTwo(m, from, paid, to, Pool(amount, amount, 1, now));
      TotalUpdate(m, from, p);
      assert m - {from} - {to} == m - {from};
    }
  }

  // With the clock still, a transfer conserves all mana but what the destination clips,
  // touches only its two pools, and on error moves nothing and creates no pool.
  lemma TransferConservation(b: Book, hooked: bool, from: ScopeKey, to: ScopeKey, amount: nat, now: nat)
    requires AllCapped(b.pools)
    ensures var (r, after) := b.Transfer(hooked, from, to, amount, TransferClock(now, now, now, now));
            var settled := Settle(Settle(b.pools, from, now), to, now);
            && (r.Success? <==> from in b.pools && b.pools[from].Regenerate(now).current >= amount)
            && (r.Success? ==>
                  && Total(after.pools) + TransferClip(settled, from, to, amount) == Total(settled)
                  && after.pools.Keys == b.pools.Keys + {to}
                  && (forall k | k in b.pools && k != from && k != to :: after.pools[k] == b.pools[k])
                  && (from != to ==> after.pools[from].current == settled[from].current - amount))
            && (r.Failure? ==>
                  && after.pools == Settle(b.pools, from, now)
                  && r.error == InsufficientMana(amount, if from in settled then settled[from].current else 0))
  {
    TransferResult(b, hooked, from, to, amount, now);
    if b.Transfer(hooked, from, to, amount, TransferClock(now, now, now, now)).0.Success? {
      MovedConserves(b.pools, from, to, amount, now);
    }
  }

  lemma TotalOfTwo(m: map<ScopeKey, Pool>, j: ScopeKey, p: Pool, k: ScopeKey, q: Pool)
    requires j != k
    ensures Total(m[j := p][k := q]) == p.current + q.current + Total(m - {j} - {k})
  {
    TotalUpdate(m[j := p], k, q);
    assert m[j := p] - {k} == (m - {k})[j := p];
    TotalUpdate(m - {k}, j, p);
    assert m - {k} - {j} == m - {j} - {k};
  }

  // A balance query answers with the balance it leaves stored, and touches no other pool.
  lemma BalanceExact(b: Book, hooked: bool, k: ScopeKey, now: nat)
    ensures var (balance, after) := b.Balance(hooked, k, now);
            && (balance.Some? <==> k in b.pools)
            && (balance.Some? ==> k in after.pools && balance.value == after.pools[k].current)
            && after.pools == Settle(b.pools, k, now)
  {
  }

  // Settling a pool reports if and only if its balance changed and there is a hook.
  lemma ReportsOnlyChanges(b: Book, hooked: bool, k: ScopeKey, now: nat)
    requires k in b.pools
    ensures b.Available(hooked, k, now).reports == b.reports
       <==> !hooked || b.pools[k].Regenerate(now).current == b.pools[k].current
  {
    if hooked && b.pools[k].Regenerate(now).current != b.pools[k].current {
      assert |b.Available(hooked, k, now).reports| == |b.reports| + 1;
    }
  }

  // ----- runs of the manager -----

  datatype ManagerOp =
    | Ensure(scope: ScopeKey, max: nat, regenPerSec: nat, created: nat, now: nat)
    | Query(scope: ScopeKey, now: nat)
    | Charge(scope: ScopeKey, amount: nat, now: nat)
    | Move(from: ScopeKey, to: ScopeKey, amount: nat, clock: TransferClock)

  function ApplyOp(b: Book, hooked: bool, op: ManagerOp): Book {
    match op
    case Ensure(k, max, regen, created, now) => b.EnsurePool(hooked, k, max, regen, created, now)
    case Query(k, now) => b.Balance(hooked, k, now).1
    case Charge(k, amount, now) => b.Spend(hooked, k, amount, now).1
    case Move(from, to, amount, clock) => b.Transfer(hooked, from, to, amount, clock).1
  }

  function RunManager(b: Book, hooked: bool, ops: seq<ManagerOp>): Book
    decreases ops
  {
    if ops == [] then b else RunManager(ApplyOp(b, hooked, ops[0]), hooked, ops[1..])
  }

  // The last balance reported for a scope.
  function LastReport(reports: seq<Report>, k: ScopeKey): Option<nat> {
    if reports == [] then None
    else
      var last := reports[|reports| - 1];
      if last.0 == k then Some(last.1) else LastReport(reports[..|reports| - 1], k)
  }

  // Every stored balance is the one last reported.
  predicate Mirrored(b: Book) {
    forall k | k in b.pools :: b.pools[k].Capped() && LastReport(b.reports, k) == Some(b.pools[k].current)
  }

  lemma LastReportNext(reports: seq<Report>, r: Report, k: ScopeKey)
    ensures LastReport(reports + [r], k) == if r.0 == k then Some(r.1) else LastReport(reports, k)
  {
    assert (reports + [r])[..|reports|] == reports;
  }

  // Storing a pool and reporting its balance, or storing one whose balance is the last
  // reported, keeps the mirror.
  lemma PutMirrors(b: Book, k: ScopeKey, p: Pool, rs: seq<Report>)
    requires p.Capped()
    requires rs == [(k, p.current)] || (rs == [] && LastReport(b.reports, k) == Some(p.current))
    requires forall j | j in b.pools && j != k :: b.pools[j].Capped() && LastReport(b.reports, j) == Some(b.pools[j].current)
    ensures Mirrored(b.Put(k, p).Report(true, rs))
  {
    if rs == [] {
      assert b.reports + rs == b.reports;
    } else {
      forall j | j in b.pools || j == k { LastReportNext(b.reports, rs[0], j); }
    }
  }

  lemma AvailableMirrors(b: Book, k: ScopeKey, now: nat)
    requires Mirrored(b) && k in b.pools
    ensures Mirrored(b.Available(true, k, now))
  {
    var p := b.pools[k].Regenerate(now);
    PutMirrors(b, k, p, Changed(k, b.pools[k].current, p.current));
  }

  lemma EnsureMirrors(b: Book, k: ScopeKey, max: nat, regenPerSec: nat, created: nat, now: nat)
    requires Mirrored(b)
    ensures Mirrored(b.EnsurePool(true, k, max, regenPerSec, created, now))
  {
    var made := if k in b.pools then b else b.Put(k, Pool(max, max, regenPerSec, created)).Report(true, [(k, max)]);
    if k !in b.pools {
      PutMirrors(b, k, Pool(max, max, regenPerSec, created), [(k, max)]);
    }
    AvailableMirrors(made, k, now);
    var settled := made.Available(true, k, now);
    PutMirrors(settled, k, settled.pools[k], [(k, settled.pools[k].current)]);
    assert settled.Put(k, settled.pools[k]).pools == settled.pools;
  }

  lemma SpendMirrors(b: Book, k: ScopeKey, amount: nat, now: nat)
    requires Mirrored(b)
    ensures Mirrored(b.Spend(true, k, amount, now).1)
  {
    if k in b.pools {
      AvailableMirrors(b, k, now);
      var (r, p) := b.pools[k].Consume(amount, now);
      if r.Success? {
        PutMirrors(b.Available(true, k, now), k, p, [(k, p.current)]);
      }
    }
  }

  lemma CreditMirrors(b: Book, k: ScopeKey, amount: nat, now: nat)
    requires Mirrored(b) && k in b.pools
    ensures Mirrored(b.Credit(true, k, amount, now))
  {
    AvailableMirrors(b, k, now);
    var settled, p := b.Available(true, k, now), b.pools[k].Credit(amount, now);
    PutMirrors(settled, k, p, Changed(k, settled.pools[k].current, p.current));
  }

  lemma OpMirrors(b: Book, op: ManagerOp)
    requires Mirrored(b)
    ensures Mirrored(ApplyOp(b, true, op))
  {
    match op {
      case Ensure(k, max, regen, created, now) =>
        EnsureMirrors(b, k, max, regen, created, now);
      case Query(k, now) =>
        if k in b.pools {
          AvailableMirrors(b, k, now);
        }
      case Charge(k, amount, now) =>
        SpendMirrors(b, k, amount, now);
      case Move(from, to, amount, t) =>
        SpendMirrors(b, from, amount, t.spend);
        var (r, spent) := b.Spend(true, from, amount, t.spend);
        if r.Success? {
          EnsureMirrors(spent, to, amount, 1, t.created, t.ensured);
          CreditMirrors(spent.EnsurePool(true, to, amount, 1, t.created, t.ensured), to, amount, t.credited);
        }
    }
  }

  lemma {:induction false} RunMirrors(b: Book, ops: seq<ManagerOp>)
    requires Mirrored(b)
    ensures Mirrored(RunManager(b, true, ops))
    decreases ops
  {
    if ops != [] {
      OpMirrors(b, ops[0]);
      RunMirrors(ApplyOp(b, true, ops[0]), ops[1..]);
    }
  }

  // In every reachable state of a manager with a hook, whatever the hook heard before.
  lemma MetricsMirror(heard: seq<Report>, ops: seq<ManagerOp>)
    ensures var b := RunManager(Book(map[], heard), true, ops);
            forall k | k in b.pools :: LastReport(b.reports, k) == Some(b.pools[k].current) && b.pools[k].Capped()
  {
    RunMirrors(Book(map[], heard), ops);
  }
}
