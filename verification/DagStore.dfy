// An in-memory store of DAG nodes with write batches. A batch stages one pending change per
// id and applies them all when it commits.
module DagStore {
  import opened Wrappers

  datatype DagError = CidFailed

  // The content identifier of a node, which may fail to compute; left uninterpreted.
  type Cid<!Node> = Node -> Option<string>

  datatype Op<Node> = Put(node: Node) | Delete(id: string)

  type Nodes<Node> = map<string, Node>

  // None stands for a removal.
  type Staged<Node> = map<string, Option<Node>>

  // ----- direct operations, one after the other -----

  function Apply<Node>(cid: Cid<Node>, m: Nodes<Node>, op: Op<Node>): Nodes<Node> {
    match op
    case Delete(id) => m - {id}
    case Put(node) => if cid(node).Some? then m[cid(node).value := node] else m
  }

  function Replay<Node>(cid: Cid<Node>, m: Nodes<Node>, ops: seq<Op<Node>>): Nodes<Node>
    decreases ops
  {
    if ops == [] then m else Replay(cid, Apply(cid, m, ops[0]), ops[1..])
  }

  // ----- staging and committing -----

  function Stage<Node>(cid: Cid<Node>, s: Staged<Node>, op: Op<Node>): Staged<Node> {
    match op
    case Delete(id) => s[id := None]
    case Put(node) => if cid(node).Some? then s[cid(node).value := Some(node)] else s
  }

  function StageAll<Node>(cid: Cid<Node>, s: Staged<Node>, ops: seq<Op<Node>>): Staged<Node>
    decreases ops
  {
    if ops == [] then s else StageAll(cid, Stage(cid, s, ops[0]), ops[1..])
  }

  // The store with every staged change applied.
  function Overlay<Node>(m: Nodes<Node>, s: Staged<Node>): Nodes<Node> {
    map id | id in m.Keys + s.Keys && (id in s ==> s[id].Some?) :: if id in s then s[id].value else m[id]
  }

  lemma OverlayStage<Node>(cid: Cid<Node>, m: Nodes<Node>, s: Staged<Node>, op: Op<Node>)
    ensures Overlay(m, Stage(cid, s, op)) == Apply(cid, Overlay(m, s), op)
  {
  }

  // Applying one staged change and forgetting it leaves the overlay as it was.
  lemma OverlayDrain<Node>(m: Nodes<Node>, s: Staged<Node>, id: string)
    requires id in s
    ensures Overlay(if s[id].Some? then m[id := s[id].value] else m - {id}, s - {id}) == Overlay(m, s)
  {
  }

  lemma {:induction false} StageAllAppend<Node>(cid: Cid<Node>, s: Staged<Node>, ops: seq<Op<Node>>, op: Op<Node>)
    ensures StageAll(cid, s, ops + [op]) == Stage(cid, StageAll(cid, s, ops), op)
    decreases ops
  {
    if ops == [] {
      assert (ops + [op])[1..] == [];
    } else {
      assert (ops + [op])[1..] == ops[1..] + [op];
      StageAllAppend(cid, Stage(cid, s, ops[0]), ops[1..], op);
    }
  }

  lemma {:induction false} OverlayFrom<Node>(cid: Cid<Node>, m: Nodes<Node>, s: Staged<Node>, ops: seq<Op<Node>>)
    ensures Overlay(m, StageAll(cid, s, ops)) == Replay(cid, Overlay(m, s), ops)
    decreases ops
  {
    if ops != [] {
      OverlayStage(cid, m, s, ops[0]);
      OverlayFrom(cid, m, Stage(cid, s, ops[0]), ops[1..]);
    }
  }

  // Committing a batch equals replaying what was staged, in order, on the store as it is
  // when the batch commits.
  lemma BatchRefinesReplay<Node>(cid: Cid<Node>, m: Nodes<Node>, ops: seq<Op<Node>>)
    ensures Overlay(m, StageAll(cid, map[], ops)) == Replay(cid, m, ops)
  {
    OverlayFrom(cid, m, map[], ops);
    assert Overlay(m, map[]) == m;
  }

  // ----- store and batch objects -----

  class SharedDagStore<Node> {
    const cid: Cid<Node>
    var inner: Nodes<Node>

    constructor (cid: Cid<Node>)
      ensures this.cid == cid && inner == map[]
    {
      this.cid := cid;
      inner := map[];
    }

    function Get(id: string): (found: Option<Node>)
      reads this
      ensures found.Some? <==> id in inner
      ensures found.Some? ==> found.value == inner[id]
    {
      if id in inner then Some(inner[id]) else None
    }

    method Insert(node: Node) returns (r: Result<Unit, DagError>)
      modifies this
      ensures inner == Apply(cid, old(inner), Put(node))
      ensures r == if cid(node).Some? then Success(Unit) else Failure(CidFailed)
    {
      var id := cid(node);
      if id.None? {
        return Failure(CidFailed);
      }
      inner := inner[id.value := node];
      r := Success(Unit);
    }

    method Remove(id: string)
      modifies this
      ensures inner == Apply(cid, old(inner), Delete(id))
    {
      inner := inner - {id};
    }
  }

  class DagStoreBatch<Node> {
    const store: SharedDagStore<Node>
    var staged: Staged<Node>
    var committed: bool
    ghost var history: seq<Op<Node>>

    // What is staged is what the history of calls stages.
    ghost predicate Valid()
      reads this
    {
      staged == StageAll(store.cid, map[], history)
    }

    constructor (store: SharedDagStore<Node>)
      ensures Valid() && this.store == store && history == [] && !committed
    {
      this.store := store;
      staged := map[];
      committed := false;
      history := [];
    }

    method Insert(node: Node) returns (r: Result<Unit, DagError>)
      requires Valid()
      modifies this
      ensures Valid() && committed == old(committed)
      ensures history == old(history) + [Put(node)]
      ensures r == if store.cid(node).Some? then Success(Unit) else Failure(CidFailed)
    {
      StageAllAppend(store.cid, map[], history, Put(node));
      history := history + [Put(node)];
      var id := store.cid(node);
      if id.None? {
        return Failure(CidFailed);
      }
      staged := staged[id.value := Some(node)];
      r := Success(Unit);
    }

    method Remove(id: string)
      requires Valid()
      modifies this
      ensures Valid() && committed == old(committed)
      ensures history == old(history) + [Delete(id)]
    {
      StageAllAppend(store.cid, map[], history, Delete(id));
      history := history + [Delete(id)];
      staged := staged[id := None];
    }

    // Drains the staged changes in whatever order the map yields them.
    method Commit()
      requires Valid()
      modifies this, store
      ensures committed && staged == map[]
      ensures store.inner == Replay(store.cid, old(store.inner), old(history))
    {
      BatchRefinesReplay(store.cid, store.inner, history);
      while staged != map[]
        invariant Overlay(store.inner, staged) == Overlay(old(store.inner), old(staged))
        decreases staged.Keys
      {
        var id :| id in staged;
        OverlayDrain(store.inner, staged, id);
        match staged[id] {
          case Some(node) =>
            store.inner := store.inner[id := node];
          case None =>
            store.inner := store.inner - {id};
        }
        staged := staged - {id};
      }
      assert Overlay(store.inner, map[]) == store.inner;
      committed := true;
    }

    // Dropping an uncommitted batch does the same.
    method Rollback()
      modifies this
      ensures committed && staged == map[]
    {
      staged := map[];
      committed := true;
    }
  }

  // ----- runs: several batches open at once, with direct writes in between -----

  datatype Event<Node> =
    | Direct(op: Op<Node>)
    | Begin(batch: nat)
    | Pending(batch: nat, op: Op<Node>)
    | Commit(batch: nat)
    | Rollback(batch: nat)

  datatype World<Node> = World(store: Nodes<Node>, open: map<nat, Staged<Node>>)

  function Step<Node>(cid: Cid<Node>, w: World<Node>, e: Event<Node>): World<Node> {
    match e
    case Direct(op) => w.(store := Apply(cid, w.store, op))
    case Begin(b) => w.(open := w.open[b := map[]])
    case Pending(b, op) => if b in w.open then w.(open := w.open[b := Stage(cid, w.open[b], op)]) else w
    case Commit(b) => if b in w.open then World(Overlay(w.store, w.open[b]), w.open - {b}) else w
    case Rollback(b) => w.(open := w.open - {b})
  }

  function Run<Node>(cid: Cid<Node>, w: World<Node>, events: seq<Event<Node>>): World<Node>
    decreases events
  {
    if events == [] then w else Run(cid, Step(cid, w, events[0]), events[1..])
  }

  // The one-at-a-time history a run amounts to: direct writes where they happen, and each
  // batch's writes together where it commits. `open` holds what each batch has staged.
  function Linear<Node>(open: map<nat, seq<Op<Node>>>, events: seq<Event<Node>>): seq<Op<Node>>
    decreases events
  {
    if events == [] then []
    else
      match events[0]
      case Direct(op) => [op] + Linear(open, events[1..])
      case Begin(b) => Linear(open[b := []], events[1..])
      case Pending(b, op) => Linear(if b in open then open[b := open[b] + [op]] else open, events[1..])
      case Commit(b) => if b in open then open[b] + Linear(open - {b}, events[1..]) else Linear(open, events[1..])
      case Rollback(b) => Linear(open - {b}, events[1..])
  }

  lemma {:induction false} ReplayAppend<Node>(cid: Cid<Node>, m: Nodes<Node>, a: seq<Op<Node>>, b: seq<Op<Node>>)
    ensures Replay(cid, m, a + b) == Replay(cid, Replay(cid, m, a), b)
    decreases a
  {
    if a == [] {
      assert a + b == b;
    } else {
      assert (a + b)[1..] == a[1..] + b;
      ReplayAppend(cid, Apply(cid, m, a[0]), a[1..], b);
    }
  }

  // Each open batch has staged what its pending writes stage.
  ghost predicate Tracks<Node>(cid: Cid<Node>, w: World<Node>, open: map<nat, seq<Op<Node>>>) {
    w.open.Keys == open.Keys && forall b | b in open :: w.open[b] == StageAll(cid, map[], open[b])
  }

  lemma StepTracks<Node>(cid: Cid<Node>, w: World<Node>, open: map<nat, seq<Op<Node>>>, b: nat, op: Op<Node>)
    requires Tracks(cid, w, open) && b in open
    ensures Tracks(cid, Step(cid, w, Pending(b, op)), open[b := open[b] + [op]])
  {
    StageAllAppend(cid, map[], open[b], op);
  }

  // Every interleaved run leaves the store that its linear history leaves: commits are
  // atomic, take effect on the store of their moment, and everything rolled back is gone.
  lemma {:induction false} RunsLinearize<Node>(cid: Cid<Node>, w: World<Node>, open: map<nat, seq<Op<Node>>>, events: seq<Event<Node>>)
    requires Tracks(cid, w, open)
    ensures Run(cid, w, events).store == Replay(cid, w.store, Linear(open, events))
    decreases events
  {
    if events != [] {
      var e, next, rest := events[0], Step(cid, w, events[0]), events[1..];
      match e {
        case Direct(op) =>
          RunsLinearize(cid, next, open, rest);
          ReplayAppend(cid, w.store, [op], Linear(open, rest));
          assert [op][1..] == [];
          assert Replay(cid, w.store, [op]) == Replay(cid, next.store, []);
        case Begin(b) =>
          RunsLinearize(cid, next, open[b := []], rest);
        case Pending(b, op) =>
          if b in open {
            StepTracks(cid, w, open, b, op);
            RunsLinearize(cid, next, open[b := open[b] + [op]], rest);
          } else {
            RunsLinearize(cid, next, open, rest);
          }
        case Commit(b) =>
          if b in open {
            BatchRefinesReplay(cid, w.store, open[b]);
            RunsLinearize(cid, next, open - {b}, rest);
            ReplayAppend(cid, w.store, open[b], Linear(open - {b}, rest));
          } else {
            RunsLinearize(cid, next, open, rest);
          }
        case Rollback(b) =>
          RunsLinearize(cid, next, open - {b}, rest);
      }
    }
  }

  // Every node is stored under its own identifier.
  predicate Keyed<Node>(cid: Cid<Node>, m: Nodes<Node>) {
    forall id | id in m :: cid(m[id]) == Some(id)
  }

  lemma {:induction false} ReplayKeepsKeyed<Node>(cid: Cid<Node>, m: Nodes<Node>, ops: seq<Op<Node>>)
    requires Keyed(cid, m)
    ensures Keyed(cid, Replay(cid, m, ops))
    decreases ops
  {
    if ops != [] {
      ReplayKeepsKeyed(cid, Apply(cid, m, ops[0]), ops[1..]);
    }
  }

  lemma NodesStayKeyed<Node>(cid: Cid<Node>, events: seq<Event<Node>>)
    ensures Keyed(cid, Run(cid, World(map[], map[]), events).store)
  {
    RunsLinearize(cid, World(map[], map[]), map[], events);
    ReplayKeepsKeyed(cid, map[], Linear(map[], events));
  }
}
