// Canonical JSON for signing: keys sorted at every depth, array order kept, the top-level
// proof removed.
module CanonicalJson {
  import opened Wrappers
  import opened FiniteSums

  // Objects are ordered lists of fields; well-formed ones never repeat a key.
  datatype Json =
    | Null
    | Bool(flag: bool)
    | Number(text: string)
    | Str(text: string)
    | Array(items: seq<Json>)
    | Object(fields: seq<Field>)

  datatype Field = Field(key: string, value: Json)

  function Keys(fields: seq<Field>): seq<string> {
    seq(|fields|, i requires 0 <= i < |fields| => fields[i].key)
  }

  predicate WellFormed(j: Json) {
    match j
    case Array(items) => forall i | 0 <= i < |items| :: WellFormed(items[i])
    case Object(fields) => Distinct(Keys(fields)) && forall i | 0 <= i < |fields| :: WellFormed(fields[i].value)
    case _ => true
  }

  // ----- sorted keys -----

  // Code-point order, which is also the byte order of UTF-8.
  predicate Before(a: string, b: string) {
    if b == [] then false
    else if a == [] then true
    else if a[0] == b[0] then Before(a[1..], b[1..])
    else a[0] < b[0]
  }

  lemma {:induction false} BeforeTotal(a: string, b: string)
    ensures Before(a, b) || a == b || Before(b, a)
    ensures !(Before(a, b) && Before(b, a)) && !Before(a, a)
  {
    if a != [] {
      BeforeTotal(a[1..], if b == [] then [] else b[1..]);
      if b != [] && a[0] == b[0] && a[1..] == b[1..] {
        assert a == [a[0]] + a[1..] == b;
      }
    }
  }

  // The texts agree before n, and there the first ends or has the smaller character.
  predicate SmallerAt(a: string, b: string, n: nat) {
    n <= |a| && n < |b| && a[..n] == b[..n] && (n == |a| || a[n] < b[n])
  }

  lemma {:induction false} BeforeAt(a: string, b: string, n: nat)
    requires SmallerAt(a, b, n)
    ensures Before(a, b)
    decreases n
  {
    if n > 0 {
      assert a[0] == a[..n][0] == b[..n][0] == b[0];
      assert a[1..][..n - 1] == a[..n][1..] == b[..n][1..] == b[1..][..n - 1];
      BeforeAt(a[1..], b[1..], n - 1);
    }
  }

  // Ascending dictionary order.
  lemma {:induction false} BeforeExact(a: string, b: string)
    ensures Before(a, b) <==> exists n :: SmallerAt(a, b, n)
    decreases a
  {
    if Before(a, b) {
      if a != [] && a[0] == b[0] {
        BeforeExact(a[1..], b[1..]);
        var n: nat :| SmallerAt(a[1..], b[1..], n);
        assert a[..n + 1] == [a[0]] + a[1..][..n] && b[..n + 1] == [b[0]] + b[1..][..n];
        assert SmallerAt(a, b, n + 1);
      } else {
        assert SmallerAt(a, b, 0);
      }
    }
    forall n | SmallerAt(a, b, n) ensures Before(a, b) {
      BeforeAt(a, b, n);
    }
  }

  lemma {:induction false} BeforeTransitive(a: string, b: string, c: string)
    requires Before(a, b) && Before(b, c)
    ensures Before(a, c)
  {
    if a != [] && a[0] == b[0] == c[0] {
      BeforeTransitive(a[1..], b[1..], c[1..]);
    }
  }

  function InsertKey(k: string, sorted: seq<string>): seq<string> {
    if sorted == [] || !Before(sorted[0], k) then [k] + sorted
    else [sorted[0]] + InsertKey(k, sorted[1..])
  }

  function SortKeys(keys: seq<string>): seq<string> {
    if keys == [] then [] else InsertKey(keys[0], SortKeys(keys[1..]))
  }

  predicate StrictlySorted(s: seq<string>) {
    forall i, j | 0 <= i < j < |s| :: Before(s[i], s[j])
  }

  lemma {:induction false} InsertKeySorts(k: string, sorted: seq<string>)
    requires StrictlySorted(sorted) && k !in sorted
    ensures StrictlySorted(InsertKey(k, sorted))
    ensures Members(InsertKey(k, sorted)) == {k} + Members(sorted)
    decreases sorted
  {
    var r := InsertKey(k, sorted);
    if sorted == [] {
    } else if Before(sorted[0], k) {
      InsertKeySorts(k, sorted[1..]);
      assert Members(sorted) == {sorted[0]} + Members(sorted[1..]);
      assert Members(r) == {sorted[0]} + Members(r[1..]);
      forall j | 1 <= j < |r| ensures Before(r[0], r[j]) {
        assert r[j] in Members(r[1..]);
      }
      SortedFromTail(r);
    } else {
      BeforeTotal(sorted[0], k);
      forall j | 1 <= j < |r| ensures Before(r[0], r[j]) {
        if j > 1 {
          BeforeTransitive(k, sorted[0], sorted[j - 1]);
        }
      }
      assert r[1..] == sorted;
      SortedFromTail(r);
    }
  }

  lemma SortedFromTail(s: seq<string>)
    requires s != [] && StrictlySorted(s[1..])
    requires forall j | 1 <= j < |s| :: Before(s[0], s[j])
    ensures StrictlySorted(s)
  {
    forall i, j | 0 <= i < j < |s| ensures Before(s[i], s[j]) {
      if i > 0 {
        assert s[i] == s[1..][i - 1] && s[j] == s[1..][j - 1];
      }
    }
  }

  lemma {:induction false} SortKeysSorts(keys: seq<string>)
    requires Distinct(keys)
    ensures StrictlySorted(SortKeys(keys)) && Members(SortKeys(keys)) == Members(keys)
    decreases keys
  {
    if keys != [] {
      SortKeysSorts(keys[1..]);
      assert keys[0] !in keys[1..];
      assert Members(keys) == {keys[0]} + Members(keys[1..]);
      assert keys[0] !in Members(SortKeys(keys[1..]));
      InsertKeySorts(keys[0], SortKeys(keys[1..]));
    }
  }

  lemma SortedIsDistinct(s: seq<string>)
    requires StrictlySorted(s)
    ensures Distinct(s)
  {
    forall i, j | 0 <= i < j < |s| ensures s[i] != s[j] {
      BeforeTotal(s[i], s[j]);
    }
  }

  // A set of keys has one sorted listing.
  lemma {:induction false} SortedUnique(a: seq<string>, b: seq<string>)
    requires StrictlySorted(a) && StrictlySorted(b) && Members(a) == Members(b)
    ensures a == b
    decreases a
  {
    SortedIsDistinct(a);
    SortedIsDistinct(b);
    MembersOfDistinct(a);
    MembersOfDistinct(b);
    if a != [] {
      assert a[0] in Members(b);
      assert b != [] && b[0] in Members(a);
      var i :| 0 <= i < |b| && b[i] == a[0];
      var j :| 0 <= j < |a| && a[j] == b[0];
      assert i == 0 && j == 0 by {
        BeforeTotal(a[0], b[0]);
      }
      MembersOfTail(a);
      MembersOfTail(b);
      SortedUnique(a[1..], b[1..]);
    }
  }

  lemma MembersOfTail(s: seq<string>)
    requires s != [] && StrictlySorted(s)
    ensures Members(s[1..]) == Members(s) - {s[0]}
    ensures StrictlySorted(s[1..])
  {
    SortedIsDistinct(s);
    assert Members(s) == {s[0]} + Members(s[1..]);
  }

  // ----- the canonical form -----

  function IndexOf(fields: seq<Field>, k: string): (i: nat)
    requires k in Keys(fields)
    ensures i < |fields| && fields[i].key == k
  {
    if fields[0].key == k then 0
    else
      assert Keys(fields)[1..] == Keys(fields[1..]);
      1 + IndexOf(fields[1..], k)
  }

  function Canon(j: Json): Json
    decreases j, 0
  {
    match j
    case Array(items) => Array(CanonItems(items))
    case Object(fields) => Object(CanonFields(fields, SortKeys(Keys(fields))))
    case _ => j
  }

  function CanonItems(items: seq<Json>): seq<Json>
    decreases items, 1
  {
    if items == [] then [] else [Canon(items[0])] + CanonItems(items[1..])
  }

  lemma {:induction false} CanonItemsAt(items: seq<Json>)
    ensures |CanonItems(items)| == |items|
    ensures forall i | 0 <= i < |items| :: CanonItems(items)[i] == Canon(items[i])
    decreases items
  {
    if items != [] {
      CanonItemsAt(items[1..]);
    }
  }

  // The canonical values of these keys, in this order; keys without a field are dropped.
  function CanonFields(fields: seq<Field>, keys: seq<string>): seq<Field>
    decreases fields, 1, keys
  {
    if keys == [] then []
    else if keys[0] in Keys(fields) then
      [Field(keys[0], Canon(fields[IndexOf(fields, keys[0])].value))] + CanonFields(fields, keys[1..])
    else CanonFields(fields, keys[1..])
  }

  lemma {:induction false} CanonFieldsAt(fields: seq<Field>, keys: seq<string>)
    requires forall k | k in keys :: k in Keys(fields)
    ensures Keys(CanonFields(fields, keys)) == keys
    ensures |CanonFields(fields, keys)| == |keys|
    ensures forall i | 0 <= i < |keys| ::
              CanonFields(fields, keys)[i] == Field(keys[i], Canon(fields[IndexOf(fields, keys[i])].value))
    decreases keys
  {
    if keys != [] {
      assert keys[0] in keys;
      CanonFieldsAt(fields, keys[1..]);
    }
  }

  // The keys of a canonical object are its keys, sorted; each keeps its canonical value.
  lemma CanonObject(fields: seq<Field>)
    requires Distinct(Keys(fields))
    ensures var sorted := Canon(Object(fields)).fields;
            && StrictlySorted(Keys(sorted))
            && Members(Keys(sorted)) == Members(Keys(fields))
            && |sorted| == |fields|
            && forall i | 0 <= i < |sorted| ::
                 sorted[i].key in Keys(fields) && sorted[i].value == Canon(fields[IndexOf(fields, sorted[i].key)].value)
  {
    var keys := SortKeys(Keys(fields));
    SortedListing(Keys(fields));
    CanonFieldsAt(fields, keys);
    assert Keys(CanonFields(fields, keys)) == keys;
  }

  lemma SortedListing(keys: seq<string>)
    requires Distinct(keys)
    ensures StrictlySorted(SortKeys(keys)) && Members(SortKeys(keys)) == Members(keys) && |SortKeys(keys)| == |keys|
    ensures forall k | k in SortKeys(keys) :: k in keys
  {
    SortKeysSorts(keys);
    SortedIsDistinct(SortKeys(keys));
    MembersOfDistinct(SortKeys(keys));
    MembersOfDistinct(keys);
    assert forall k | k in SortKeys(keys) :: k in Members(keys);
  }

  // ----- the sorting methods -----

  method SortJsonObject(fields: seq<Field>) returns (r: Json)
    ensures r == Canon(Object(fields))
    decreases fields, 2
  {
    var sorted: seq<Field> := [];
    var keys := SortKeys(Keys(fields));
    var i := 0;
    while i < |keys|
      invariant i <= |keys|
      invariant sorted + CanonFields(fields, keys[i..]) == CanonFields(fields, keys)
    {
      assert keys[i..][1..] == keys[i + 1..];
      if keys[i] in Keys(fields) {
        var sortedValue := SortJsonValue(fields[IndexOf(fields, keys[i])].value);
        sorted := sorted + [Field(keys[i], sortedValue)];
      }
      i := i + 1;
    }
    r := Object(sorted);
  }

  method SortJsonValue(value: Json) returns (r: Json)
    ensures r == Canon(value)
    decreases value, 3
  {
    match value {
      case Object(fields) => r := SortJsonObject(fields);
      case Array(items) => r := SortJsonArray(items);
      case _ => r := value;
    }
  }

  method SortJsonArray(items: seq<Json>) returns (r: Json)
    ensures r == Canon(Array(items))
    decreases items, 2
  {
    var result: seq<Json> := [];
    var i := 0;
    while i < |items|
      invariant i <= |items|
      invariant result + CanonItems(items[i..]) == CanonItems(items)
    {
      assert items[i..][1..] == items[i + 1..];
      var sortedValue := SortJsonValue(items[i]);
      result := result + [sortedValue];
      i := i + 1;
    }
    r := Array(result);
  }

  // ----- equal up to key order, at every depth -----

  predicate Same(a: Json, b: Json)
    decreases a
  {
    match (a, b)
    case (Array(x), Array(y)) => |x| == |y| && forall i | 0 <= i < |x| :: Same(x[i], y[i])
    case (Object(x), Object(y)) =>
      |x| == |y|
      && forall i | 0 <= i < |x| :: x[i].key in Keys(y) && Same(x[i].value, y[IndexOf(y, x[i].key)].value)
    case _ => a == b
  }

  lemma IndexOfOwn(fields: seq<Field>, i: nat)
    requires Distinct(Keys(fields)) && i < |fields|
    ensures fields[i].key in Keys(fields) && IndexOf(fields, fields[i].key) == i
  {
    assert Keys(fields)[i] == fields[i].key;
    var j := IndexOf(fields, fields[i].key);
    assert Keys(fields)[j] == fields[j].key;
  }

  lemma SameKeys(x: seq<Field>, y: seq<Field>)
    requires Distinct(Keys(x)) && |x| == |y|
    requires forall i | 0 <= i < |x| :: x[i].key in Keys(y)
    ensures Members(Keys(x)) == Members(Keys(y))
  {
    MembersOfDistinct(Keys(x));
    MembersOfDistinct(Keys(y));
    forall k | k in Members(Keys(x)) ensures k in Members(Keys(y)) {
      var i :| 0 <= i < |Keys(x)| && Keys(x)[i] == k;
      assert x[i].key == k;
    }
    SubsetOfSameSize(Members(Keys(x)), Members(Keys(y)));
  }

  lemma SubsetOfSameSize(a: set<string>, b: set<string>)
    requires a <= b && |a| >= |b|
    ensures a == b
  {
    assert |b - a| == |b| - |a|;
  }

  // Canonicalization sends two values to the same result exactly when they are equal up to
  // the order of keys at every depth.
  lemma {:induction false} CanonExact(a: Json, b: Json)
    requires WellFormed(a) && WellFormed(b)
    ensures Canon(a) == Canon(b) <==> Same(a, b)
    decreases a
  {
    match (a, b) {
      case (Array(x), Array(y)) =>
        CanonItemsAt(x);
        CanonItemsAt(y);
        if |x| == |y| {
          forall i | 0 <= i < |x| ensures Canon(x[i]) == Canon(y[i]) <==> Same(x[i], y[i]) {
            CanonExact(x[i], y[i]);
          }
          assert (forall i | 0 <= i < |x| :: CanonItems(x)[i] == CanonItems(y)[i]) <==> CanonItems(x) == CanonItems(y);
        }
      case (Object(x), Object(y)) =>
        forall i | 0 <= i < |x| && x[i].key in Keys(y)
          ensures var v := y[IndexOf(y, x[i].key)].value; Canon(x[i].value) == Canon(v) <==> Same(x[i].value, v)
        {
          CanonExact(x[i].value, y[IndexOf(y, x[i].key)].value);
        }
        if Same(a, b) {
          SameObjectsCanonEqual(x, y);
        }
        if Canon(a) == Canon(b) {
          CanonEqualObjects(x, y);
        }
      case _ =>
    }
  }

  lemma SameObjectsCanonEqual(x: seq<Field>, y: seq<Field>)
    requires Distinct(Keys(x)) && Distinct(Keys(y)) && |x| == |y|
    requires forall i | 0 <= i < |x| ::
               x[i].key in Keys(y) && Canon(x[i].value) == Canon(y[IndexOf(y, x[i].key)].value)
    ensures Canon(Object(x)) == Canon(Object(y))
  {
    CanonObject(x);
    CanonObject(y);
    SameKeys(x, y);
    var p, q := Canon(Object(x)).fields, Canon(Object(y)).fields;
    SortedUnique(Keys(p), Keys(q));
    forall i | 0 <= i < |p| ensures p[i] == q[i] {
      assert Keys(p)[i] == Keys(q)[i];
      var n := IndexOf(x, p[i].key);
      assert x[n].key == p[i].key;
    }
  }

  lemma CanonEqualObjects(x: seq<Field>, y: seq<Field>)
    requires Distinct(Keys(x)) && Distinct(Keys(y)) && Canon(Object(x)) == Canon(Object(y))
    ensures |x| == |y|
    ensures forall i | 0 <= i < |x| ::
              x[i].key in Keys(y) && Canon(x[i].value) == Canon(y[IndexOf(y, x[i].key)].value)
  {
    CanonObject(x);
    CanonObject(y);
    var p := Canon(Object(x)).fields;
    forall i | 0 <= i < |x|
      ensures x[i].key in Keys(y) && Canon(x[i].value) == Canon(y[IndexOf(y, x[i].key)].value)
    {
      IndexOfOwn(x, i);
      assert x[i].key in Members(Keys(p));
      var n :| 0 <= n < |Keys(p)| && Keys(p)[n] == x[i].key;
      assert p[n].key == x[i].key;
    }
  }

  // ----- idempotence and paths -----

  // A canonical value is well-formed and equal, up to key order, to what it came from.
  lemma {:induction false} CanonSame(j: Json)
    requires WellFormed(j)
    ensures WellFormed(Canon(j)) && Same(Canon(j), j)
    decreases j
  {
    match j {
      case Array(items) =>
        CanonItemsAt(items);
        forall i | 0 <= i < |items| { CanonSame(items[i]); }
      case Object(fields) =>
        CanonObject(fields);
        var sorted := Canon(j).fields;
        SortedIsDistinct(Keys(sorted));
        forall i | 0 <= i < |sorted|
          ensures WellFormed(sorted[i].value) && Same(sorted[i].value, fields[IndexOf(fields, sorted[i].key)].value)
        {
          CanonSame(fields[IndexOf(fields, sorted[i].key)].value);
        }
      case _ =>
    }
  }

  lemma CanonIdempotent(j: Json)
    requires WellFormed(j)
    ensures Canon(Canon(j)) == Canon(j)
  {
    CanonSame(j);
    CanonExact(Canon(j), j);
  }

  datatype Hop = Member(key: string) | Element(index: nat)

  function At(j: Json, path: seq<Hop>): Option<Json>
    decreases path
  {
    if path == [] then Some(j)
    else
      match (j, path[0])
      case (Object(fields), Member(k)) =>
        if k in Keys(fields) then At(fields[IndexOf(fields, k)].value, path[1..]) else None
      case (Array(items), Element(i)) => if i < |items| then At(items[i], path[1..]) else None
      case _ => None
  }

  // A path is followed member by member and element by element, and ends where one is missing.
  lemma AtExact(j: Json, hop: Hop, path: seq<Hop>)
    ensures At(j, []) == Some(j)
    ensures j.Object? && hop.Member? ==>
              At(j, [hop] + path) == if hop.key in Keys(j.fields) then At(j.fields[IndexOf(j.fields, hop.key)].value, path) else None
    ensures j.Array? && hop.Element? ==>
              At(j, [hop] + path) == if hop.index < |j.items| then At(j.items[hop.index], path) else None
    ensures !(j.Object? && hop.Member?) && !(j.Array? && hop.Element?) ==> At(j, [hop] + path) == None
  {
    assert ([hop] + path)[1..] == path;
  }

  // Every path leads to the canonical form of what it led to before, so scalars are where
  // they were and arrays keep their order.
  lemma {:induction false} PathsPreserved(j: Json, path: seq<Hop>)
    requires WellFormed(j)
    ensures At(Canon(j), path) == match At(j, path) case None => None case Some(v) => Some(Canon(v))
    decreases path
  {
    if path != [] {
      match (j, path[0]) {
        case (Object(fields), Member(k)) =>
          CanonObject(fields);
          var sorted := Canon(j).fields;
          assert k in Keys(sorted) <==> k in Members(Keys(sorted));
          assert k in Keys(fields) <==> k in Members(Keys(fields));
          if k in Keys(fields) {
            assert sorted[IndexOf(sorted, k)].value == Canon(fields[IndexOf(fields, k)].value);
            PathsPreserved(fields[IndexOf(fields, k)].value, path[1..]);
          }
        case (Array(items), Element(i)) =>
          CanonItemsAt(items);
          if i < |items| {
            PathsPreserved(items[i], path[1..]);
          }
        case _ =>
      }
    }
  }

  // ----- the bytes that get signed -----

  datatype VcError = InvalidStructure

  function Without(fields: seq<Field>, k: string): seq<Field> {
    if fields == [] then []
    else if fields[0].key == k then Without(fields[1..], k)
    else [fields[0]] + Without(fields[1..], k)
  }

  lemma {:induction false} WithoutKeeps(fields: seq<Field>, k: string)
    ensures forall f :: f in Without(fields, k) <==> f in fields && f.key != k
    ensures Distinct(Keys(fields)) ==> Distinct(Keys(Without(fields, k)))
    decreases fields
  {
    if fields != [] {
      WithoutKeeps(fields[1..], k);
      assert Keys(fields)[1..] == Keys(fields[1..]);
      assert forall f :: f in fields <==> f == fields[0] || f in fields[1..];
      var rest := Without(fields[1..], k);
      if Distinct(Keys(fields)) && fields[0].key != k {
        assert Keys(Without(fields, k))[1..] == Keys(rest);
        forall i | 0 <= i < |rest| ensures rest[i].key != fields[0].key {
          assert rest[i] in fields[1..];
          var n :| 0 <= n < |fields[1..]| && fields[1..][n] == rest[i];
          assert Keys(fields)[n + 1] == rest[i].key && Keys(fields)[0] == fields[0].key;
        }
        DistinctCons(Keys(Without(fields, k)));
      }
    }
  }

  function SignedBytes(render: Json -> seq<bv8>, fields: seq<Field>): seq<bv8> {
    render(Canon(Object(Without(fields, "proof"))))
  }

  // `render` is the compact JSON text of a value.
  method CanonicalBytes(render: Json -> seq<bv8>, credential: Json) returns (r: Result<seq<bv8>, VcError>)
    ensures r == if credential.Object? then Success(SignedBytes(render, credential.fields)) else Failure(InvalidStructure)
  {
    if !credential.Object? {
      return Failure(InvalidStructure);
    }
    var sorted := SortJsonObject(Without(credential.fields, "proof"));
    r := Success(render(sorted));
  }

  // Both have the key, with values equal up to key order, or neither has it.
  predicate AgreeAt(x: seq<Field>, y: seq<Field>, k: string) {
    && (k in Keys(x) <==> k in Keys(y))
    && (k in Keys(x) ==> Same(x[IndexOf(x, k)].value, y[IndexOf(y, k)].value))
  }

  lemma SameByKey(x: seq<Field>, y: seq<Field>)
    requires Distinct(Keys(x)) && Distinct(Keys(y))
    ensures Same(Object(x), Object(y)) <==> forall k :: AgreeAt(x, y, k)
  {
    MembersOfDistinct(Keys(x));
    MembersOfDistinct(Keys(y));
    assert forall k :: k in Keys(x) <==> k in Members(Keys(x));
    assert forall k :: k in Keys(y) <==> k in Members(Keys(y));
    if Same(Object(x), Object(y)) {
      SameKeys(x, y);
      forall k ensures AgreeAt(x, y, k) {
        if k in Keys(x) {
          assert x[IndexOf(x, k)].key == k;
        }
      }
    }
    if forall k :: AgreeAt(x, y, k) {
      assert forall k :: AgreeAt(x, y, k) ==> (k in Members(Keys(x)) <==> k in Members(Keys(y)));
      assert Members(Keys(x)) == Members(Keys(y));
      forall i | 0 <= i < |x| ensures x[i].key in Keys(y) && Same(x[i].value, y[IndexOf(y, x[i].key)].value) {
        IndexOfOwn(x, i);
        assert AgreeAt(x, y, x[i].key);
      }
    }
  }

  // Other keys look up the same value with and without the removed one.
  lemma WithoutLooksUp(fields: seq<Field>, removed: string, k: string)
    requires Distinct(Keys(fields))
    ensures k in Keys(Without(fields, removed)) <==> k in Keys(fields) && k != removed
    ensures k in Keys(Without(fields, removed)) ==>
              Without(fields, removed)[IndexOf(Without(fields, removed), k)] == fields[IndexOf(fields, k)]
  {
    var rest := Without(fields, removed);
    WithoutKeeps(fields, removed);
    if k in Keys(rest) {
      var f := rest[IndexOf(rest, k)];
      assert f in rest && f in fields;
      var i :| 0 <= i < |fields| && fields[i] == f;
      IndexOfOwn(fields, i);
    }
    if k in Keys(fields) && k != removed {
      var f := fields[IndexOf(fields, k)];
      assert f in fields && f in rest;
      var i :| 0 <= i < |rest| && rest[i] == f;
      assert Keys(rest)[i] == k;
    }
  }

  // Two credentials sign the same bytes exactly when they agree at every key but the proof.
  lemma {:induction false} SignedBytesExact(render: Json -> seq<bv8>, a: seq<Field>, b: seq<Field>)
    requires forall x, y :: render(x) == render(y) ==> x == y
    requires WellFormed(Object(a)) && WellFormed(Object(b))
    ensures SignedBytes(render, a) == SignedBytes(render, b) <==> forall k | k != "proof" :: AgreeAt(a, b, k)
  {
    var x, y := Without(a, "proof"), Without(b, "proof");
    WithoutWellFormed(a);
    WithoutWellFormed(b);
    CanonExact(Object(x), Object(y));
    SameByKey(x, y);
    forall k ensures AgreeAt(x, y, k) <==> k == "proof" || AgreeAt(a, b, k) {
      WithoutLooksUp(a, "proof", k);
      WithoutLooksUp(b, "proof", k);
    }
  }

  lemma WithoutWellFormed(fields: seq<Field>)
    requires WellFormed(Object(fields))
    ensures WellFormed(Object(Without(fields, "proof")))
  {
    WithoutKeeps(fields, "proof");
    var rest := Without(fields, "proof");
    forall i | 0 <= i < |rest| ensures WellFormed(rest[i].value) {
      assert rest[i] in fields;
      var n :| 0 <= n < |fields| && fields[n] == rest[i];
    }
  }
}
