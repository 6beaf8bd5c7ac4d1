// Counting and weighing finite sets: what quorum intersection rests on.
module FiniteSums {

  ghost function Weight<K>(s: set<K>, w: map<K, nat>): nat
    requires s <= w.Keys
  {
    if s == {} then 0
    else
      var k :| k in s;
      w[k] + Weight(s - {k}, w)
  }

  lemma {:induction false} WeightWithout<K>(s: set<K>, w: map<K, nat>, k: K)
    requires s <= w.Keys && k in s
    ensures Weight(s, w) == w[k] + Weight(s - {k}, w)
  {
    var j :| j in s && Weight(s, w) == w[j] + Weight(s - {j}, w);
    if j != k {
      WeightWithout(s - {j}, w, k);
      WeightWithout(s - {k}, w, j);
      assert s - {j} - {k} == s - {k} - {j};
    }
  }

  lemma {:induction false} WeightUnion<K>(a: set<K>, b: set<K>, w: map<K, nat>)
    requires a + b <= w.Keys && a !! b
    ensures Weight(a + b, w) == Weight(a, w) + Weight(b, w)
    decreases a
  {
    if a == {} {
      assert a + b == b;
    } else {
      var k :| k in a;
      WeightWithout(a, w, k);
      WeightWithout(a + b, w, k);
      assert a + b - {k} == (a - {k}) + b;
      WeightUnion(a - {k}, b, w);
    }
  }

  lemma WeightOfSubset<K>(a: set<K>, b: set<K>, w: map<K, nat>)
    requires a <= b <= w.Keys
    ensures Weight(a, w) <= Weight(b, w)
  {
    WeightUnion(a, b - a, w);
    assert a + (b - a) == b;
  }

  // Two sets that together weigh more than their universe share a member.
  lemma HeavySetsMeet<K>(a: set<K>, b: set<K>, universe: set<K>, w: map<K, nat>)
    requires a <= universe && b <= universe && universe <= w.Keys
    requires Weight(a, w) + Weight(b, w) > Weight(universe, w)
    ensures a * b != {}
  {
    if a * b == {} {
      assert forall k | k in a && k in b :: k in a * b;
      WeightUnion(a, b, w);
      WeightOfSubset(a + b, universe, w);
    }
  }

  lemma LargeSetsMeet<K>(a: set<K>, b: set<K>, universe: set<K>)
    requires a <= universe && b <= universe && |a| + |b| > |universe|
    ensures a * b != {}
  {
    if a * b == {} {
      assert |a + b| == |a| + |b|;
      SubsetIsSmaller(a + b, universe);
    }
  }

  lemma SubsetIsSmaller<K>(a: set<K>, b: set<K>)
    requires a <= b
    ensures |a| <= |b|
  {
    assert b == a + (b - a);
  }

  function Members<K>(s: seq<K>): set<K> {
    set k | k in s
  }

  lemma NoMembers<K>(s: seq<K>)
    ensures Members(s) == {} <==> s == []
  {
    if s != [] {
      assert s[0] in Members(s);
    }
  }

  predicate Distinct<K(==)>(s: seq<K>) {
    forall i, j | 0 <= i < j < |s| :: s[i] != s[j]
  }

  lemma DistinctCons<K>(s: seq<K>)
    requires s != [] && Distinct(s[1..]) && forall i | 1 <= i < |s| :: s[i] != s[0]
    ensures Distinct(s)
  {
    forall i, j | 0 <= i < j < |s| ensures s[i] != s[j] {
      if i > 0 {
        assert s[i] == s[1..][i - 1] && s[j] == s[1..][j - 1];
      }
    }
  }

  lemma {:induction false} MembersOfDistinct<K>(s: seq<K>)
    ensures |Members(s)| <= |s|
    ensures |Members(s)| == |s| <==> Distinct(s)
    decreases s
  {
    if s != [] {
      MembersOfDistinct(s[1..]);
      assert Members(s) == {s[0]} + Members(s[1..]);
      if s[0] in s[1..] {
        assert Members(s) == Members(s[1..]);
        var j :| 0 <= j < |s[1..]| && s[1..][j] == s[0];
        assert s[j + 1] == s[0];
      }
      assert Distinct(s) <==> s[0] !in s[1..] && Distinct(s[1..]) by {
        if s[0] !in s[1..] && Distinct(s[1..]) {
          forall i, j | 0 <= i < j < |s| ensures s[i] != s[j] {
            assert s[j] == s[1..][j - 1];
            if i > 0 {
              assert s[i] == s[1..][i - 1];
            }
          }
        }
      }
    }
  }

  lemma Scale(a: nat, b: nat, k: nat)
    requires a <= b
    ensures a * k <= b * k
  {
  }
}
