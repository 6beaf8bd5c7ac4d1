// Signature quorums: a proof carries signatures, and verification counts or weighs those
// that are valid under the allowed keys. Weights are 16 bits wide, so every addition and
// doubling may overflow; an overflow is an outcome of its own here.
module QuorumProofs {
  import opened Wrappers
  import opened FiniteSums

  type Did = string
  type VerifyingKey = string
  type Message = string
  type Signature = string

  const U16_MAX: nat := 0xFFFF

  type u16 = x: nat | x <= 0xFFFF

  datatype QuorumType = Majority | Threshold(min: nat) | Weighted(weights: map<Did, u16>)

  datatype QuorumError =
    | InsufficientSigners
    | DuplicateSigner
    | ThresholdTooHigh(threshold: nat, available: nat)
    | SignerNotInWeightMap(did: Did)

  datatype Verdict = Accepted | Rejected(error: QuorumError) | Overflow

  // Ed25519 verification, left uninterpreted.
  type SignatureCheck = (VerifyingKey, Message, Signature) -> bool

  // What a verification is about.
  datatype Ballot = Ballot(signatures: seq<(Did, Signature)>, message: Message, allowed: map<Did, VerifyingKey>)

  function Signers(signatures: seq<(Did, Signature)>): seq<Did> {
    seq(|signatures|, i requires 0 <= i < |signatures| => signatures[i].0)
  }

  predicate IsValid(check: SignatureCheck, b: Ballot, s: (Did, Signature)) {
    s.0 in b.allowed && check(b.allowed[s.0], b.message, s.1)
  }

  // The signers whose signatures are valid, in order.
  function ValidSigners(check: SignatureCheck, b: Ballot): seq<Did>
    decreases b.signatures
  {
    if b.signatures == [] then []
    else
      var rest := ValidSigners(check, b.(signatures := b.signatures[1..]));
      if IsValid(check, b, b.signatures[0]) then [b.signatures[0].0] + rest else rest
  }

  // Weighing the remaining signers on top of `weight`.
  function Weigh(weights: map<Did, u16>, total: u16, signers: seq<Did>, weight: u16): Verdict
    decreases signers
  {
    if signers == [] then
      if weight * 2 > U16_MAX then Overflow
      else if weight * 2 > total then Accepted
      else Rejected(InsufficientSigners)
    else if signers[0] !in weights then Rejected(SignerNotInWeightMap(signers[0]))
    else if weight + weights[signers[0]] > U16_MAX then Overflow
    else Weigh(weights, total, signers[1..], weight + weights[signers[0]])
  }

  ghost function VerdictOf(check: SignatureCheck, kind: QuorumType, b: Ballot): Verdict {
    if !Distinct(Signers(b.signatures)) then Rejected(DuplicateSigner)
    else
      var valid := ValidSigners(check, b);
      match kind
      case Majority => if |valid| * 2 > |b.allowed| then Accepted else Rejected(InsufficientSigners)
      case Threshold(min) =>
        if min > |b.allowed| then Rejected(ThresholdTooHigh(min, |b.allowed|))
        else if |valid| >= min then Accepted
        else Rejected(InsufficientSigners)
      case Weighted(weights) =>
        var total := Weight(weights.Keys, weights);
        if total > U16_MAX then Overflow else Weigh(weights, total, valid, 0)
  }

  // ----- the proof object -----

  class QuorumProof {
    const quorumType: QuorumType
    var signatures: seq<(Did, Signature)>

    constructor (quorumType: QuorumType, signatures: seq<(Did, Signature)>)
      ensures this.quorumType == quorumType && this.signatures == signatures
    {
      this.quorumType := quorumType;
      this.signatures := signatures;
    }

    method AddSignature(did: Did, signature: Signature) returns (r: Result<Unit, QuorumError>)
      modifies this`signatures
      ensures r == if did in Signers(old(signatures)) then Failure(DuplicateSigner) else Success(Unit)
      ensures signatures == if r.Success? then old(signatures) + [(did, signature)] else old(signatures)
      ensures Distinct(Signers(old(signatures))) ==> Distinct(Signers(signatures))
    {
      var i := 0;
      while i < |signatures|
        invariant i <= |signatures|
        invariant forall j | 0 <= j < i :: signatures[j].0 != did
      {
        if signatures[i].0 == did {
          assert Signers(signatures)[i] == did;
          return Failure(DuplicateSigner);
        }
        i := i + 1;
      }
      signatures := signatures + [(did, signature)];
      assert Signers(signatures) == Signers(old(signatures)) + [did];
      r := Success(Unit);
    }

    method Verify(check: SignatureCheck, message: Message, allowed: map<Did, VerifyingKey>) returns (r: Verdict)
      ensures r == VerdictOf(check, quorumType, Ballot(signatures, message, allowed))
    {
      ghost var ballot := Ballot(signatures, message, allowed);
      var seen: set<Did> := {};
      var i := 0;
      while i < |signatures|
        invariant i <= |signatures|
        invariant seen == Members(Signers(signatures)[..i])
        invariant Distinct(Signers(signatures)[..i])
      {
        var did := signatures[i].0;
        assert Signers(signatures)[..i + 1] == Signers(signatures)[..i] + [did];
        if did in seen {
          assert exists j | 0 <= j < i :: Signers(signatures)[j] == did == Signers(signatures)[i];
          return Rejected(DuplicateSigner);
        }
        seen := seen + {did};
        i := i + 1;
      }
      assert Signers(signatures)[..i] == Signers(signatures);

      var valid := CollectValid(check, message, allowed);
      match quorumType {
        case Majority =>
          return if |valid| * 2 > |allowed| then Accepted else Rejected(InsufficientSigners);
        case Threshold(min) =>
          if min > |allowed| {
            return Rejected(ThresholdTooHigh(min, |allowed|));
          }
          return if |valid| >= min then Accepted else Rejected(InsufficientSigners);
        case Weighted(weights) =>
          var overflow, total := SumValues(weights);
          if overflow {
            return Overflow;
          }
          r := WeighSigners(weights, total, valid);
      }
    }

    method CollectValid(check: SignatureCheck, message: Message, allowed: map<Did, VerifyingKey>) returns (valid: seq<Did>)
      ensures valid == ValidSigners(check, Ballot(signatures, message, allowed))
    {
      valid := [];
      var i := 0;
      while i < |signatures|
        invariant i <= |signatures|
        invariant valid + ValidSigners(check, Ballot(signatures[i..], message, allowed))
               == ValidSigners(check, Ballot(signatures, message, allowed))
      {
        var (did, sig) := signatures[i];
        assert signatures[i..][1..] == signatures[i + 1..];
        if did in allowed && check(allowed[did], message, sig) {
          valid := valid + [did];
        }
        i := i + 1;
      }
    }
  }

  // The sum of all weights, in whatever order the map yields them.
  method SumValues(weights: map<Did, u16>) returns (overflow: bool, total: u16)
    ensures overflow <==> Weight(weights.Keys, weights) > U16_MAX
    ensures !overflow ==> total == Weight(weights.Keys, weights)
  {
    var left := weights.Keys;
    total := 0;
    while left != {}
      invariant left <= weights.Keys
      invariant total + Weight(left, weights) == Weight(weights.Keys, weights)
      decreases left
    {
      var k :| k in left;
      WeightWithout(left, weights, k);
      if total + weights[k] > U16_MAX {
        return true, 0;
      }
      total := total + weights[k];
      left := left - {k};
    }
    overflow := false;
  }

  method WeighSigners(weights: map<Did, u16>, total: u16, signers: seq<Did>) returns (r: Verdict)
    ensures r == Weigh(weights, total, signers, 0)
  {
    var weight: u16 := 0;
    var i := 0;
    while i < |signers|
      invariant i <= |signers|
      invariant Weigh(weights, total, signers[i..], weight) == Weigh(weights, total, signers, 0)
    {
      assert signers[i..][1..] == signers[i + 1..];
      if signers[i] !in weights {
        return Rejected(SignerNotInWeightMap(signers[i]));
      }
      if weight + weights[signers[i]] > U16_MAX {
        return Overflow;
      }
      weight := weight + weights[signers[i]];
      i := i + 1;
    }
    if weight * 2 > U16_MAX {
      return Overflow;
    }
    r := if weight * 2 > total then Accepted else Rejected(InsufficientSigners);
  }

  // ----- valid signers are distinct allowed signers -----

  lemma {:induction false} ValidAreSigners(check: SignatureCheck, b: Ballot)
    ensures forall d | d in ValidSigners(check, b) :: d in b.allowed && d in Signers(b.signatures)
    ensures Distinct(Signers(b.signatures)) ==> Distinct(ValidSigners(check, b))
    decreases b.signatures
  {
    if b.signatures != [] {
      var rest := b.(signatures := b.signatures[1..]);
      ValidAreSigners(check, rest);
      assert Signers(b.signatures)[1..] == Signers(rest.signatures);
      assert forall d | d in Signers(rest.signatures) :: d in Signers(b.signatures)[1..];
      assert Signers(b.signatures)[0] == b.signatures[0].0;
      if Distinct(Signers(b.signatures)) {
        assert b.signatures[0].0 !in Signers(b.signatures)[1..];
      }
    }
  }

  // ----- signatures are what counts -----

  // The signers with a verified signature under the allowed keys.
  ghost function Verified(check: SignatureCheck, b: Ballot): set<Did> {
    set s | s in b.signatures && s.0 in b.allowed && check(b.allowed[s.0], b.message, s.1) :: s.0
  }

  lemma {:induction false} ValidAreVerified(check: SignatureCheck, b: Ballot)
    ensures Members(ValidSigners(check, b)) == Verified(check, b)
    decreases b.signatures
  {
    if b.signatures != [] {
      var rest := b.(signatures := b.signatures[1..]);
      ValidAreVerified(check, rest);
      assert forall s :: s in b.signatures <==> s == b.signatures[0] || s in b.signatures[1..];
      var first := b.signatures[0];
      if first.0 in b.allowed && check(b.allowed[first.0], b.message, first.1) {
        assert ValidSigners(check, b) == [first.0] + ValidSigners(check, rest);
        assert Verified(check, b) == {first.0} + Verified(check, rest);
      } else {
        assert Verified(check, b) == Verified(check, rest);
      }
    }
  }

  // Exactly when the counting rules accept, and with which error they refuse: repeated
  // signers first, then an unreachable threshold, then too few verified signers.
  lemma CountingVerdictExact(check: SignatureCheck, min: nat, b: Ballot)
    ensures VerdictOf(check, Majority, b)
         == if !Distinct(Signers(b.signatures)) then Rejected(DuplicateSigner)
            else if 2 * |Verified(check, b)| > |b.allowed| then Accepted else Rejected(InsufficientSigners)
    ensures VerdictOf(check, Threshold(min), b)
         == if !Distinct(Signers(b.signatures)) then Rejected(DuplicateSigner)
            else if min > |b.allowed| then Rejected(ThresholdTooHigh(min, |b.allowed|))
            else if |Verified(check, b)| >= min then Accepted else Rejected(InsufficientSigners)
  {
    ValidAreSigners(check, b);
    ValidAreVerified(check, b);
    MembersOfDistinct(ValidSigners(check, b));
  }

  // A signature that does not verify counts for nothing: without it the verdict is the same,
  // whatever the rule.
  lemma UnverifiedIsIgnored(check: SignatureCheck, kind: QuorumType, b: Ballot, i: nat)
    requires Distinct(Signers(b.signatures)) && i < |b.signatures|
    requires var s := b.signatures[i]; s.0 in b.allowed ==> !check(b.allowed[s.0], b.message, s.1)
    ensures var without := b.(signatures := b.signatures[..i] + b.signatures[i + 1..]);
            VerdictOf(check, kind, without) == VerdictOf(check, kind, b)
  {
    var without := b.(signatures := b.signatures[..i] + b.signatures[i + 1..]);
    ValidWithout(check, b, i);
    assert Distinct(Signers(without.signatures)) by {
      forall j, k | 0 <= j < k < |without.signatures| ensures Signers(without.signatures)[j] != Signers(without.signatures)[k] {
        var j', k' := if j < i then j else j + 1, if k < i then k else k + 1;
        assert Signers(b.signatures)[j'] != Signers(b.signatures)[k'];
      }
    }
  }

  lemma {:induction false} ValidWithout(check: SignatureCheck, b: Ballot, i: nat)
    requires i < |b.signatures|
    requires var s := b.signatures[i]; s.0 in b.allowed ==> !check(b.allowed[s.0], b.message, s.1)
    ensures ValidSigners(check, b.(signatures := b.signatures[..i] + b.signatures[i + 1..])) == ValidSigners(check, b)
    decreases i
  {
    var fewer := b.signatures[..i] + b.signatures[i + 1..];
    var rest := b.(signatures := b.signatures[1..]);
    if i == 0 {
      assert fewer == b.signatures[1..];
    } else {
      ValidWithout(check, rest, i - 1);
      assert fewer[0] == b.signatures[0];
      assert fewer[1..] == rest.signatures[..i - 1] + rest.signatures[i..];
    }
  }

  // Without any verified signature nothing is accepted but a threshold of zero.
  lemma NothingFromNothing(check: SignatureCheck, kind: QuorumType, b: Ballot)
    requires Verified(check, b) == {}
    ensures VerdictOf(check, kind, b) == Accepted <==> kind == Threshold(0) && Distinct(Signers(b.signatures))
  {
    ValidAreVerified(check, b);
    NoMembers(ValidSigners(check, b));
  }

  // ----- intersection -----

  // Accepted by count: any two proofs whose counts exceed half the allowed signers share a
  // signer valid in both, whatever messages they sign.
  lemma CountedQuorumsMeet(check: SignatureCheck, a: Ballot, b: Ballot)
    requires a.allowed == b.allowed
    requires Distinct(Signers(a.signatures)) && Distinct(Signers(b.signatures))
    requires |ValidSigners(check, a)| + |ValidSigners(check, b)| > |a.allowed|
    ensures exists d :: d in ValidSigners(check, a) && d in ValidSigners(check, b)
  {
    var x, y := ValidSigners(check, a), ValidSigners(check, b);
    ValidAreSigners(check, a);
    ValidAreSigners(check, b);
    MembersOfDistinct(x);
    MembersOfDistinct(y);
    LargeSetsMeet(Members(x), Members(y), a.allowed.Keys);
    var d :| d in Members(x) * Members(y);
  }

  lemma MajorityQuorumsMeet(check: SignatureCheck, a: Ballot, b: Ballot)
    requires a.allowed == b.allowed
    requires VerdictOf(check, Majority, a) == Accepted && VerdictOf(check, Majority, b) == Accepted
    ensures exists d :: d in ValidSigners(check, a) && d in ValidSigners(check, b)
  {
    CountedQuorumsMeet(check, a, b);
  }

  lemma ThresholdQuorumsMeet(check: SignatureCheck, min: nat, a: Ballot, b: Ballot)
    requires a.allowed == b.allowed && 2 * min > |a.allowed|
    requires VerdictOf(check, Threshold(min), a) == Accepted && VerdictOf(check, Threshold(min), b) == Accepted
    ensures exists d :: d in ValidSigners(check, a) && d in ValidSigners(check, b)
  {
    CountedQuorumsMeet(check, a, b);
  }

  // ----- weighted quorums -----

  function FirstUnweighed(weights: map<Did, u16>, signers: seq<Did>): Option<Did> {
    if signers == [] then None
    else if signers[0] !in weights then Some(signers[0])
    else FirstUnweighed(weights, signers[1..])
  }

  // For distinct signers, weighing is exact: it fails on the first unknown signer, overflows
  // exactly when the doubled weight does not fit, and otherwise compares with the total.
  lemma {:induction false} WeighExact(weights: map<Did, u16>, total: u16, signers: seq<Did>, weighed: set<Did>, weight: u16)
    requires Distinct(signers) && weighed <= weights.Keys && weighed !! Members(signers)
    requires weight == Weight(weighed, weights)
    requires Weight(weights.Keys, weights) <= U16_MAX
    ensures var all := weighed + Members(signers);
            if !(all <= weights.Keys) then
              && FirstUnweighed(weights, signers).Some?
              && Weigh(weights, total, signers, weight) == Rejected(SignerNotInWeightMap(FirstUnweighed(weights, signers).value))
            else
              Weigh(weights, total, signers, weight)
              == if 2 * Weight(all, weights) > U16_MAX then Overflow
                 else if 2 * Weight(all, weights) > total then Accepted
                 else Rejected(InsufficientSigners)
    decreases signers
  {
    if signers == [] {
      assert weighed + Members(signers) == weighed;
    } else if signers[0] in weights {
      var did, next := signers[0], weighed + {signers[0]};
      assert Members(signers) == {did} + Members(signers[1..]);
      assert did !in signers[1..];
      WeightWithout(next, weights, did);
      assert next - {did} == weighed;
      WeightOfSubset(next, weights.Keys, weights);
      assert next + Members(signers[1..]) == weighed + Members(signers);
      WeighExact(weights, total, signers[1..], next, weight + weights[did]);
    } else {
      assert signers[0] in Members(signers);
    }
  }

  // The duplicate check bounds the valid weight by the total, so an overflow happens exactly
  // when the total, or twice the weight of the valid signers, needs more than 16 bits.
  lemma {:induction false} WeightedExact(check: SignatureCheck, weights: map<Did, u16>, b: Ballot)
    ensures var valid := Members(ValidSigners(check, b));
            var total := Weight(weights.Keys, weights);
            var r := VerdictOf(check, Weighted(weights), b);
            && (r == Overflow <==>
                  Distinct(Signers(b.signatures))
                  && (total > U16_MAX || (valid <= weights.Keys && 2 * Weight(valid, weights) > U16_MAX)))
            && (r == Accepted <==>
                  && Distinct(Signers(b.signatures)) && total <= U16_MAX && valid <= weights.Keys
                  && total < 2 * Weight(valid, weights) <= U16_MAX)
            && (r == Rejected(InsufficientSigners) <==>
                  && Distinct(Signers(b.signatures)) && total <= U16_MAX && valid <= weights.Keys
                  && 2 * Weight(valid, weights) <= total)
            && (r == Rejected(DuplicateSigner) <==> !Distinct(Signers(b.signatures)))
            && (Distinct(Signers(b.signatures)) && total <= U16_MAX && !(valid <= weights.Keys) ==>
                  && FirstUnweighed(weights, ValidSigners(check, b)).Some?
                  && r == Rejected(SignerNotInWeightMap(FirstUnweighed(weights, ValidSigners(check, b)).value)))
            && (valid <= weights.Keys ==> Weight(valid, weights) <= total)
  {
    var valid := ValidSigners(check, b);
    ValidAreSigners(check, b);
    if Members(valid) <= weights.Keys {
      WeightOfSubset(Members(valid), weights.Keys, weights);
    }
    if Distinct(Signers(b.signatures)) && Weight(weights.Keys, weights) <= U16_MAX {
      WeighExact(weights, Weight(weights.Keys, weights), valid, {}, 0);
      assert {} + Members(valid) == Members(valid);
    }
  }

  lemma SmallTotalNeverOverflows(check: SignatureCheck, weights: map<Did, u16>, b: Ballot)
    requires Weight(weights.Keys, weights) <= 32767
    ensures VerdictOf(check, Weighted(weights), b) != Overflow
  {
    WeightedExact(check, weights, b);
  }

  // The bound is tight: one signer holding all of a total of 32768 overflows when approving alone.
  lemma UnanimityCanOverflow(check: SignatureCheck)
    requires check("key", "message", "sig")
    ensures var b := Ballot([("d", "sig")], "message", map["d" := "key"]);
            VerdictOf(check, Weighted(map["d" := 32768]), b) == Overflow
  {
    var b := Ballot([("d", "sig")], "message", map["d" := "key"]);
    var weights: map<Did, u16> := map["d" := 32768];
    assert ValidSigners(check, b) == ["d"] by {
      assert b.signatures[1..] == [];
    }
    WeightWithout({"d"}, weights, "d");
    assert weights.Keys == {"d"} == Members(["d"]);
    WeightedExact(check, weights, b);
  }

  // Two accepted weighted proofs over the same weights share a signer valid in both, even
  // under different allowed keys.
  lemma WeightedQuorumsMeet(check: SignatureCheck, weights: map<Did, u16>, a: Ballot, b: Ballot)
    requires VerdictOf(check, Weighted(weights), a) == Accepted && VerdictOf(check, Weighted(weights), b) == Accepted
    ensures exists d :: d in ValidSigners(check, a) && d in ValidSigners(check, b)
  {
    WeightedExact(check, weights, a);
    WeightedExact(check, weights, b);
    var x, y := Members(ValidSigners(check, a)), Members(ValidSigners(check, b));
    HeavySetsMeet(x, y, weights.Keys, weights);
    var d :| d in x * y;
  }

  // ----- when additions wrap instead of faulting -----

  const U16: nat := 0x1_0000

  // A build without overflow checks: every sum and the doubling are taken modulo 2^16.
  function WeighWrapping(weights: map<Did, u16>, total: u16, signers: seq<Did>, weight: u16): Verdict
    decreases signers
  {
    if signers == [] then
      if weight * 2 % U16 > total then Accepted else Rejected(InsufficientSigners)
    else if signers[0] !in weights then Rejected(SignerNotInWeightMap(signers[0]))
    else WeighWrapping(weights, total, signers[1..], (weight + weights[signers[0]]) % U16)
  }

  ghost function WrappingVerdict(check: SignatureCheck, weights: map<Did, u16>, b: Ballot): Verdict {
    if !Distinct(Signers(b.signatures)) then Rejected(DuplicateSigner)
    else WeighWrapping(weights, Weight(weights.Keys, weights) % U16, ValidSigners(check, b), 0)
  }

  lemma {:induction false} WeighWrappingAgrees(weights: map<Did, u16>, total: u16, signers: seq<Did>, weight: u16)
    ensures Weigh(weights, total, signers, weight) != Overflow ==>
              WeighWrapping(weights, total, signers, weight) == Weigh(weights, total, signers, weight)
    decreases signers
  {
    if signers != [] && signers[0] in weights && weight + weights[signers[0]] <= U16_MAX {
      WeighWrappingAgrees(weights, total, signers[1..], weight + weights[signers[0]]);
    }
  }

  // Wrapping decides as faulting does wherever nothing overflows, so for every total up to 32767.
  lemma WrappingAgrees(check: SignatureCheck, weights: map<Did, u16>, b: Ballot)
    ensures VerdictOf(check, Weighted(weights), b) != Overflow ==>
              WrappingVerdict(check, weights, b) == VerdictOf(check, Weighted(weights), b)
    ensures Weight(weights.Keys, weights) <= 32767 ==>
              WrappingVerdict(check, weights, b) == VerdictOf(check, Weighted(weights), b)
  {
    if Weight(weights.Keys, weights) <= U16_MAX {
      WeighWrappingAgrees(weights, Weight(weights.Keys, weights), ValidSigners(check, b), 0);
    }
    if Weight(weights.Keys, weights) <= 32767 {
      SmallTotalNeverOverflows(check, weights, b);
    }
  }

  // With a total that fits 16 bits no sum wraps, only the doubling may, and it can only lose.
  lemma {:induction false} WeighWrappingBound(weights: map<Did, u16>, total: u16, signers: seq<Did>, weighed: set<Did>, weight: u16)
    requires Distinct(signers) && weighed <= weights.Keys && weighed !! Members(signers)
    requires weight == Weight(weighed, weights) && Weight(weights.Keys, weights) <= U16_MAX
    requires WeighWrapping(weights, total, signers, weight) == Accepted
    ensures weighed + Members(signers) <= weights.Keys
    ensures 2 * Weight(weighed + Members(signers), weights) > total
    decreases signers
  {
    if signers == [] {
      assert weighed + Members(signers) == weighed;
    } else {
      var did, next := signers[0], weighed + {signers[0]};
      assert Members(signers) == {did} + Members(signers[1..]);
      assert did !in signers[1..];
      WeightWithout(next, weights, did);
      assert next - {did} == weighed;
      WeightOfSubset(next, weights.Keys, weights);
      assert next + Members(signers[1..]) == weighed + Members(signers);
      WeighWrappingBound(weights, total, signers[1..], next, weight + weights[did]);
    }
  }

  lemma WrappingAcceptedIsHeavy(check: SignatureCheck, weights: map<Did, u16>, b: Ballot)
    requires Weight(weights.Keys, weights) <= U16_MAX && WrappingVerdict(check, weights, b) == Accepted
    ensures var valid := Members(ValidSigners(check, b));
            valid <= weights.Keys && 2 * Weight(valid, weights) > Weight(weights.Keys, weights)
  {
    var valid := ValidSigners(check, b);
    ValidAreSigners(check, b);
    WeighWrappingBound(weights, Weight(weights.Keys, weights), valid, {}, 0);
    assert {} + Members(valid) == Members(valid);
  }

  // Intersection survives wrapping for every total that fits 16 bits.
  lemma WrappingQuorumsMeet(check: SignatureCheck, weights: map<Did, u16>, a: Ballot, b: Ballot)
    requires Weight(weights.Keys, weights) <= U16_MAX
    requires WrappingVerdict(check, weights, a) == Accepted && WrappingVerdict(check, weights, b) == Accepted
    ensures exists d :: d in ValidSigners(check, a) && d in ValidSigners(check, b)
  {
    WrappingAcceptedIsHeavy(check, weights, a);
    WrappingAcceptedIsHeavy(check, weights, b);
    var x, y := Members(ValidSigners(check, a)), Members(ValidSigners(check, b));
    HeavySetsMeet(x, y, weights.Keys, weights);
    var d :| d in x * y;
  }

  // Beyond 16 bits it does not: the weights 1, 65535 and 1 total 1, and two proofs with one
  // light signer each are both accepted.
  lemma WrappingQuorumsMiss(check: SignatureCheck)
    requires check("key", "message", "sig")
    ensures var weights: map<Did, u16> := map["a" := 1, "b" := 65535, "c" := 1];
            var allowed := map["a" := "key", "b" := "key", "c" := "key"];
            var x, y := Ballot([("a", "sig")], "message", allowed), Ballot([("c", "sig")], "message", allowed);
            && WrappingVerdict(check, weights, x) == Accepted && WrappingVerdict(check, weights, y) == Accepted
            && !exists d :: d in ValidSigners(check, x) && d in ValidSigners(check, y)
  {
    var weights: map<Did, u16> := map["a" := 1, "b" := 65535, "c" := 1];
    var allowed := map["a" := "key", "b" := "key", "c" := "key"];
    assert weights.Keys == {"a", "b", "c"};
    WeightWithout({"a", "b", "c"}, weights, "a");
    assert {"a", "b", "c"} - {"a"} == {"b", "c"};
    WeightWithout({"b", "c"}, weights, "b");
    assert {"b", "c"} - {"b"} == {"c"};
    WeightWithout({"c"}, weights, "c");
    assert {"c"} - {"c"} == {};
    OneSignerAccepted(check, weights, allowed, "a");
    OneSignerAccepted(check, weights, allowed, "c");
  }

  lemma OneSignerAccepted(check: SignatureCheck, weights: map<Did, u16>, allowed: map<Did, VerifyingKey>, did: Did)
    requires check("key", "message", "sig") && did in allowed && allowed[did] == "key"
    requires did in weights && weights[did] == 1 && Weight(weights.Keys, weights) % U16 == 1
    ensures var b := Ballot([(did, "sig")], "message", allowed);
            ValidSigners(check, b) == [did] && WrappingVerdict(check, weights, b) == Accepted
  {
    var b := Ballot([(did, "sig")], "message", allowed);
    assert b.signatures[1..] == [];
    assert ValidSigners(check, b) == [did];
    assert [did][1..] == [];
    assert WeighWrapping(weights, 1, [did], 0) == WeighWrapping(weights, 1, [], 1);
  }

  // ----- exactly which thresholds force intersection -----

  lemma {:induction false} InSomeOrder(s: set<Did>) returns (listed: seq<Did>)
    ensures Members(listed) == s && Distinct(listed)
    decreases s
  {
    if s == {} {
      listed := [];
    } else {
      var d :| d in s;
      var rest := InSomeOrder(s - {d});
      listed := [d] + rest;
      assert listed[1..] == rest && Members(listed) == {d} + Members(rest);
      assert forall i | 0 <= i < |rest| :: rest[i] in Members(rest);
      DistinctCons(listed);
    }
  }

  function Signed(dids: seq<Did>, sign: Did -> Signature): seq<(Did, Signature)> {
    seq(|dids|, i requires 0 <= i < |dids| => (dids[i], sign(dids[i])))
  }

  lemma {:induction false} AllSignedValid(check: SignatureCheck, b: Ballot, dids: seq<Did>, sign: Did -> Signature)
    requires b.signatures == Signed(dids, sign)
    requires forall d | d in dids :: d in b.allowed && check(b.allowed[d], b.message, sign(d))
    ensures ValidSigners(check, b) == dids && Signers(b.signatures) == dids
    decreases dids
  {
    if dids != [] {
      assert b.signatures[1..] == Signed(dids[1..], sign);
      assert b.signatures[0] == (dids[0], sign(dids[0]));
      assert dids[0] in dids;
      AllSignedValid(check, b.(signatures := b.signatures[1..]), dids[1..], sign);
    }
  }

  ghost predicate ThresholdForcesMeeting(check: SignatureCheck, min: nat, message: Message, allowed: map<Did, VerifyingKey>) {
    forall x, y | VerdictOf(check, Threshold(min), Ballot(x, message, allowed)) == Accepted
                  && VerdictOf(check, Threshold(min), Ballot(y, message, allowed)) == Accepted ::
      exists d :: d in ValidSigners(check, Ballot(x, message, allowed)) && d in ValidSigners(check, Ballot(y, message, allowed))
  }

  // For keys under which everyone can sign, accepted proofs always share a valid signer if
  // and only if twice the threshold exceeds the allowed signers.
  lemma {:induction false} ThresholdQuorumsMeetExactly(check: SignatureCheck, min: nat, message: Message, allowed: map<Did, VerifyingKey>, sign: Did -> Signature)
    requires forall d | d in allowed :: check(allowed[d], message, sign(d))
    ensures ThresholdForcesMeeting(check, min, message, allowed) <==> 2 * min > |allowed|
  {
    if 2 * min > |allowed| {
      forall x, y | VerdictOf(check, Threshold(min), Ballot(x, message, allowed)) == Accepted
                    && VerdictOf(check, Threshold(min), Ballot(y, message, allowed)) == Accepted
        ensures exists d :: d in ValidSigners(check, Ballot(x, message, allowed)) && d in ValidSigners(check, Ballot(y, message, allowed))
      {
        ThresholdQuorumsMeet(check, min, Ballot(x, message, allowed), Ballot(y, message, allowed));
      }
    } else {
      var dids := InSomeOrder(allowed.Keys);
      MembersOfDistinct(dids);
      assert forall d :: d in dids <==> d in Members(dids);
      var a, b := dids[..min], dids[min..2 * min];
      ProofAccepted(check, min, message, allowed, sign, a);
      ProofAccepted(check, min, message, allowed, sign, b);
      assert !exists d :: d in a && d in b;
    }
  }

  lemma ProofAccepted(check: SignatureCheck, min: nat, message: Message, allowed: map<Did, VerifyingKey>, sign: Did -> Signature, dids: seq<Did>)
    requires forall d | d in allowed :: check(allowed[d], message, sign(d))
    requires Distinct(dids) && |dids| == min <= |allowed| && forall d | d in dids :: d in allowed
    ensures var b := Ballot(Signed(dids, sign), message, allowed);
            VerdictOf(check, Threshold(min), b) == Accepted && ValidSigners(check, b) == dids
  {
    AllSignedValid(check, Ballot(Signed(dids, sign), message, allowed), dids, sign);
  }
}
