// The two quorum implementations side by side: a signature proof is accepted exactly when
// the signer-list rule accepts its valid signers.
module QuorumAgreement {
  import opened FiniteSums
  import P = QuorumProofs
  import C = QuorumConfigs

  // One authorized entry for every allowed key.
  predicate Lists(authorized: seq<string>, allowed: map<string, string>) {
    Distinct(authorized) && Members(authorized) == allowed.Keys
  }

  lemma MajorityRulesAgree(check: P.SignatureCheck, parses: string -> bool, b: P.Ballot, authorized: seq<string>)
    requires Distinct(P.Signers(b.signatures)) && Lists(authorized, b.allowed)
    ensures P.VerdictOf(check, P.Majority, b) == P.Accepted
       <==> C.Accepts(parses, C.NewMajority(authorized), P.ValidSigners(check, b))
  {
    var valid := P.ValidSigners(check, b);
    P.ValidAreSigners(check, b);
    MembersOfDistinct(authorized);
    assert |authorized| == |b.allowed.Keys| == |b.allowed|;
    forall s | s in valid ensures s in authorized {
      assert s in Members(authorized);
    }
    C.AuthorizedWhenNoStranger(authorized, valid);
  }

  // A weighted proof asks for more than half the total weight, which is the threshold rule
  // at half the total plus one, as long as the 16-bit sums cannot overflow.
  lemma {:induction false} WeightedRulesAgree(check: P.SignatureCheck, parses: string -> bool, weights: map<string, P.u16>, b: P.Ballot, config: C.QuorumConfig)
    requires Distinct(P.Signers(b.signatures))
    requires var total := Weight(weights.Keys, weights);
             total <= 32767 && C.MadeWeighted(config)
             && config.rule.weights == weights && config.rule.threshold == total / 2 + 1
    ensures P.VerdictOf(check, P.Weighted(weights), b) == P.Accepted
       <==> C.Accepts(parses, config, P.ValidSigners(check, b))
  {
    P.ValidAreSigners(check, b);
    P.WeightedExact(check, weights, b);
    P.SmallTotalNeverOverflows(check, weights, b);
    C.WeightedRuleExact(parses, config, P.ValidSigners(check, b));
  }
}
