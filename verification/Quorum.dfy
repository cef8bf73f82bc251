/** Quorum certificates: validating them, forming them from votes, and what two of them have in common. */
module Quorum {
  import opened Types
  import opened Committee

  /** ECDSA verification of a block hash under a possibly missing key. */
  type Verifier = (Option<Key>, Hash, Bytes) -> bool

  // ---------------------------------------------------------------- validation

  datatype QCError =
    | TooFewSignatures
    | LengthMismatch
    | DuplicateSigner(index: nat)
    | UnknownSigner(index: nat)
    | BadSignature(index: nat)

  function SignerError(qc: QuorumCert, c: Config, verify: Verifier, i: nat): Option<QCError>
    requires i < |qc.signers| == |qc.sigs|
  {
    if qc.signers[i] in qc.signers[..i] then Some(DuplicateSigner(i))
    else
      match Find(c.replicas, qc.signers[i])
      case None => Some(UnknownSigner(i))
      case Some(r) => if verify(r.key, qc.blockHash, qc.sigs[i]) then None else Some(BadSignature(i))
  }

  ghost predicate ValidQC(qc: QuorumCert, c: Config, verify: Verifier) {
    && |qc.sigs| >= c.QuorumSize()
    && |qc.sigs| == |qc.signers|
    && Distinct(qc.signers)
    && forall i :: 0 <= i < |qc.signers| ==>
         var r := Find(c.replicas, qc.signers[i]);
         r.Some? && verify(r.value.key, qc.blockHash, qc.sigs[i])
  }

  /** The first i signers are different members whose signatures verify. */
  ghost predicate GoodUpTo(qc: QuorumCert, c: Config, verify: Verifier, i: nat)
    requires i <= |qc.signers| == |qc.sigs|
  {
    && Distinct(qc.signers[..i])
    && forall j: nat :: j < i ==>
         var r := Find(c.replicas, qc.signers[j]);
         r.Some? && verify(r.value.key, qc.blockHash, qc.sigs[j])
  }

  /** Which error is the first: a repeated signer is reported as such, a stranger next, and only then a signature. */
  lemma {:induction false} FirstErrorIs(qc: QuorumCert, c: Config, verify: Verifier, i: nat)
    requires i < |qc.signers| == |qc.sigs| && GoodUpTo(qc, c, verify, i)
    ensures forall j: nat :: j < i ==> SignerError(qc, c, verify, j) == None
    ensures var id, error := qc.signers[i], SignerError(qc, c, verify, i);
            && (error == Some(DuplicateSigner(i)) <==> exists j :: 0 <= j < i && qc.signers[j] == id)
            && (error == Some(UnknownSigner(i)) <==> id !in Ids(c.replicas))
            && (error == None <==> GoodUpTo(qc, c, verify, i + 1))
            && (error.Some? ==> error.value in {DuplicateSigner(i), UnknownSigner(i), BadSignature(i)})
  {
    forall j: nat | j < i
      ensures SignerError(qc, c, verify, j) == None
    {
      assert forall k :: 0 <= k < j ==> qc.signers[..i][k] != qc.signers[..i][j];
    }
    if qc.signers[i] in qc.signers[..i] {
      var k :| 0 <= k < i && qc.signers[..i][k] == qc.signers[i];
      assert qc.signers[..i + 1][k] == qc.signers[..i + 1][i];
    } else {
      assert qc.signers[..i + 1] == qc.signers[..i] + [qc.signers[i]];
    }
  }

  method ValidateQC(qc: QuorumCert, c: Config, verify: Verifier) returns (err: Option<QCError>)
    ensures err == None <==> ValidQC(qc, c, verify)
    ensures err == Some(TooFewSignatures) <==> |qc.sigs| < c.QuorumSize()
    ensures err == Some(LengthMismatch) <==> c.QuorumSize() <= |qc.sigs| && |qc.sigs| != |qc.signers|
    ensures err.Some? && |qc.sigs| >= c.QuorumSize() && |qc.sigs| == |qc.signers| ==>
              exists i: nat :: i < |qc.signers| && err == SignerError(qc, c, verify, i) &&
                forall j: nat :: j < i ==> SignerError(qc, c, verify, j) == None
  {
    if |qc.sigs| < c.QuorumSize() {
      return Some(TooFewSignatures);
    }
    if |qc.sigs| != |qc.signers| {
      return Some(LengthMismatch);
    }
    var seen: set<string> := {};
    for i := 0 to |qc.signers|
      invariant seen == Elements(qc.signers[..i])
      invariant Distinct(qc.signers[..i])
      invariant forall j: nat :: j < i ==> SignerError(qc, c, verify, j) == None
    {
      var id := qc.signers[i];
      if id in seen {
        assert SignerError(qc, c, verify, i) == Some(DuplicateSigner(i));
        return Some(DuplicateSigner(i));
      }
      seen := seen + {id};
      DistinctAppend(qc.signers[..i], id);
      assert qc.signers[..i + 1] == qc.signers[..i] + [id];
      var r := Find(c.replicas, id);
      if r == None {
        assert SignerError(qc, c, verify, i) == Some(UnknownSigner(i));
        return Some(UnknownSigner(i));
      }
      if !verify(r.value.key, qc.blockHash, qc.sigs[i]) {
        assert SignerError(qc, c, verify, i) == Some(BadSignature(i));
        return Some(BadSignature(i));
      }
    }
    assert qc.signers[..|qc.signers|] == qc.signers;
    forall i | 0 <= i < |qc.signers|
      ensures Find(c.replicas, qc.signers[i]).Some?
      ensures verify(Find(c.replicas, qc.signers[i]).value.key, qc.blockHash, qc.sigs[i])
    {
      assert SignerError(qc, c, verify, i) == None;
    }
    err := None;
  }

  // ---------------------------------------------------------------- intersection

  /** Two certificates of one committee share more than fc signers, whatever its ids look like. */
  lemma {:induction false} QuorumsIntersect(a: QuorumCert, b: QuorumCert, c: Config, verify: Verifier)
    requires ValidQC(a, c, verify) && ValidQC(b, c, verify)
    ensures |Elements(a.signers) * Elements(b.signers)| >= c.faultCap + 1
  {
    var sa, sb, all := Elements(a.signers), Elements(b.signers), Elements(Ids(c.replicas));
    DistinctCardinality(a.signers);
    DistinctCardinality(b.signers);
    DistinctCardinality(Ids(c.replicas));
    assert sa + sb <= all;
    SubsetCardinality(sa + sb, all);
    assert |sa + sb| == |sa| + |sb| - |sa * sb|;
  }

  /** With at most fc faulty members, an honest one signed both. */
  lemma {:induction false} HonestSigner(a: QuorumCert, b: QuorumCert, c: Config, verify: Verifier, faulty: set<string>)
      returns (id: string)
    requires ValidQC(a, c, verify) && ValidQC(b, c, verify)
    requires |faulty| <= c.faultCap
    ensures id in a.signers && id in b.signers && id in Ids(c.replicas) && id !in faulty
  {
    QuorumsIntersect(a, b, c, verify);
    var both := Elements(a.signers) * Elements(b.signers);
    if both <= faulty {
      SubsetCardinality(both, faulty);
    }
    id :| id in both && id !in faulty;
  }

  /**
   * What validation is worth: where only signatures that a key's owner made verify, a valid certificate for a hash
   * means that Qc different members signed it, and with at most fc faulty, fc + 1 honest ones among them.
   */
  lemma {:induction false} ValidMeansSigned(qc: QuorumCert, number: nat, replicas: seq<Replica>, verify: Verifier,
      faulty: set<string>, signed: (string, Hash) -> bool)
    requires ValidQC(qc, NewCommittee(number, replicas), verify) && replicas != []
    requires |faulty| <= NewCommittee(number, replicas).faultCap
    requires forall r, h, sig :: r in replicas && verify(r.key, h, sig) ==> signed(r.id, h)
    ensures var c := NewCommittee(number, replicas);
            && |Elements(qc.signers)| >= c.QuorumSize() && Elements(qc.signers) <= Elements(Ids(replicas))
            && (forall id :: id in qc.signers ==> signed(id, qc.blockHash))
            && |Elements(qc.signers) - faulty| >= c.faultCap + 1
  {
    var c, all := NewCommittee(number, replicas), Elements(qc.signers);
    DistinctCardinality(qc.signers);
    forall i | 0 <= i < |qc.signers|
      ensures qc.signers[i] in Ids(replicas) && signed(qc.signers[i], qc.blockHash)
    {
      var r := Find(replicas, qc.signers[i]).value;
      assert verify(r.key, qc.blockHash, qc.sigs[i]);
    }
    QuorumArithmetic(number, replicas);
    SubsetCardinality(all * faulty, faulty);
    assert |all - faulty| == |all| - |all * faulty|;
  }

  // ---------------------------------------------------------------- forming certificates

  function Signers(votes: seq<Vote>): seq<string> {
    seq(|votes|, i requires 0 <= i < |votes| => votes[i].signer)
  }

  /** The reference: each signer's first vote, in arrival order. */
  function FirstVotes(votes: seq<Vote>): seq<Vote> {
    if votes == [] then []
    else
      var init, last := votes[..|votes| - 1], votes[|votes| - 1];
      FirstVotes(init) + if last.signer in Signers(init) then [] else [last]
  }

  lemma {:induction false} FirstVotesFacts(votes: seq<Vote>)
    ensures Distinct(Signers(FirstVotes(votes)))
    ensures forall id :: id in Signers(votes) <==> id in Signers(FirstVotes(votes))
    ensures |FirstVotes(votes)| <= |votes|
    ensures votes != [] ==> FirstVotes(votes) != [] && FirstVotes(votes)[0] == votes[0]
    ensures forall v :: v in FirstVotes(votes) ==> v in votes
  {
    if votes != [] {
      var init, last := votes[..|votes| - 1], votes[|votes| - 1];
      FirstVotesFacts(init);
      assert Signers(votes) == Signers(init) + [last.signer];
      if last.signer in Signers(init) {
        assert FirstVotes(votes) == FirstVotes(init);
      } else {
        assert Signers(FirstVotes(votes)) == Signers(FirstVotes(init)) + [last.signer];
        DistinctAppend(Signers(FirstVotes(init)), last.signer);
      }
    }
  }

  lemma {:induction false} FirstVotesPrefix(votes: seq<Vote>, i: nat)
    requires i <= |votes|
    ensures FirstVotes(votes[..i]) <= FirstVotes(votes)
  {
    if i == |votes| {
      assert votes[..i] == votes;
    } else {
      FirstVotesPrefix(votes[..|votes| - 1], i);
      assert votes[..|votes| - 1][..i] == votes[..i];
    }
  }

  lemma {:induction false} FirstVotesOfDistinct(votes: seq<Vote>)
    requires Distinct(Signers(votes))
    ensures FirstVotes(votes) == votes
  {
    if votes != [] {
      var init, last := votes[..|votes| - 1], votes[|votes| - 1];
      assert Signers(votes) == Signers(init) + [last.signer];
      DistinctAppend(Signers(init), last.signer);
      FirstVotesOfDistinct(init);
    }
  }

  lemma FirstVotesStep(votes: seq<Vote>, i: nat)
    requires i < |votes|
    ensures FirstVotes(votes[..i + 1]) ==
            FirstVotes(votes[..i]) + if votes[i].signer in Signers(FirstVotes(votes[..i])) then [] else [votes[i]]
  {
    assert votes[..i + 1][..i] == votes[..i];
    FirstVotesFacts(votes[..i]);
  }

  /** The first Qc distinct votes decide; `votes[0]` supplies view, configuration and block hash. */
  function Certificate(votes: seq<Vote>, c: Config): Option<QuorumCert> {
    var first := FirstVotes(votes);
    if |first| < c.QuorumSize() then None
    else
      FirstVotesFacts(votes);
      var quorum := first[..c.QuorumSize()];
      Some(QuorumCert(votes[0].view, votes[0].conf, votes[0].blockHash, Signatures(quorum), Signers(quorum)))
  }

  function Signatures(votes: seq<Vote>): seq<Bytes> {
    seq(|votes|, i requires 0 <= i < |votes| => votes[i].sig)
  }

  lemma {:induction false} AppendVote(votes: seq<Vote>, v: Vote)
    ensures Signers(votes + [v]) == Signers(votes) + [v.signer]
    ensures Signatures(votes + [v]) == Signatures(votes) + [v.sig]
    ensures Elements(Signers(votes + [v])) == Elements(Signers(votes)) + {v.signer}
  {
    assert Signers(votes + [v]) == Signers(votes) + [v.signer];
  }

  lemma SignersSoFar(votes: seq<Vote>, i: nat)
    requires i < |votes|
    ensures Elements(Signers(FirstVotes(votes[..i + 1]))) ==
            Elements(Signers(FirstVotes(votes[..i]))) + {votes[i].signer}
    ensures |Elements(Signers(FirstVotes(votes[..i + 1])))| == |FirstVotes(votes[..i + 1])|
  {
    FirstVotesStep(votes, i);
    FirstVotesFacts(votes[..i + 1]);
    DistinctCardinality(Signers(FirstVotes(votes[..i + 1])));
    var before := FirstVotes(votes[..i]);
    if votes[i].signer in Signers(before) {
      assert before + [] == before;
    } else {
      AppendVote(before, votes[i]);
    }
  }

  /** The first votes of distinct signers, one for each. */
  lemma {:induction false} FirstVotesCount(votes: seq<Vote>)
    ensures |FirstVotes(votes)| == |Elements(Signers(votes))|
  {
    FirstVotesFacts(votes);
    DistinctCardinality(Signers(FirstVotes(votes)));
    assert Elements(Signers(votes)) == Elements(Signers(FirstVotes(votes)));
  }

  /** The signer's first vote, with k different signers before it. */
  ghost predicate SignedBy(votes: seq<Vote>, k: nat, signer: string, sig: Bytes) {
    exists i :: 0 <= i < |votes| && votes[i].signer == signer && votes[i].sig == sig &&
                signer !in Signers(votes[..i]) && |Elements(Signers(votes[..i]))| == k
  }

  lemma {:induction false} FirstVoteAt(votes: seq<Vote>, k: nat)
    requires k < |FirstVotes(votes)|
    ensures SignedBy(votes, k, FirstVotes(votes)[k].signer, FirstVotes(votes)[k].sig)
  {
    var init, last := votes[..|votes| - 1], votes[|votes| - 1];
    if k < |FirstVotes(init)| {
      FirstVoteAt(init, k);
      var v := FirstVotes(init)[k];
      var i :| 0 <= i < |init| && init[i].signer == v.signer && init[i].sig == v.sig &&
               v.signer !in Signers(init[..i]) && |Elements(Signers(init[..i]))| == k;
      assert init[..i] == votes[..i];
    } else {
      FirstVotesCount(init);
      assert votes[..|votes| - 1] == init;
    }
  }

  /**
   * What a certificate is made of: the k-th signer is the signer of the first vote that brings the number of different
   * signers to k + 1, with the signature of that vote; view, configuration and hash are those of the very first vote.
   */
  lemma {:induction false} CertificateContents(votes: seq<Vote>, c: Config)
    requires Certificate(votes, c).Some?
    ensures var qc := Certificate(votes, c).value;
            && |qc.signers| == |qc.sigs| == c.QuorumSize() && Distinct(qc.signers) && votes != []
            && qc.view == votes[0].view && qc.conf == votes[0].conf && qc.blockHash == votes[0].blockHash
            && forall k :: 0 <= k < |qc.signers| ==> SignedBy(votes, k, qc.signers[k], qc.sigs[k])
  {
    FirstVotesFacts(votes);
    var qc, first := Certificate(votes, c).value, FirstVotes(votes);
    assert forall k :: 0 <= k < |qc.signers| ==> qc.signers[k] == Signers(first)[k];
    forall k | 0 <= k < |qc.signers|
      ensures SignedBy(votes, k, qc.signers[k], qc.sigs[k])
    {
      FirstVoteAt(votes, k);
    }
  }

  method HasQuorum(votes: seq<Vote>, c: Config) returns (quorum: bool)
    ensures quorum <==> |FirstVotes(votes)| >= c.QuorumSize()
  {
    var seen: set<string> := {};
    for i := 0 to |votes|
      invariant seen == Elements(Signers(FirstVotes(votes[..i])))
      invariant |FirstVotes(votes[..i])| < c.QuorumSize()
    {
      seen := seen + {votes[i].signer};
      SignersSoFar(votes, i);
      if |seen| >= c.QuorumSize() {
        FirstVotesPrefix(votes, i + 1);
        return true;
      }
    }
    assert votes[..|votes|] == votes;
    return false;
  }

  method QuorumOf(votes: seq<Vote>, c: Config) returns (quorum: seq<Vote>, ok: bool)
    ensures ok <==> |FirstVotes(votes)| >= c.QuorumSize()
    ensures quorum == if ok then FirstVotes(votes)[..c.QuorumSize()] else FirstVotes(votes)
  {
    var seen: set<string> := {};
    quorum := [];
    for i := 0 to |votes|
      invariant quorum == FirstVotes(votes[..i]) && seen == Elements(Signers(quorum))
      invariant |quorum| < c.QuorumSize()
    {
      FirstVotesStep(votes, i);
      var v := votes[i];
      if v.signer in seen {
        continue;
      }
      assert Signers(quorum + [v]) == Signers(quorum) + [v.signer];
      seen := seen + {v.signer};
      quorum := quorum + [v];
      if |quorum| >= c.QuorumSize() {
        FirstVotesPrefix(votes, i + 1);
        return quorum, true;
      }
    }
    assert votes[..|votes|] == votes;
    return quorum, false;
  }

  lemma {:induction false} CollectStep(votes: seq<Vote>, i: nat)
    requires i < |votes|
    ensures var before, now, v := FirstVotes(votes[..i]), FirstVotes(votes[..i + 1]), votes[i];
            && Signers(now) == Signers(before) + (if v.signer in Signers(before) then [] else [v.signer])
            && Signatures(now) == Signatures(before) + (if v.signer in Signers(before) then [] else [v.sig])
  {
    FirstVotesStep(votes, i);
    var before := FirstVotes(votes[..i]);
    if votes[i].signer in Signers(before) {
      assert before + [] == before;
    } else {
      AppendVote(before, votes[i]);
    }
  }

  /** Scanning further than the first quorum of signers would change nothing. */
  lemma {:induction false} PrefixCertifies(votes: seq<Vote>, c: Config, i: nat)
    requires i <= |votes| && (|FirstVotes(votes[..i])| == c.QuorumSize() || i == |votes|)
    requires |FirstVotes(votes[..i])| <= c.QuorumSize()
    ensures Certificate(votes, c) == Certificate(votes[..i], c)
  {
    FirstVotesPrefix(votes, i);
    if i == |votes| {
      assert votes[..i] == votes;
    } else {
      assert FirstVotes(votes)[..c.QuorumSize()] == FirstVotes(votes[..i]) == FirstVotes(votes[..i])[..c.QuorumSize()];
      FirstVotesFacts(votes[..i]);
    }
  }

  method CreateQC(votes: seq<Vote>, c: Config) returns (qc: Option<QuorumCert>)
    ensures qc == Certificate(votes, c)
  {
    FirstVotesFacts(votes);
    if |votes| < c.QuorumSize() {
      return None;
    }
    var seen: set<string> := {};
    var sigs: seq<Bytes>, ids: seq<string> := [], [];
    var i := 0;
    while i < |votes|
      invariant i <= |votes|
      invariant ids == Signers(FirstVotes(votes[..i])) && sigs == Signatures(FirstVotes(votes[..i]))
      invariant seen == Elements(ids)
      invariant |ids| == |sigs| < c.QuorumSize()
    {
      CollectStep(votes, i);
      var v := votes[i];
      i := i + 1;
      if v.signer in seen {
        continue;
      }
      seen := seen + {v.signer};
      sigs := sigs + [v.sig];
      ids := ids + [v.signer];
      if |sigs| >= c.QuorumSize() {
        break;
      }
    }
    PrefixCertifies(votes, c, i);
    if |sigs| < c.QuorumSize() {
      return None;
    }
    FirstVotesFacts(votes[..i]);
    assert FirstVotes(votes[..i])[..c.QuorumSize()] == FirstVotes(votes[..i]);
    qc := Some(QuorumCert(votes[0].view, votes[0].conf, votes[0].blockHash, sigs, ids));
  }

  function Aggregate(existing: seq<Vote>, incoming: Vote): seq<Vote> {
    if incoming.signer in Signers(existing) then existing else existing + [incoming]
  }

  method AggregateVotes(existing: seq<Vote>, incoming: Vote) returns (r: seq<Vote>)
    ensures r == Aggregate(existing, incoming)
  {
    for i := 0 to |existing|
      invariant incoming.signer !in Signers(existing)[..i]
    {
      assert Signers(existing)[i] == existing[i].signer;
      if existing[i].signer == incoming.signer {
        return existing;
      }
    }
    assert Signers(existing)[..|existing|] == Signers(existing);
    return existing + [incoming];
  }

  function AggregateAll(votes: seq<Vote>): seq<Vote> {
    if votes == [] then [] else Aggregate(AggregateAll(votes[..|votes| - 1]), votes[|votes| - 1])
  }

  lemma {:induction false} AggregatingKeepsFirstVotes(votes: seq<Vote>)
    ensures AggregateAll(votes) == FirstVotes(votes)
  {
    if votes != [] {
      AggregatingKeepsFirstVotes(votes[..|votes| - 1]);
      FirstVotesFacts(votes[..|votes| - 1]);
    }
  }

  /** Folding the votes through the aggregator first changes neither the certificate nor whether there is one. */
  lemma {:induction false} AggregationIsTransparent(votes: seq<Vote>, c: Config)
    ensures Certificate(AggregateAll(votes), c) == Certificate(votes, c)
    ensures |FirstVotes(AggregateAll(votes))| == |FirstVotes(votes)|
  {
    AggregatingKeepsFirstVotes(votes);
    FirstVotesFacts(votes);
    FirstVotesOfDistinct(FirstVotes(votes));
  }

  /** A certificate can be made exactly when enough different signers voted, however often. */
  lemma {:induction false} CertificateNeedsSigners(votes: seq<Vote>, c: Config)
    ensures Certificate(votes, c).Some? <==> |Elements(Signers(votes))| >= c.QuorumSize()
  {
    FirstVotesFacts(votes);
    DistinctCardinality(Signers(FirstVotes(votes)));
    assert Elements(Signers(votes)) == Elements(Signers(FirstVotes(votes)));
  }

  /** Enough votes of different signers make one, folded first or not, for what the first of them votes for. */
  lemma {:induction false} DistinctVotesCertify(votes: seq<Vote>, c: Config)
    requires Distinct(Signers(votes)) && c.QuorumSize() <= |votes|
    ensures Certificate(AggregateAll(votes), c).Some?
    ensures Certificate(AggregateAll(votes), c).value.blockHash == votes[0].blockHash
  {
    AggregationIsTransparent(votes, c);
    FirstVotesOfDistinct(votes);
  }

  /** Honest material makes a certificate every member accepts. */
  lemma {:induction false} CreatedCertificateIsValid(votes: seq<Vote>, c: Config, verify: Verifier)
    requires Certificate(votes, c).Some?
    requires forall v :: v in votes ==>
               && v.blockHash == votes[0].blockHash
               && c.Contains(v.signer)
               && verify(Find(c.replicas, v.signer).value.key, v.blockHash, v.sig)
    ensures ValidQC(Certificate(votes, c).value, c, verify)
  {
    FirstVotesFacts(votes);
    var first := FirstVotes(votes);
    var quorum := first[..c.QuorumSize()];
    assert forall k :: 0 <= k < |quorum| ==> Signers(quorum)[k] == Signers(first)[k];
    forall i | 0 <= i < |quorum|
      ensures quorum[i] in votes
    {
      assert quorum[i] == first[i] && first[i] in first;
    }
  }
}
