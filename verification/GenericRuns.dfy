/** The generic certificate of a replica that follows a leader. */
module GenericRuns {
  import opened Types
  import opened Encoding
  import opened Committee
  import opened Engine
  import opened Handlers
  import opened ProposeRuns

  /** After each linked proposal the replica holds the certificate of the one before it, whatever it held. */
  lemma {:induction false} GenericCertifiesPrevious(sha: Sha, parse: KeyParser, myID: string, es: seq<Vars>,
      ps: seq<Arrival>, k: nat)
    requires IsRun(sha, parse, myID, es, ps) && LinkedProposals(sha, ps) && Handled(es, ps) && 1 <= k < |ps|
    ensures var generic := es[k + 1].safety.genericQC;
            && generic.Some? && generic == ps[k].block.justify
            && generic.value.blockHash == HashBlock(sha, ps[k - 1].block)
  {
    assert Handles(sha, parse, myID, es[k], ps[k], es[k + 1]);
    assert ExtendsPrevious(sha, ps, k) && Precedes(sha, ps, k - 1, k);
    GenericAfterHandling(sha, parse, myID, es[k], ps[k].block, ps[k].store, ps[k].sig);
    ProposalIsIgnoredIff(sha, parse, myID, es[k], ps[k].block, ps[k].store, ps[k].sig);
  }

  /** So over such a run it moves to an older view exactly where a proposal carries an older certificate. */
  lemma {:induction false} GenericDropsIff(sha: Sha, parse: KeyParser, myID: string, es: seq<Vars>, ps: seq<Arrival>,
      k: nat)
    requires IsRun(sha, parse, myID, es, ps) && LinkedProposals(sha, ps) && Handled(es, ps) && 1 <= k && k + 1 < |ps|
    ensures ViewOf(es[k + 2].safety.genericQC) < ViewOf(es[k + 1].safety.genericQC) <==>
            ViewOf(ps[k + 1].block.justify) < ViewOf(ps[k].block.justify)
  {
    GenericCertifiesPrevious(sha, parse, myID, es, ps, k);
    GenericCertifiesPrevious(sha, parse, myID, es, ps, k + 1);
  }
}
