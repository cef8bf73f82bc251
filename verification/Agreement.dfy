/**
 * Agreement inside one configuration. A run records, for every honest member, the proposals it handled,
 * with its view, its block store and whether it voted; its safety variables follow by the code's own rules.
 * The hypotheses the code does not enforce are predicates on the run.
 */
module Agreement {
  import opened Types
  import opened Encoding
  import opened Committee
  import opened Quorum
  import opened Ancestry
  import opened Safety

  datatype Step = Step(view: nat, block: Block, store: Store, voted: bool)

  /** `blocks` holds every block an honest member received or stored. */
  datatype Run = Run(config: Config, faulty: set<string>, blocks: set<Block>, trace: map<string, seq<Step>>)

  function SafetyAfter(sha: Sha, steps: seq<Step>): SafetyVars {
    if steps == [] then INITIAL_SAFETY
    else
      var last := steps[|steps| - 1];
      AfterPropose(sha, SafetyAfter(sha, steps[..|steps| - 1]), last.block, last.store)
  }

  /** From hash h, k parent links of blocks of the run lead to hash a. */
  ghost predicate Descends(sha: Sha, run: Run, h: Hash, a: Hash, k: nat)
    decreases k
  {
    if k == 0 then h == a
    else exists b :: b in run.blocks && b.parentHash == a && Descends(sha, run, h, HashBlock(sha, b), k - 1)
  }

  ghost predicate OnBranch(sha: Sha, run: Run, h: Hash, a: Hash) {
    exists k: nat :: Descends(sha, run, h, a, k)
  }

  // ---------------------------------------------------------------- hypotheses

  ghost predicate Honest(run: Run, id: string) {
    id in Ids(run.config.replicas) && id !in run.faulty
  }

  ghost predicate FaultBound(run: Run) {
    && |run.faulty| <= run.config.faultCap
    && forall id :: Honest(run, id) ==> id in run.trace
  }

  /** No two headers of the run collide, and a digest is never the empty string (SHA-256 yields 32 bytes). */
  ghost predicate IdealDigest(sha: Sha, run: Run) {
    CollisionFree(sha, run.blocks) && forall x :: sha(x) != []
  }

  /** Every justify passes validation. */
  ghost predicate JustifiesAreValid(run: Run, verify: Verifier) {
    forall b :: b in run.blocks && b.justify.Some? ==> ValidQC(b.justify.value, run.config, verify)
  }

  /** The shape `propose` gives a block: its parent is the block its justify certifies. */
  ghost predicate ParentIsJustified(b: Block) {
    b.parentHash == match b.justify case None => [] case Some(qc) => qc.blockHash
  }

  /**
   * Every received block has that shape, those of faulty proposers included; a replica never compares the two hashes.
   */
  ghost predicate ParentsAreJustified(run: Run) {
    forall b :: b in run.blocks ==> ParentIsJustified(b)
  }

  ghost predicate StoresAreSound(sha: Sha, run: Run) {
    forall id, i :: id in run.trace && 0 <= i < |run.trace[id]| ==>
      var s := run.trace[id][i];
      && s.block in run.blocks
      && forall h :: h in s.store ==> s.store[h] in run.blocks && HashBlock(sha, s.store[h]) == h
  }

  ghost predicate Voted(sha: Sha, run: Run, id: string, i: int, view: nat, hash: Hash) {
    && id in run.trace && 0 <= i < |run.trace[id]|
    && run.trace[id][i].voted
    && run.trace[id][i].view == view
    && HashBlock(sha, run.trace[id][i].block) == hash
  }

  /** An honest signer of a certificate did vote for that hash in that view. */
  ghost predicate Unforgeable(sha: Sha, run: Run) {
    forall b, id :: b in run.blocks && b.justify.Some? && id in b.justify.value.signers && Honest(run, id) ==>
      exists i :: Voted(sha, run, id, i, b.justify.value.view, b.justify.value.blockHash)
  }

  /** Honest members vote only when SafeNode holds. */
  ghost predicate VotesAreSafe(sha: Sha, run: Run) {
    forall id, i :: id in run.trace && 0 <= i < |run.trace[id]| && run.trace[id][i].voted ==>
      SafeNode(SafetyAfter(sha, run.trace[id][..i]), run.trace[id][i].block, run.trace[id][i].block.justify,
               run.trace[id][i].store)
  }

  /** Honest members vote in strictly increasing views; what they handle without a vote may come in any view. */
  ghost predicate VotesAreOrdered(run: Run) {
    forall id, i, j :: id in run.trace && 0 <= i < j < |run.trace[id]| ==>
      run.trace[id][i].voted && run.trace[id][j].voted ==> run.trace[id][i].view < run.trace[id][j].view
  }

  /** Honest members vote for a header once. */
  ghost predicate VotesAreSingle(sha: Sha, run: Run) {
    forall id, i, j :: id in run.trace && 0 <= i < j < |run.trace[id]| ==>
      run.trace[id][i].voted && run.trace[id][j].voted ==>
        HashBlock(sha, run.trace[id][i].block) != HashBlock(sha, run.trace[id][j].block)
  }

  /** The two certified blocks below the one handled are in store. */
  ghost predicate StoredAt(s: Step) {
    s.block.justify.Some? ==>
      && Certified(s.store, s.block).Some?
      && (Certified(s.store, s.block).value.justify.Some? ==>
            Certified(s.store, Certified(s.store, s.block).value).Some?)
  }

  /** A voter holds the two certified blocks below the one it votes for. */
  ghost predicate AncestorsStored(run: Run) {
    forall id, i :: id in run.trace && 0 <= i < |run.trace[id]| && run.trace[id][i].voted ==>
      StoredAt(run.trace[id][i])
  }

  ghost predicate LockNotOlder(a: SafetyVars, b: SafetyVars) {
    a.lockedQC.Some? ==> b.lockedQC.Some? && a.lockedQC.value.view <= b.lockedQC.value.view
  }

  /** An honest lock never moves to an older view; the two-chain rule itself assigns without comparing. */
  ghost predicate LocksAreMonotone(sha: Sha, run: Run) {
    forall id, i :: id in run.trace && 0 <= i < |run.trace[id]| ==>
      LockNotOlder(SafetyAfter(sha, run.trace[id][..i]), SafetyAfter(sha, run.trace[id][..i + 1]))
  }

  /** Faults are few, digests and signatures are ideal, stores are sound, and votes are safe. */
  ghost predicate WellVoted(sha: Sha, run: Run, verify: Verifier) {
    && IdealDigest(sha, run)
    && FaultBound(run)
    && JustifiesAreValid(run, verify)
    && StoresAreSound(sha, run)
    && Unforgeable(sha, run)
    && VotesAreSafe(sha, run)
  }

  /** And the five hypotheses on what replicas do, none of which can be dropped. */
  ghost predicate Orderly(sha: Sha, run: Run, verify: Verifier) {
    && WellVoted(sha, run, verify)
    && ParentsAreJustified(run)
    && LocksAreMonotone(sha, run)
    && VotesAreOrdered(run)
    && VotesAreSingle(sha, run)
    && AncestorsStored(run)
  }

  /** No header is among its own ancestors. */
  ghost predicate NoCycles(sha: Sha, run: Run) {
    forall h, k: nat :: k >= 1 ==> !Descends(sha, run, h, h, k)
  }

  ghost predicate Admissible(sha: Sha, run: Run, verify: Verifier) {
    Orderly(sha, run, verify) && NoCycles(sha, run)
  }

  /** Three blocks on top of b as `CheckThreeChain` wants them. */
  ghost predicate ThreeChain(sha: Sha, run: Run, bStar: Block, bDouble: Block, bPrime: Block, b: Block) {
    && {bStar, bDouble, bPrime, b} <= run.blocks
    && CheckThreeChain(sha, bStar, bDouble, bPrime, b)
  }

  /** The hypothesis on the chain's views that `CheckThreeChain` does not test. */
  ghost predicate ConsecutiveViews(bStar: Block, bDouble: Block, bPrime: Block) {
    && ViewOf(bStar.justify) == ViewOf(bDouble.justify) + 1
    && ViewOf(bDouble.justify) == ViewOf(bPrime.justify) + 1
  }

  ghost predicate Committed(sha: Sha, run: Run, b: Block) {
    exists bStar, bDouble, bPrime ::
      ThreeChain(sha, run, bStar, bDouble, bPrime, b) && ConsecutiveViews(bStar, bDouble, bPrime)
  }

  // ---------------------------------------------------------------- branches

  lemma {:induction false} DescendsTransitive(sha: Sha, run: Run, h: Hash, g: Hash, a: Hash, j: nat, k: nat)
    requires Descends(sha, run, h, g, j) && Descends(sha, run, g, a, k)
    ensures Descends(sha, run, h, a, j + k)
    decreases k
  {
    if k > 0 {
      var b :| b in run.blocks && b.parentHash == a && Descends(sha, run, g, HashBlock(sha, b), k - 1);
      DescendsTransitive(sha, run, h, g, HashBlock(sha, b), j, k - 1);
    }
  }

  lemma BranchTransitive(sha: Sha, run: Run, h: Hash, g: Hash, a: Hash)
    requires OnBranch(sha, run, h, g) && OnBranch(sha, run, g, a)
    ensures OnBranch(sha, run, h, a)
  {
    var j: nat :| Descends(sha, run, h, g, j);
    var k: nat :| Descends(sha, run, g, a, k);
    DescendsTransitive(sha, run, h, g, a, j, k);
  }

  lemma ParentOnBranch(sha: Sha, run: Run, b: Block)
    requires b in run.blocks
    ensures OnBranch(sha, run, HashBlock(sha, b), b.parentHash)
  {
    assert Descends(sha, run, HashBlock(sha, b), HashBlock(sha, b), 0);
    assert Descends(sha, run, HashBlock(sha, b), b.parentHash, 1);
  }

  lemma {:induction false} HopsDescend(sha: Sha, run: Run, store: Store, h: Hash, a: Hash, k: nat)
    requires forall g :: g in store ==> store[g] in run.blocks && HashBlock(sha, store[g]) == g
    requires Hop(store, h, k) == Some(a)
    ensures Descends(sha, run, h, a, k)
    decreases k
  {
    if k > 0 {
      var g := Hop(store, h, k - 1).value;
      HopsDescend(sha, run, store, h, g, k - 1);
      assert store[g] in run.blocks && store[g].parentHash == a;
    }
  }

  // ---------------------------------------------------------------- certificates of a run

  /** A certificate carried by some block of the run. */
  ghost predicate Cert(run: Run, qc: QuorumCert) {
    exists b :: b in run.blocks && b.justify == Some(qc)
  }

  /** Two certificates have an honest voter in common. */
  lemma CommonVoter(sha: Sha, run: Run, verify: Verifier, p: QuorumCert, q: QuorumCert)
      returns (id: string, i: int, j: int)
    requires Orderly(sha, run, verify) && Cert(run, p) && Cert(run, q)
    ensures Voted(sha, run, id, i, p.view, p.blockHash)
    ensures Voted(sha, run, id, j, q.view, q.blockHash)
  {
    var bp :| bp in run.blocks && bp.justify == Some(p);
    var bq :| bq in run.blocks && bq.justify == Some(q);
    id := HonestSigner(p, q, run.config, verify, run.faulty);
    assert Honest(run, id);
    i :| Voted(sha, run, id, i, p.view, p.blockHash);
    j :| Voted(sha, run, id, j, q.view, q.blockHash);
  }

  /** At most one header is certified per view, and a header is certified in one view. */
  lemma {:induction false} CertsMatch(sha: Sha, run: Run, verify: Verifier, p: QuorumCert, q: QuorumCert)
    requires Orderly(sha, run, verify) && Cert(run, p) && Cert(run, q)
    ensures p.view == q.view <==> p.blockHash == q.blockHash
  {
    var id, i, j := CommonVoter(sha, run, verify, p, q);
    assert run.trace[id][i].voted && run.trace[id][j].voted;
  }

  /** Blocks with one hash agree on what they extend, down to the view of the certificate. */
  lemma {:induction false} SameHeaderSameParent(sha: Sha, run: Run, verify: Verifier, b: Block, c: Block)
    requires Orderly(sha, run, verify) && b in run.blocks && c in run.blocks
    requires HashBlock(sha, b) == HashBlock(sha, c) && b.justify.Some?
    ensures c.justify.Some? && c.justify.value.blockHash == b.justify.value.blockHash
    ensures c.justify.value.view == b.justify.value.view
  {
    EqualHashesEqualHeaders(sha, run.blocks, b, c);
    var p := b.justify.value;
    assert Cert(run, p);
    var id, i, j := CommonVoter(sha, run, verify, p, p);
    assert p.blockHash != [];
    assert Cert(run, c.justify.value);
    CertsMatch(sha, run, verify, p, c.justify.value);
  }

  /** A lock is a certificate of the run. */
  lemma {:induction false} LockIsCert(sha: Sha, run: Run, verify: Verifier, id: string, i: nat)
    requires Orderly(sha, run, verify) && id in run.trace && i < |run.trace[id]|
    ensures var lock := SafetyAfter(sha, run.trace[id][..i]).lockedQC;
            lock.Some? ==> Cert(run, lock.value)
  {
    if i > 0 {
      var steps := run.trace[id][..i];
      assert steps[..i - 1] == run.trace[id][..i - 1];
      var s := run.trace[id][i - 1];
      assert s == steps[i - 1];
      LockIsCert(sha, run, verify, id, i - 1);
      if Certified(s.store, s.block).Some? {
        assert Certified(s.store, s.block).value in run.blocks;
      }
    }
  }

  lemma {:induction false} LockMonotoneFrom(sha: Sha, run: Run, id: string, i: nat, j: nat)
    requires LocksAreMonotone(sha, run) && id in run.trace && i <= j <= |run.trace[id]|
    ensures LockNotOlder(SafetyAfter(sha, run.trace[id][..i]), SafetyAfter(sha, run.trace[id][..j]))
  {
    if i < j {
      LockMonotoneFrom(sha, run, id, i, j - 1);
      assert LockNotOlder(SafetyAfter(sha, run.trace[id][..j - 1]), SafetyAfter(sha, run.trace[id][..j - 1 + 1]));
    }
  }

  // ---------------------------------------------------------------- views along a branch

  /** A vote is cast in a later view than that of the block's justify. */
  ghost predicate ViewsGrow(run: Run) {
    forall id, i :: id in run.trace && 0 <= i < |run.trace[id]| && run.trace[id][i].voted ==>
      run.trace[id][i].block.justify.Some? ==> run.trace[id][i].block.justify.value.view < run.trace[id][i].view
  }

  /** A certified hash is a block's digest, and what extends it carries a certificate of the same view. */
  lemma ChildCarriesCert(sha: Sha, run: Run, verify: Verifier, p: QuorumCert, b: Block)
    requires Orderly(sha, run, verify) && Cert(run, p) && b in run.blocks && b.parentHash == p.blockHash
    ensures b.justify.Some? && Cert(run, b.justify.value)
    ensures b.justify.value.blockHash == p.blockHash && b.justify.value.view == p.view
  {
    var id, i, j := CommonVoter(sha, run, verify, p, p);
    assert p.blockHash != [];
    assert Cert(run, b.justify.value);
    CertsMatch(sha, run, verify, p, b.justify.value);
  }

  /** A block's certificate is of a later view than the certificate it carries. */
  lemma CertifiedViewsGrow(sha: Sha, run: Run, verify: Verifier, b: Block, qc: QuorumCert)
    requires Orderly(sha, run, verify) && ViewsGrow(run) && b in run.blocks && b.justify.Some?
    requires Cert(run, qc) && qc.blockHash == HashBlock(sha, b)
    ensures b.justify.value.view < qc.view
  {
    var id, i, j := CommonVoter(sha, run, verify, qc, qc);
    var s := run.trace[id][i];
    assert s.block in run.blocks;
    SameHeaderSameParent(sha, run, verify, b, s.block);
  }

  lemma ChildCertIsLater(sha: Sha, run: Run, verify: Verifier, p: QuorumCert, b: Block, r: QuorumCert)
    requires Orderly(sha, run, verify) && ViewsGrow(run)
    requires Cert(run, p) && b in run.blocks && b.parentHash == p.blockHash
    requires Cert(run, r) && r.blockHash == HashBlock(sha, b)
    ensures p.view < r.view
  {
    ChildCarriesCert(sha, run, verify, p, b);
    CertifiedViewsGrow(sha, run, verify, b, r);
  }

  /** A block that others of the run descend from is certified. */
  lemma InnerCert(sha: Sha, run: Run, b: Block, h: Hash, k: nat) returns (r: QuorumCert)
    requires IdealDigest(sha, run) && ParentsAreJustified(run)
    requires k >= 1 && Descends(sha, run, h, HashBlock(sha, b), k)
    ensures Cert(run, r) && r.blockHash == HashBlock(sha, b)
  {
    var c :| c in run.blocks && c.parentHash == HashBlock(sha, b) && Descends(sha, run, h, HashBlock(sha, c), k - 1);
    r := c.justify.value;
  }

  /** One link up a branch, to a later certificate. */
  lemma NextCert(sha: Sha, run: Run, verify: Verifier, p: QuorumCert, q: QuorumCert, k: nat) returns (r: QuorumCert)
    requires Orderly(sha, run, verify) && ViewsGrow(run) && Cert(run, p) && Cert(run, q)
    requires k >= 1 && Descends(sha, run, q.blockHash, p.blockHash, k)
    ensures Cert(run, r) && p.view < r.view && Descends(sha, run, q.blockHash, r.blockHash, k - 1)
    ensures k == 1 ==> r == q
  {
    var b :|
      b in run.blocks && b.parentHash == p.blockHash && Descends(sha, run, q.blockHash, HashBlock(sha, b), k - 1);
    if k == 1 {
      r := q;
    } else {
      r := InnerCert(sha, run, b, q.blockHash, k - 1);
    }
    ChildCertIsLater(sha, run, verify, p, b, r);
  }

  /** Along a branch the views of the certificates grow. */
  lemma {:induction false} BranchViewsGrow(sha: Sha, run: Run, verify: Verifier, p: QuorumCert, q: QuorumCert, k: nat)
    requires Orderly(sha, run, verify) && ViewsGrow(run) && Cert(run, p) && Cert(run, q)
    requires k >= 1 && Descends(sha, run, q.blockHash, p.blockHash, k)
    ensures p.view < q.view
    decreases k
  {
    var r := NextCert(sha, run, verify, p, q, k);
    if k > 1 {
      BranchViewsGrow(sha, run, verify, r, q, k - 1);
    }
  }

  /** What something descends from is the hash of a block, unless nothing is in between. */
  lemma {:induction false} TopIsBlock(sha: Sha, run: Run, h: Hash, a: Hash, k: nat) returns (b: Block)
    requires k >= 1 && Descends(sha, run, h, a, k)
    ensures b in run.blocks && HashBlock(sha, b) == h
    decreases k
  {
    b :| b in run.blocks && b.parentHash == a && Descends(sha, run, h, HashBlock(sha, b), k - 1);
    if k > 1 {
      b := TopIsBlock(sha, run, h, HashBlock(sha, b), k - 1);
    }
  }

  /** Where votes are later than justifies there is no cycle. */
  lemma {:induction false} GrowingViewsHaveNoCycles(sha: Sha, run: Run, verify: Verifier)
    requires Orderly(sha, run, verify) && ViewsGrow(run)
    ensures Admissible(sha, run, verify)
  {
    forall h, k: nat | k >= 1
      ensures !Descends(sha, run, h, h, k)
    {
      if Descends(sha, run, h, h, k) {
        var b := TopIsBlock(sha, run, h, h, k);
        var r := InnerCert(sha, run, b, h, k);
        BranchViewsGrow(sha, run, verify, r, r, k);
      }
    }
  }

  // ---------------------------------------------------------------- the theorem

  /** Voting for the top of a two-chain locks its bottom. */
  lemma {:induction false} VoteLocks(sha: Sha, run: Run, verify: Verifier, bDouble: Block, bPrime: Block, b: Block,
      id: string, i: nat, view: nat)
    requires Admissible(sha, run, verify) && {bDouble, bPrime, b} <= run.blocks
    requires bDouble.parentHash == HashBlock(sha, bPrime) && bPrime.parentHash == HashBlock(sha, b)
    requires bDouble.justify.Some? && bPrime.justify.Some?
    requires Voted(sha, run, id, i, view, HashBlock(sha, bDouble))
    ensures var lock := SafetyAfter(sha, run.trace[id][..i + 1]).lockedQC;
            lock.Some? && lock.value.view == bPrime.justify.value.view
  {
    var s := run.trace[id][i];
    assert s.block in run.blocks;
    SameHeaderSameParent(sha, run, verify, bDouble, s.block);
    var mid := Certified(s.store, s.block).value;
    assert mid in run.blocks && HashBlock(sha, mid) == HashBlock(sha, bPrime);
    SameHeaderSameParent(sha, run, verify, bPrime, mid);
    var low := Certified(s.store, mid).value;
    assert HashBlock(sha, low) == HashBlock(sha, b);
    var steps := run.trace[id][..i + 1];
    assert steps[..i] == run.trace[id][..i] && steps[i] == s;
  }

  /** What the safety clause accepts descends from the lock, by one link or more. */
  lemma ExtendsLock(sha: Sha, run: Run, id: string, i: nat, a: Hash) returns (k: nat)
    requires StoresAreSound(sha, run) && id in run.trace && i < |run.trace[id]|
    requires Extends(run.trace[id][i].store, run.trace[id][i].block.parentHash, a)
    ensures k >= 1 && Descends(sha, run, HashBlock(sha, run.trace[id][i].block), a, k)
  {
    var s := run.trace[id][i];
    var h := HashBlock(sha, s.block);
    var hops: nat :| hops < MAX_HOPS && Hop(s.store, s.block.parentHash, hops) == Some(a);
    HopsDescend(sha, run, s.store, s.block.parentHash, a, hops);
    assert Descends(sha, run, h, h, 0);
    assert Descends(sha, run, h, s.block.parentHash, 1);
    DescendsTransitive(sha, run, h, s.block.parentHash, a, 1, hops);
    k := 1 + hops;
  }

  /** In the three views of the chain, its own blocks are certified. */
  lemma {:induction false} ChainCertsDescend(sha: Sha, run: Run, verify: Verifier,
      bStar: Block, bDouble: Block, bPrime: Block, b: Block, qc: QuorumCert)
    requires Admissible(sha, run, verify)
    requires ThreeChain(sha, run, bStar, bDouble, bPrime, b) && ConsecutiveViews(bStar, bDouble, bPrime)
    requires Cert(run, qc) && bPrime.justify.Some? && bPrime.justify.value.view <= qc.view <= ViewOf(bStar.justify)
    ensures OnBranch(sha, run, qc.blockHash, HashBlock(sha, b))
  {
    var hb := HashBlock(sha, b);
    assert Cert(run, bPrime.justify.value) && Cert(run, bDouble.justify.value) && Cert(run, bStar.justify.value);
    if qc.view == ViewOf(bPrime.justify) {
      CertsMatch(sha, run, verify, qc, bPrime.justify.value);
      assert Descends(sha, run, hb, hb, 0);
    } else if qc.view == ViewOf(bDouble.justify) {
      CertsMatch(sha, run, verify, qc, bDouble.justify.value);
      ParentOnBranch(sha, run, bPrime);
    } else {
      CertsMatch(sha, run, verify, qc, bStar.justify.value);
      ParentOnBranch(sha, run, bPrime);
      ParentOnBranch(sha, run, bDouble);
      BranchTransitive(sha, run, qc.blockHash, HashBlock(sha, bPrime), hb);
    }
  }

  /** A vote rests on a certificate below it that is not older than the lock: the justify, or the lock itself. */
  lemma VoteRests(sha: Sha, run: Run, verify: Verifier, qc: QuorumCert, id: string, i: nat) returns
      (r: QuorumCert, k: nat)
    requires Orderly(sha, run, verify) && Voted(sha, run, id, i, qc.view, qc.blockHash)
    requires SafetyAfter(sha, run.trace[id][..i]).lockedQC.Some?
    ensures Cert(run, r) && r.view >= SafetyAfter(sha, run.trace[id][..i]).lockedQC.value.view
    ensures k >= 1 && Descends(sha, run, qc.blockHash, r.blockHash, k)
  {
    var s := run.trace[id][i];
    var lock := SafetyAfter(sha, run.trace[id][..i]).lockedQC.value;
    assert s.block in run.blocks;
    if ViewOf(s.block.justify) > lock.view {
      r, k := s.block.justify.value, 1;
      assert ParentIsJustified(s.block);
      assert Descends(sha, run, qc.blockHash, qc.blockHash, 0);
    } else {
      LockIsCert(sha, run, verify, id, i);
      r := lock;
      k := ExtendsLock(sha, run, id, i, lock.blockHash);
    }
  }

  ghost function HashesOf(sha: Sha, run: Run): set<Hash> {
    set b | b in run.blocks :: HashBlock(sha, b)
  }

  /** These are hashes of blocks, and all of them descend from h by one link or more. */
  ghost predicate Above(sha: Sha, run: Run, above: set<Hash>, h: Hash) {
    above <= HashesOf(sha, run) && forall g :: g in above ==> exists k: nat :: k >= 1 && Descends(sha, run, g, h, k)
  }

  /** On the way down a branch every hash is new. */
  lemma {:induction false} AboveGrows(sha: Sha, run: Run, above: set<Hash>, h: Hash, a: Hash, k: nat)
    requires NoCycles(sha, run) && Above(sha, run, above, h)
    requires h in HashesOf(sha, run) && k >= 1 && Descends(sha, run, h, a, k)
    ensures h !in above && Above(sha, run, above + {h}, a)
  {
    forall g | g in above
      ensures exists m: nat :: m >= 1 && Descends(sha, run, g, a, m)
    {
      var m: nat :| m >= 1 && Descends(sha, run, g, h, m);
      DescendsTransitive(sha, run, g, h, a, m, k);
      assert Descends(sha, run, g, a, m + k);
    }
  }

  lemma SmallerWithout<T>(all: set<T>, seen: set<T>, x: T)
    requires x in all && x !in seen
    ensures |all - (seen + {x})| < |all - seen|
  {
    assert all - seen == (all - (seen + {x})) + {x};
  }

  /** The induction goes down the branch of the certified block, over hashes not seen above. */
  lemma {:induction false} CertsDescend(sha: Sha, run: Run, verify: Verifier,
      bStar: Block, bDouble: Block, bPrime: Block, b: Block, qc: QuorumCert, above: set<Hash>)
    requires Admissible(sha, run, verify)
    requires ThreeChain(sha, run, bStar, bDouble, bPrime, b) && ConsecutiveViews(bStar, bDouble, bPrime)
    requires Cert(run, qc) && bPrime.justify.Some? && qc.view >= bPrime.justify.value.view
    requires Above(sha, run, above, qc.blockHash)
    ensures OnBranch(sha, run, qc.blockHash, HashBlock(sha, b))
    decreases |HashesOf(sha, run) - above|
  {
    var q2 := bStar.justify.value;
    assert Cert(run, q2);
    if qc.view <= q2.view {
      ChainCertsDescend(sha, run, verify, bStar, bDouble, bPrime, b, qc);
    } else {
      var id, i, i2 := CommonVoter(sha, run, verify, qc, q2);
      VoteLocks(sha, run, verify, bDouble, bPrime, b, id, i2, q2.view);
      assert i2 < i;
      LockMonotoneFrom(sha, run, id, i2 + 1, i);
      var r, k := VoteRests(sha, run, verify, qc, id, i);
      var h := qc.blockHash;
      assert run.trace[id][i].block in run.blocks;
      AboveGrows(sha, run, above, h, r.blockHash, k);
      SmallerWithout(HashesOf(sha, run), above, h);
      CertsDescend(sha, run, verify, bStar, bDouble, bPrime, b, r, above + {h});
      BranchTransitive(sha, run, h, r.blockHash, HashBlock(sha, b));
    }
  }

  /** Every certificate at least as recent as a committed block's certifies a descendant of that block. */
  lemma LaterCertsDescend(sha: Sha, run: Run, verify: Verifier,
      bStar: Block, bDouble: Block, bPrime: Block, b: Block, qc: QuorumCert)
    requires Admissible(sha, run, verify)
    requires ThreeChain(sha, run, bStar, bDouble, bPrime, b) && ConsecutiveViews(bStar, bDouble, bPrime)
    requires Cert(run, qc) && bPrime.justify.Some? && qc.view >= bPrime.justify.value.view
    ensures OnBranch(sha, run, qc.blockHash, HashBlock(sha, b))
  {
    CertsDescend(sha, run, verify, bStar, bDouble, bPrime, b, qc, {});
  }

  /** Any two committed blocks lie on one branch. */
  lemma {:induction false} Agreement(sha: Sha, run: Run, verify: Verifier, b: Block, c: Block)
    requires Admissible(sha, run, verify)
    requires Committed(sha, run, b) && Committed(sha, run, c)
    ensures OnBranch(sha, run, HashBlock(sha, b), HashBlock(sha, c)) ||
            OnBranch(sha, run, HashBlock(sha, c), HashBlock(sha, b))
  {
    var b3, b2, b1 :| ThreeChain(sha, run, b3, b2, b1, b) && ConsecutiveViews(b3, b2, b1);
    var c3, c2, c1 :| ThreeChain(sha, run, c3, c2, c1, c) && ConsecutiveViews(c3, c2, c1);
    var p, q := b1.justify.value, c1.justify.value;
    assert Cert(run, p) && Cert(run, q);
    if p.view <= q.view {
      LaterCertsDescend(sha, run, verify, b3, b2, b1, b, q);
    } else {
      LaterCertsDescend(sha, run, verify, c3, c2, c1, c, p);
    }
  }

  // ---------------------------------------------------------------- the order of commits

  /** Committed blocks are totally ordered: one descends from the other exactly when it was certified no earlier. */
  lemma {:induction false} CommitsFollowViews(sha: Sha, run: Run, verify: Verifier, b: Block, p: QuorumCert, c: Block,
      q: QuorumCert)
    requires Admissible(sha, run, verify)
    requires Committed(sha, run, b) && Cert(run, p) && p.blockHash == HashBlock(sha, b)
    requires Committed(sha, run, c) && Cert(run, q) && q.blockHash == HashBlock(sha, c)
    ensures OnBranch(sha, run, HashBlock(sha, c), HashBlock(sha, b)) <==> p.view <= q.view
  {
    if p.view <= q.view {
      var b3, b2, b1 :| ThreeChain(sha, run, b3, b2, b1, b) && ConsecutiveViews(b3, b2, b1);
      ChildCarriesCert(sha, run, verify, p, b1);
      LaterCertsDescend(sha, run, verify, b3, b2, b1, b, q);
    }
    if OnBranch(sha, run, HashBlock(sha, c), HashBlock(sha, b)) {
      var k: nat :| Descends(sha, run, HashBlock(sha, c), HashBlock(sha, b), k);
      CertsMatch(sha, run, verify, p, q);
      if p.view > q.view {
        var c3, c2, c1 :| ThreeChain(sha, run, c3, c2, c1, c) && ConsecutiveViews(c3, c2, c1);
        ChildCarriesCert(sha, run, verify, q, c1);
        LaterCertsDescend(sha, run, verify, c3, c2, c1, c, p);
        var m: nat :| Descends(sha, run, HashBlock(sha, b), HashBlock(sha, c), m);
        DescendsTransitive(sha, run, HashBlock(sha, b), HashBlock(sha, c), HashBlock(sha, b), m, k);
      }
    }
  }
}
