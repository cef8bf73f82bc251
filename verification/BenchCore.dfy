/** The consensus round both bench clusters run in process: propose, sign, certify, lock, commit. */
module BenchCore {
  import opened Types
  import opened Encoding
  import opened Committee
  import opened Quorum
  import opened Ancestry
  import opened Safety
  import opened Pipeline

  /** The digest, and replica i's signature over (view, configuration, block hash); signing does not fail. */
  datatype Env = Env(sha: Sha, sign: (nat, nat, nat, Hash) -> Bytes)

  const ZEROS: Bytes := [0, 0, 0, 0, 0, 0, 0, 0]
  const GENESIS := Block(ZEROS + ZEROS + ZEROS + ZEROS, [], None, 0, 0)

  /** `blocks` lists the proposals so far; the commit window holds the last four of them. */
  datatype Core = Core(
    safety: seq<SafetyVars>,
    blocks: seq<Block>,
    chain: Store,
    curHeight: nat,
    genericQC: QuorumCert,
    lastHash: Hash)

  function GenesisQC(sha: Sha): QuorumCert {
    QuorumCert(0, 0, HashBlock(sha, GENESIS), [], [])
  }

  function InitialCore(sha: Sha, n: nat): Core {
    Core(seq(n, _ => SafetyVars(None, Some(GenesisQC(sha)))), [], map[HashBlock(sha, GENESIS) := GENESIS], 1,
         GenesisQC(sha), HashBlock(sha, GENESIS))
  }

  function SignerCount(c: Config, keys: nat): nat {
    if keys < c.QuorumSize() then keys else c.QuorumSize()
  }

  function RoundVotes(env: Env, c: Config, keys: nat, view: nat, hash: Hash): seq<Vote>
    requires SignerCount(c, keys) <= |c.replicas|
  {
    seq(SignerCount(c, keys), i requires 0 <= i < SignerCount(c, keys) =>
      Vote(view, c.number, hash, env.sign(i, view, c.number, hash), c.replicas[i].id))
  }

  function NextBlock(core: Core, c: Config, batch: seq<Request>): Block {
    Block(core.lastHash, batch, Some(core.genericQC), core.curHeight, c.number)
  }

  function Stored(sha: Sha, core: Core, block: Block): Core {
    core.(chain := core.chain[HashBlock(sha, block) := block])
  }

  /** The certificate of a round; None is the error return of `RunRound`. */
  function RoundQC(env: Env, c: Config, keys: nat, view: nat, hash: Hash): Option<QuorumCert>
    requires SignerCount(c, keys) <= |c.replicas|
  {
    match Certificate(AggregateAll(RoundVotes(env, c, keys, view, hash)), c)
    case None => None
    case Some(qc) => Some(qc.(view := view))
  }

  ghost function VoteAndLock(sha: Sha, s: SafetyVars, block: Block, qc: QuorumCert, chain: Store): SafetyVars {
    if !SafeNode(s, block, block.justify, chain) then s
    else if block.parentHash in chain && block.parentHash == HashBlock(sha, chain[block.parentHash])
    then SafetyVars(block.justify, Some(qc))
    else s.(genericQC := Some(qc))
  }

  ghost function VoteAll(sha: Sha, safety: seq<SafetyVars>, block: Block, qc: QuorumCert,
      chain: Store): (r: seq<SafetyVars>)
    ensures |r| == |safety|
  {
    if safety == [] then []
    else
      VoteAll(sha, safety[..|safety| - 1], block, qc, chain) +
      [VoteAndLock(sha, safety[|safety| - 1], block, qc, chain)]
  }

  lemma {:induction false} VoteAllAt(sha: Sha, safety: seq<SafetyVars>, block: Block, qc: QuorumCert, chain: Store,
      i: nat)
    requires i < |safety|
    ensures VoteAll(sha, safety, block, qc, chain)[i] == VoteAndLock(sha, safety[i], block, qc, chain)
  {
    if i < |safety| - 1 {
      VoteAllAt(sha, safety[..|safety| - 1], block, qc, chain, i);
    }
  }

  ghost function AfterRound(env: Env, c: Config, keys: nat, core: Core, view: nat, batch: seq<Request>): Core
    requires SignerCount(c, keys) <= |c.replicas|
  {
    var block := NextBlock(core, c, batch);
    var core1 := Stored(env.sha, core, block);
    match RoundQC(env, c, keys, view, HashBlock(env.sha, block))
    case None => core1
    case Some(qc) =>
      Core(VoteAll(env.sha, core.safety, block, qc, core1.chain),
           core.blocks + [block], core1.chain, core.curHeight + 1, qc, HashBlock(env.sha, block))
  }

  // ---------------------------------------------------------------- the class

  class ClusterCore {
    const env: Env
    const keys: nat
    const pipeline: PipelineState
    var safety: seq<SafetyVars>
    var chain: Store
    var curHeight: nat
    var genericQC: QuorumCert
    var lastHash: Hash
    ghost var blocks: seq<Block>

    ghost predicate Valid()
      reads this, pipeline, pipeline.window
    {
      pipeline.Valid() && pipeline.fed == Fed(blocks)
    }

    ghost function State(): Core
      reads this
    {
      Core(safety, blocks, chain, curHeight, genericQC, lastHash)
    }

    constructor (env: Env, n: nat)
      ensures Valid() && fresh(pipeline) && fresh(pipeline.window)
      ensures this.env == env && keys == n && State() == InitialCore(env.sha, n)
    {
      this.env, keys := env, n;
      pipeline := new PipelineState();
      var hash := HashBlock(env.sha, GENESIS);
      safety := seq(n, _ => SafetyVars(None, Some(GenesisQC(env.sha))));
      chain := map[hash := GENESIS];
      curHeight, genericQC, lastHash := 1, GenesisQC(env.sha), hash;
      blocks := [];
    }

    method Reset()
      requires Valid()
      modifies this, pipeline`fed, pipeline.window
      ensures Valid() && State() == InitialCore(env.sha, |old(safety)|)
    {
      pipeline.Reset();
      curHeight := 1;
      var hash := HashBlock(env.sha, GENESIS);
      chain := map[hash := GENESIS];
      genericQC, lastHash := GenesisQC(env.sha), hash;
      var qc := genericQC;
      safety := seq(|safety|, _ => SafetyVars(None, Some(qc)));
      blocks := [];
    }

    /** The sign phase, then the votes folded through the aggregator. */
    method Certify(c: Config, view: nat, hash: Hash) returns (qc: Option<QuorumCert>)
      requires SignerCount(c, keys) <= |c.replicas|
      ensures qc == RoundQC(env, c, keys, view, hash)
      ensures CanCertify(c, keys) ==> qc.Some?
    {
      if CanCertify(c, keys) {
        RoundCertifies(env, c, keys, view, hash);
      }
      var qSize := c.QuorumSize();
      ghost var all := RoundVotes(env, c, keys, view, hash);
      var votes: seq<Vote> := [];
      var i := 0;
      while i < qSize && i < keys
        invariant 0 <= i <= SignerCount(c, keys) && votes == all[..i]
      {
        var sig := env.sign(i, view, c.number, hash);
        votes := votes + [Vote(view, c.number, hash, sig, c.replicas[i].id)];
        i := i + 1;
      }
      assert votes == all;
      var acc: seq<Vote> := [];
      for k := 0 to |votes|
        invariant acc == AggregateAll(votes[..k])
      {
        assert votes[..k + 1][..k] == votes[..k];
        acc := AggregateVotes(acc, votes[k]);
      }
      assert votes[..|votes|] == votes;
      qc := CreateQC(acc, c);
      if qc.Some? {
        qc := Some(qc.value.(view := view));
      }
    }

    method UpdateSafety(block: Block, qc: QuorumCert)
      modifies this`safety
      ensures safety == VoteAll(env.sha, old(safety), block, qc, chain)
    {
      ghost var before := safety;
      for i := 0 to |safety|
        invariant |safety| == |before| && safety[i..] == before[i..]
        invariant safety[..i] == VoteAll(env.sha, before[..i], block, qc, chain)
      {
        assert before[..i + 1][..i] == before[..i];
        assert safety[i] == safety[i..][0] == before[i];
        var s := safety[i];
        var safe := IsSafe(s, block, block.justify, chain);
        if safe {
          s := s.(genericQC := Some(qc));
          if block.parentHash in chain {
            var parent := chain[block.parentHash];
            if block.parentHash == HashBlock(env.sha, parent) {
              s := s.(lockedQC := block.justify);
            }
          }
          safety := safety[i := s];
        }
      }
      assert safety[..|before|] == safety && before[..|before|] == before;
    }

    /** `safeNode` with the walk of repbench. */
    static method IsSafe(s: SafetyVars, node: Block, qc: Option<QuorumCert>, store: Store) returns (safe: bool)
      ensures safe <==> SafeNode(s, node, qc, store)
    {
      if s.lockedQC == None {
        return true;
      }
      if ViewOf(qc) > s.lockedQC.value.view {
        return true;
      }
      safe := ExtendsPlain(store, node.parentHash, s.lockedQC.value.blockHash);
    }

    method Round(c: Config, view: nat, batch: seq<Request>) returns (ok: bool, toCommit: Slot)
      requires Valid() && SignerCount(c, keys) <= |c.replicas|
      modifies this, pipeline`fed, pipeline.window
      ensures Valid() && State() == AfterRound(env, c, keys, old(State()), view, batch)
      ensures ok <==> RoundQC(env, c, keys, view, HashBlock(env.sha, NextBlock(old(State()), c, batch))).Some?
      ensures CanCertify(c, keys) ==> ok
      ensures toCommit == if ok then Output(env.sha, Fed(blocks)) else None
      ensures ok ==> curHeight == old(curHeight) + 1
    {
      var block := Block(lastHash, batch, Some(genericQC), curHeight, c.number);
      var hash := HashBlock(env.sha, block);
      chain := chain[hash := block];
      var qc := Certify(c, view, hash);
      if qc == None {
        return false, None;
      }
      UpdateSafety(block, qc.value);
      toCommit := pipeline.Advance(env.sha, Some(block));
      blocks := blocks + [block];
      assert pipeline.fed == Fed(blocks);
      genericQC := qc.value;
      lastHash := hash;
      curHeight := curHeight + 1;
      ok := true;
    }
  }

  // ---------------------------------------------------------------- what every round keeps

  /**
   * The chain is linked, the generic QC certifies its last block, and every replica is locked on that block's parent.
   */
  ghost predicate Healthy(sha: Sha, core: Core, view: nat) {
    && LinkedRun(sha, core.blocks)
    && core.lastHash == HashBlock(sha, if core.blocks == [] then GENESIS else core.blocks[|core.blocks| - 1])
    && core.genericQC.blockHash == core.lastHash
    && core.genericQC.view < view
    && core.lastHash in core.chain
    && (forall h :: h in core.chain ==> HashBlock(sha, core.chain[h]) == h)
    && core.curHeight == |core.blocks| + 1
    && (forall s :: s in core.safety ==> Locked(core, s))
  }

  ghost predicate Locked(core: Core, s: SafetyVars) {
    && s.genericQC == Some(core.genericQC)
    && if core.blocks == [] then s.lockedQC == None
       else
         && s.lockedQC.Some?
         && s.lockedQC.value.blockHash == core.blocks[|core.blocks| - 1].parentHash
         && s.lockedQC.value.view < core.genericQC.view
  }

  /** Enough keys to sign, distinct members: the premises a cluster of n >= 4 replicas meets. */
  ghost predicate CanCertify(c: Config, keys: nat) {
    Distinct(Ids(c.replicas)) && c.QuorumSize() <= keys && c.QuorumSize() <= |c.replicas|
  }

  lemma {:induction false} InitiallyHealthy(sha: Sha, n: nat, view: nat)
    requires view >= 1
    ensures Healthy(sha, InitialCore(sha, n), view)
  {
  }

  /** The votes of a round come from different members, and there are enough of them. */
  lemma {:induction false} RoundVotesDiffer(env: Env, c: Config, keys: nat, view: nat, hash: Hash)
    requires CanCertify(c, keys)
    ensures var votes := RoundVotes(env, c, keys, view, hash);
            Distinct(Signers(votes)) && |votes| == c.QuorumSize() && (votes != [] ==> votes[0].blockHash == hash)
  {
    var votes := RoundVotes(env, c, keys, view, hash);
    assert forall i :: 0 <= i < |votes| ==> Signers(votes)[i] == Ids(c.replicas)[i];
  }

  /** `CreateQC` does not fail. */
  lemma {:induction false} RoundCertifies(env: Env, c: Config, keys: nat, view: nat, hash: Hash)
    requires CanCertify(c, keys)
    ensures RoundQC(env, c, keys, view, hash).Some?
    ensures RoundQC(env, c, keys, view, hash).value.view == view
    ensures RoundQC(env, c, keys, view, hash).value.blockHash == hash
  {
    RoundVotesDiffer(env, c, keys, view, hash);
    DistinctVotesCertify(RoundVotes(env, c, keys, view, hash), c);
  }

  /** Every replica accepts the next block, whose justify is newer than its lock. */
  lemma {:induction false} EveryReplicaAccepts(sha: Sha, core: Core, view: nat, c: Config, batch: seq<Request>,
      s: SafetyVars, chain: Store)
    requires Healthy(sha, core, view) && s in core.safety
    ensures SafeNode(s, NextBlock(core, c, batch), NextBlock(core, c, batch).justify, chain)
  {
    assert Locked(core, s);
  }

  lemma {:induction false} RoundStaysHealthy(env: Env, c: Config, keys: nat, core: Core, view: nat, batch: seq<Request>)
    requires CanCertify(c, keys) && Healthy(env.sha, core, view)
    ensures var core' := AfterRound(env, c, keys, core, view, batch);
            Healthy(env.sha, core', view + 1) && core'.blocks == core.blocks + [NextBlock(core, c, batch)]
  {
    var block := NextBlock(core, c, batch);
    var hash := HashBlock(env.sha, block);
    RoundCertifies(env, c, keys, view, hash);
    var core' := AfterRound(env, c, keys, core, view, batch);
    var qc := core'.genericQC;
    forall s | s in core'.safety
      ensures Locked(core', s)
    {
      var i :| 0 <= i < |core.safety| && core'.safety[i] == s;
      assert core.safety[i] in core.safety;
      VoteAllAt(env.sha, core.safety, block, qc, core'.chain, i);
      EveryReplicaAccepts(env.sha, core, view, c, batch, core.safety[i], core'.chain);
      assert block.parentHash in core'.chain;
      assert s == SafetyVars(block.justify, Some(qc));
    }
    forall i | 1 <= i < |core'.blocks|
      ensures Follows(env.sha, core'.blocks, i)
    {
      assert i < |core.blocks| ==> Follows(env.sha, core.blocks, i);
    }
  }

  /** What a round proposes: a child of the last block that certifies it, one higher, of this configuration. */
  lemma {:induction false} RoundProposes(env: Env, c: Config, keys: nat, core: Core, view: nat, batch: seq<Request>)
    requires CanCertify(c, keys) && Healthy(env.sha, core, view)
    ensures var blocks := AfterRound(env, c, keys, core, view, batch).blocks;
            && |blocks| == |core.blocks| + 1 && blocks[..|core.blocks|] == core.blocks
            && var b := blocks[|core.blocks|];
               && b.parentHash ==
                  HashBlock(env.sha, if core.blocks == [] then GENESIS else core.blocks[|core.blocks| - 1])
               && b.justify.Some? && b.justify.value.blockHash == b.parentHash && b.justify.value.view < view
               && b.height == |core.blocks| + 1 && b.conf == c.number && b.batch == batch
  {
    RoundStaysHealthy(env, c, keys, core, view, batch);
  }

  lemma {:induction false} RoundFailsIff(env: Env, c: Config, keys: nat, view: nat, hash: Hash)
    requires Distinct(Ids(c.replicas)) && c.QuorumSize() <= |c.replicas|
    ensures RoundQC(env, c, keys, view, hash) == None <==> keys < c.QuorumSize()
  {
    if keys >= c.QuorumSize() {
      RoundCertifies(env, c, keys, view, hash);
    } else {
      var votes := RoundVotes(env, c, keys, view, hash);
      AggregationIsTransparent(votes, c);
      FirstVotesFacts(votes);
    }
  }

  /**
   * A round without a certificate leaves only its block behind, stored under its hash, and the round that repeats it
   * with any number of keys ends as if it had never been.
   */
  lemma {:induction false} FailedRoundLeavesBlock(env: Env, c: Config, keys: nat, core: Core, view: nat,
      batch: seq<Request>, keys': nat) returns (b: Block)
    requires Distinct(Ids(c.replicas)) && keys < c.QuorumSize() <= |c.replicas|
    ensures var core' := AfterRound(env, c, keys, core, view, batch);
            && core' == core.(chain := core'.chain) && core'.chain == core.chain[HashBlock(env.sha, b) := b]
            && AfterRound(env, c, keys', core', view, batch) == AfterRound(env, c, keys', core, view, batch)
    ensures b.parentHash == core.lastHash && b.batch == batch && b.height == core.curHeight && b.conf == c.number
    ensures b.justify == Some(core.genericQC)
  {
    b := NextBlock(core, c, batch);
    RoundFailsIff(env, c, keys, view, HashBlock(env.sha, b));
    assert Stored(env.sha, Stored(env.sha, core, b), b) == Stored(env.sha, core, b);
  }

  lemma {:induction false} SignedByMembers(env: Env, c: Config, keys: nat, view: nat, hash: Hash, verify: Verifier)
    requires CanCertify(c, keys)
    requires forall i :: 0 <= i < c.QuorumSize() ==> verify(c.replicas[i].key, hash, env.sign(i, view, c.number, hash))
    ensures forall v :: v in RoundVotes(env, c, keys, view, hash) ==>
              && v.blockHash == hash && v.conf == c.number && c.Contains(v.signer)
              && verify(Find(c.replicas, v.signer).value.key, v.blockHash, v.sig)
  {
    var votes := RoundVotes(env, c, keys, view, hash);
    forall i | 0 <= i < |votes|
      ensures Find(c.replicas, votes[i].signer) == Some(c.replicas[i])
    {
      FindDistinct(c.replicas, i);
    }
  }

  /** Where the members' signatures over view, configuration and hash verify, the round's certificate is valid. */
  lemma {:induction false} RoundCertificateIsValid(env: Env, c: Config, keys: nat, view: nat, hash: Hash,
      verify: Verifier)
    requires CanCertify(c, keys)
    requires forall i :: 0 <= i < c.QuorumSize() ==> verify(c.replicas[i].key, hash, env.sign(i, view, c.number, hash))
    ensures var qc := RoundQC(env, c, keys, view, hash);
            && qc.Some? && ValidQC(qc.value, c, verify)
            && qc.value.view == view && qc.value.conf == c.number && qc.value.blockHash == hash
  {
    var votes := RoundVotes(env, c, keys, view, hash);
    RoundCertifies(env, c, keys, view, hash);
    SignedByMembers(env, c, keys, view, hash, verify);
    AggregationIsTransparent(votes, c);
    assert votes[0] in votes;
    CreatedCertificateIsValid(votes, c, verify);
  }

  /**
   * What a certified round does to replica i in any cluster, healthy or not: if the block is not safe for it, nothing;
   * else it adopts the new certificate, and locks on the block's justify if the parent is stored under its hash.
   */
  lemma {:induction false} ReplicaAfterRound(env: Env, c: Config, keys: nat, core: Core, view: nat, batch: seq<Request>,
      i: nat)
    requires SignerCount(c, keys) <= |c.replicas| && i < |core.safety|
    ensures var core' := AfterRound(env, c, keys, core, view, batch);
            |core'.blocks| > |core.blocks| ==>
              var b, s := core'.blocks[|core.blocks|], core.safety[i];
              && |core'.safety| == |core.safety|
              && var s' := core'.safety[i];
                 if !SafeNode(s, b, b.justify, core'.chain) then s' == s
                 else
                   && s'.genericQC == Some(core'.genericQC)
                   && s'.lockedQC ==
                        if b.parentHash in core'.chain && HashBlock(env.sha, core'.chain[b.parentHash]) == b.parentHash
                        then b.justify else s.lockedQC
  {
    var block := NextBlock(core, c, batch);
    var core' := AfterRound(env, c, keys, core, view, batch);
    if core'.blocks != core.blocks {
      VoteAllAt(env.sha, core.safety, block, core'.genericQC, core'.chain, i);
    }
  }

  // ---------------------------------------------------------------- conservation of transactions

  function Total(blocks: seq<Block>): nat {
    if blocks == [] then 0 else Total(blocks[..|blocks| - 1]) + |blocks[|blocks| - 1].batch|
  }

  /** Transactions still in the commit window. */
  function InWindow(blocks: seq<Block>): nat {
    Total(if |blocks| <= 4 then blocks else blocks[|blocks| - 4..])
  }

  lemma {:induction false} TotalSplit(a: seq<Block>, b: seq<Block>)
    ensures Total(a + b) == Total(a) + Total(b)
  {
    if b == [] {
      assert a + b == a;
    } else {
      assert (a + b)[..|a + b| - 1] == a + b[..|b| - 1];
      TotalSplit(a, b[..|b| - 1]);
    }
  }

  lemma {:induction false} TotalAppend(a: seq<Block>, b: Block)
    ensures Total(a + [b]) == Total(a) + |b.batch|
  {
    assert (a + [b])[..|a + [b]| - 1] == a;
  }

  /** On a linked chain, what the window handed out and what it still holds is everything proposed. */
  lemma {:induction false} NothingLost(sha: Sha, blocks: seq<Block>)
    requires LinkedRun(sha, blocks)
    ensures Total(Outputs(sha, Fed(blocks))) + InWindow(blocks) == Total(blocks)
  {
    LinkedRunComesOut(sha, blocks);
    if |blocks| > 4 {
      TotalSplit(blocks[..|blocks| - 4], blocks[|blocks| - 4..]);
      assert blocks[..|blocks| - 4] + blocks[|blocks| - 4..] == blocks;
    }
  }

  function Size(slot: Slot): nat {
    match slot
    case None => 0
    case Some(b) => |b.batch|
  }

  lemma OutputsGrow(sha: Sha, blocks: seq<Block>, block: Block)
    ensures Total(Outputs(sha, Fed(blocks + [block]))) ==
            Total(Outputs(sha, Fed(blocks))) + Size(Output(sha, Fed(blocks + [block])))
  {
    var fed := Fed(blocks + [block]);
    assert fed[..|fed| - 1] == Fed(blocks);
    var out, before := Output(sha, fed), Outputs(sha, Fed(blocks));
    if out.Some? {
      assert (before + [out.value])[..|before + [out.value]| - 1] == before;
    } else {
      assert before + [] == before;
    }
  }

  /** Healthy, with `delivered` the transactions handed out and `proposed` those ever put in a block. */
  ghost predicate Accounted(sha: Sha, core: Core, view: nat, delivered: nat, proposed: nat) {
    && Healthy(sha, core, view)
    && delivered == Total(Outputs(sha, Fed(core.blocks)))
    && Total(core.blocks) == proposed
  }

  lemma RoundStaysAccounted(env: Env, c: Config, keys: nat, core: Core, view: nat, batch: seq<Request>,
      delivered: nat, proposed: nat)
    requires CanCertify(c, keys) && Accounted(env.sha, core, view, delivered, proposed)
    ensures var core' := AfterRound(env, c, keys, core, view, batch);
            && Accounted(env.sha, core', view + 1, delivered + Size(Output(env.sha, Fed(core'.blocks))),
                         proposed + |batch|)
            && core'.blocks == core.blocks + [NextBlock(core, c, batch)]
  {
    RoundStaysHealthy(env, c, keys, core, view, batch);
    OutputsGrow(env.sha, core.blocks, NextBlock(core, c, batch));
    TotalAppend(core.blocks, NextBlock(core, c, batch));
  }
}
