/** The in-process cluster that also applies membership changes from the blocks it commits. */
module BenchCluster {
  import opened Types
  import opened Encoding
  import opened Committee
  import opened Pipeline
  import opened Delivery
  import opened BenchCore

  datatype BenchState = BenchState(configs: seq<Config>, core: Core, curView: nat, delivered: nat)

  /** Everything not REGULAR, unnamed types included: unlike `ClassifyBatch`. */
  function NonRegular(batch: seq<Request>): seq<Request> {
    if batch == [] then []
    else NonRegular(batch[..|batch| - 1]) + if batch[|batch| - 1].kind == Regular then [] else [batch[|batch| - 1]]
  }

  /** `deliver`: errors leave the configurations as they are. */
  function AfterCommit(configs: seq<Config>, toCommit: Slot, parse: KeyParser): seq<Config> {
    if toCommit == None || toCommit.value.conf >= |configs| || NonRegular(toCommit.value.batch) == [] then configs
    else
      match ApplySpec(configs[toCommit.value.conf], NonRegular(toCommit.value.batch), parse)
      case Err(_) => configs
      case Ok(next) => if next.number == |configs| then configs + [next] else configs
  }

  function LatestOf(configs: seq<Config>): Config
    requires configs != []
  {
    configs[|configs| - 1]
  }

  ghost function AfterBenchRound(env: Env, parse: KeyParser, keys: nat, s: BenchState, batch: seq<Request>): BenchState
    requires s.configs != [] && SignerCount(LatestOf(s.configs), keys) <= |LatestOf(s.configs).replicas|
  {
    var core := AfterRound(env, LatestOf(s.configs), keys, s.core, s.curView, batch);
    var toCommit := Output(env.sha, Fed(core.blocks));
    BenchState(AfterCommit(s.configs, toCommit, parse), core, s.curView + 1, s.delivered + Size(toCommit))
  }

  /** Without a certificate only the proposed block is left in the store. */
  ghost function AfterFailedRound(env: Env, keys: nat, s: BenchState, batch: seq<Request>): BenchState
    requires s.configs != [] && SignerCount(LatestOf(s.configs), keys) <= |LatestOf(s.configs).replicas|
  {
    s.(core := Stored(env.sha, s.core, NextBlock(s.core, LatestOf(s.configs), batch)))
  }

  class BenchCluster {
    const parse: KeyParser
    const configs: ConfigStore
    const core: ClusterCore
    var curView: nat
    var delivered: nat

    ghost predicate Valid()
      reads this, configs, core, core.pipeline, core.pipeline.window
    {
      core.Valid() && configs.configs != []
    }

    ghost function State(): BenchState
      reads this, configs, core
    {
      BenchState(configs.configs, core.State(), curView, delivered)
    }

    constructor (env: Env, parse: KeyParser, replicas: seq<Replica>)
      requires |replicas| >= 4
      ensures Valid() && fresh(configs) && fresh(core) && fresh(core.pipeline) && fresh(core.pipeline.window)
      ensures this.parse == parse && core.env == env && core.keys == |replicas|
      ensures State() == BenchState([NewCommittee(0, replicas)], InitialCore(env.sha, |replicas|), 1, 0)
    {
      this.parse := parse;
      configs := new ConfigStore(NewCommittee(0, replicas));
      core := new ClusterCore(env, |replicas|);
      curView, delivered := 1, 0;
    }

    /** The configurations installed so far stay. */
    method Reset()
      requires Valid()
      modifies this, core, core.pipeline`fed, core.pipeline.window
      ensures Valid()
      ensures State() == BenchState(old(configs.configs), InitialCore(core.env.sha, |old(core.safety)|), 1, 0)
    {
      core.Reset();
      curView, delivered := 1, 0;
    }

    /** The transactions counted, and the membership changes of the block installed. */
    method Deliver(toCommit: Slot) returns (n: nat)
      modifies this`delivered, configs
      ensures n == Size(toCommit) && delivered == old(delivered) + n
      ensures configs.configs == AfterCommit(old(configs.configs), toCommit, parse)
    {
      n := 0;
      if toCommit == None {
        return;
      }
      var block := toCommit.value;
      n := |block.batch|;
      delivered := delivered + n;
      var mc := configs.AtNumber(block.conf);
      if mc.Err? {
        return;
      }
      var memReqs: seq<Request> := [];
      for i := 0 to |block.batch|
        invariant memReqs == NonRegular(block.batch[..i])
      {
        assert block.batch[..i + 1][..i] == block.batch[..i];
        if block.batch[i].kind != Regular {
          memReqs := memReqs + [block.batch[i]];
        }
      }
      assert block.batch[..|block.batch|] == block.batch;
      if |memReqs| > 0 {
        var next := Apply(mc.value, memReqs, parse);
        if next.Ok? {
          var err := configs.Install(next.value);
        }
      }
    }

    /** Commits what the window hands out and enters the next view. */
    method Settle(toCommit: Slot) returns (n: nat)
      requires core.Valid()
      modifies this`delivered, this`curView, configs
      ensures core.Valid() && n == Size(toCommit)
      ensures State() == BenchState(AfterCommit(old(configs.configs), toCommit, parse), old(core.State()),
                                    old(curView) + 1, old(delivered) + n)
    {
      n := Deliver(toCommit);
      curView := curView + 1;
    }

    method RunRound(batch: seq<Request>) returns (ok: bool, txDelivered: nat)
      requires Valid() && SignerCount(configs.Latest(), core.keys) <= |configs.Latest().replicas|
      modifies this, configs, core, core.pipeline`fed, core.pipeline.window
      ensures Valid()
      ensures CanCertify(old(configs.Latest()), core.keys) ==> ok
      ensures ok ==> State() == AfterBenchRound(core.env, parse, core.keys, old(State()), batch)
      ensures !ok ==> txDelivered == 0 && State() == AfterFailedRound(core.env, core.keys, old(State()), batch)
      ensures ok ==> delivered == old(delivered) + txDelivered
    {
      ghost var s := State();
      var mc := configs.Latest();
      var toCommit: Slot;
      ok, toCommit := core.Round(mc, curView, batch);
      ghost var after := core.State();
      assert after == AfterRound(core.env, LatestOf(s.configs), core.keys, s.core, s.curView, batch);
      txDelivered := 0;
      if ok {
        assert toCommit == Output(core.env.sha, Fed(after.blocks));
        txDelivered := Settle(toCommit);
        assert State() == BenchState(AfterCommit(s.configs, toCommit, parse), after, s.curView + 1,
                                     s.delivered + Size(toCommit));
      }
    }
  }

  // ---------------------------------------------------------------- membership changes

  lemma {:induction false} NonRegularIsMembership(batch: seq<Request>)
    requires forall r :: r in batch ==> KnownKind(r)
    ensures NonRegular(batch) == MembershipPart(batch)
  {
    if batch != [] {
      var init, last := batch[..|batch| - 1], batch[|batch| - 1];
      assert last in batch;
      NonRegularIsMembership(init);
    }
  }

  lemma {:induction false} UnnamedStays(batch: seq<Request>, r: Request)
    requires r in batch && r.kind != Regular
    ensures r in NonRegular(batch)
  {
    var init, last := batch[..|batch| - 1], batch[|batch| - 1];
    if r != last {
      assert batch == init + [last];
      UnnamedStays(init, r);
    }
  }

  /**
   * A committed block of named requests extends the configurations exactly as the engine's deliverer would; one with an
   * unnamed request, which the engine takes for a regular one, leaves them as they are.
   */
  lemma {:induction false} CommitsLikeTheEngine(sha: Sha, parse: KeyParser, v: DeliverVars, block: Block)
    requires HashBlock(sha, block) !in v.delivered
    ensures (forall r :: r in block.batch ==> KnownKind(r)) ==>
              AfterCommit(v.configs, Some(block), parse) == AfterDeliver(sha, parse, v, block).0.configs
    ensures (exists r :: r in block.batch && !KnownKind(r)) ==> AfterCommit(v.configs, Some(block), parse) == v.configs
  {
    if forall r :: r in block.batch ==> KnownKind(r) {
      NonRegularIsMembership(block.batch);
    } else {
      var r :| r in block.batch && !KnownKind(r);
      UnnamedStays(block.batch, r);
      if block.conf < |v.configs| {
        UnknownKindFails(v.configs[block.conf].replicas, NonRegular(block.batch), parse);
      }
    }
  }

  // ---------------------------------------------------------------- runs of regular batches

  ghost predicate RegularOnly(batch: seq<Request>) {
    forall r :: r in batch ==> r.kind == Regular
  }

  lemma {:induction false} RegularLeavesNothing(batch: seq<Request>)
    requires RegularOnly(batch)
    ensures NonRegular(batch) == []
  {
    if batch != [] {
      RegularLeavesNothing(batch[..|batch| - 1]);
      assert batch[|batch| - 1] in batch;
    }
  }

  ghost predicate AllRegular(batches: seq<seq<Request>>) {
    forall i :: 0 <= i < |batches| ==> RegularOnly(batches[i])
  }

  ghost predicate RegularBlocks(blocks: seq<Block>) {
    blocks == [] || (RegularBlocks(blocks[..|blocks| - 1]) && RegularOnly(blocks[|blocks| - 1].batch))
  }

  lemma {:induction false} RegularBlockAt(blocks: seq<Block>, i: nat)
    requires RegularBlocks(blocks) && i < |blocks|
    ensures RegularOnly(blocks[i].batch)
  {
    if i < |blocks| - 1 {
      RegularBlockAt(blocks[..|blocks| - 1], i);
    }
  }

  /** Transactions proposed in the first t rounds. */
  function TotalOf(batches: seq<seq<Request>>, t: nat): nat
    requires t <= |batches|
  {
    if t == 0 then 0 else TotalOf(batches, t - 1) + |batches[t - 1]|
  }

  /** The committee never changes, the chain stays healthy, and delivered plus windowed is all that was proposed. */
  ghost predicate BenchInOrder(env: Env, c: Config, s: BenchState, rounds: nat, proposed: nat) {
    && s.configs == [c]
    && Accounted(env.sha, s.core, s.curView, s.delivered, proposed)
    && RegularBlocks(s.core.blocks)
    && s.curView == s.core.curHeight == 1 + rounds
  }

  ghost predicate BenchStep(env: Env, parse: KeyParser, keys: nat, s: BenchState, batch: seq<Request>, s': BenchState) {
    && s.configs != []
    && SignerCount(LatestOf(s.configs), keys) <= |LatestOf(s.configs).replicas|
    && s' == AfterBenchRound(env, parse, keys, s, batch)
  }

  /** Committing a block of regular requests changes no configuration. */
  lemma {:induction false} RegularCommit(configs: seq<Config>, toCommit: Slot, parse: KeyParser)
    requires toCommit.Some? ==> NonRegular(toCommit.value.batch) == []
    ensures AfterCommit(configs, toCommit, parse) == configs
  {
  }

  lemma OutputIsRegular(sha: Sha, blocks: seq<Block>)
    requires RegularBlocks(blocks)
    ensures Output(sha, Fed(blocks)).Some? ==> NonRegular(Output(sha, Fed(blocks)).value.batch) == []
  {
    if Output(sha, Fed(blocks)).Some? {
      RegularBlockAt(blocks, |blocks| - 5);
      RegularLeavesNothing(blocks[|blocks| - 5].batch);
    }
  }

  lemma BenchStepInOrder(env: Env, parse: KeyParser, c: Config, keys: nat, s: BenchState, batch: seq<Request>,
      s': BenchState, rounds: nat, proposed: nat)
    requires CanCertify(c, keys) && RegularOnly(batch) && BenchInOrder(env, c, s, rounds, proposed)
    requires BenchStep(env, parse, keys, s, batch, s')
    ensures BenchInOrder(env, c, s', rounds + 1, proposed + |batch|)
  {
    RoundStaysAccounted(env, c, keys, s.core, s.curView, batch, s.delivered, proposed);
    var blocks := s'.core.blocks;
    assert blocks[..|blocks| - 1] == s.core.blocks;
    OutputIsRegular(env.sha, blocks);
    RegularCommit(s.configs, Output(env.sha, Fed(blocks)), parse);
  }

  /** The state after running these batches on a fresh cluster. */
  ghost predicate BenchRun(env: Env, parse: KeyParser, c: Config, keys: nat, states: seq<BenchState>,
      batches: seq<seq<Request>>) {
    && |states| == |batches| + 1
    && states[0] == BenchState([c], InitialCore(env.sha, keys), 1, 0)
    && forall t {:trigger batches[t]} :: 0 <= t < |batches| ==>
         BenchStep(env, parse, keys, states[t], batches[t], states[t + 1])
  }

  lemma {:induction false} BenchStartsInOrder(env: Env, parse: KeyParser, c: Config, keys: nat,
      states: seq<BenchState>, batches: seq<seq<Request>>)
    requires BenchRun(env, parse, c, keys, states, batches)
    ensures BenchInOrder(env, c, states[0], 0, TotalOf(batches, 0))
  {
    InitiallyHealthy(env.sha, keys, 1);
  }

  lemma {:induction false} BenchRoundInOrder(env: Env, parse: KeyParser, c: Config, keys: nat, states: seq<BenchState>,
      batches: seq<seq<Request>>, t: nat)
    requires BenchRun(env, parse, c, keys, states, batches) && CanCertify(c, keys) && t < |batches|
    requires AllRegular(batches)
    requires BenchInOrder(env, c, states[t], t, TotalOf(batches, t))
    ensures BenchInOrder(env, c, states[t + 1], t + 1, TotalOf(batches, t + 1))
  {
    var s, s', before := states[t], states[t + 1], TotalOf(batches, t);
    BenchStepInOrder(env, parse, c, keys, s, batches[t], s', t, before);
  }

  lemma {:induction false} BenchStaysInOrder(env: Env, parse: KeyParser, c: Config, keys: nat, states: seq<BenchState>,
      batches: seq<seq<Request>>, t: nat)
    requires BenchRun(env, parse, c, keys, states, batches) && CanCertify(c, keys) && t <= |batches|
    requires AllRegular(batches)
    ensures BenchInOrder(env, c, states[t], t, TotalOf(batches, t))
  {
    BenchStartsInOrder(env, parse, c, keys, states, batches);
    for k := 0 to t
      invariant BenchInOrder(env, c, states[k], k, TotalOf(batches, k))
    {
      BenchRoundInOrder(env, parse, c, keys, states, batches, k);
    }
  }

  /** Delivered transactions plus those in the window are those proposed. */
  lemma {:induction false} BenchConserves(env: Env, parse: KeyParser, c: Config, keys: nat, states: seq<BenchState>,
      batches: seq<seq<Request>>, t: nat)
    requires BenchRun(env, parse, c, keys, states, batches) && CanCertify(c, keys) && t <= |batches|
    requires AllRegular(batches)
    ensures states[t].delivered + InWindow(states[t].core.blocks) == TotalOf(batches, t)
  {
    BenchStaysInOrder(env, parse, c, keys, states, batches, t);
    NothingLost(env.sha, states[t].core.blocks);
  }

  /** The t blocks of a run carry its batches, in order, at heights 1 to t, all of the genesis configuration. */
  ghost predicate Carries(c: Config, blocks: seq<Block>, batches: seq<seq<Request>>, t: nat)
    requires t <= |batches|
  {
    && |blocks| == t
    && forall i :: 0 <= i < t ==>
         blocks[i].batch == batches[i] && blocks[i].height == i + 1 && blocks[i].conf == c.number
  }

  lemma {:induction false} StepCarries(env: Env, parse: KeyParser, c: Config, keys: nat, s: BenchState,
      batch: seq<Request>, s': BenchState, rounds: nat, proposed: nat)
    requires CanCertify(c, keys) && BenchInOrder(env, c, s, rounds, proposed)
    requires BenchStep(env, parse, keys, s, batch, s') && |s.core.blocks| == rounds
    ensures |s'.core.blocks| == rounds + 1 && s'.core.blocks[..rounds] == s.core.blocks
    ensures var b := s'.core.blocks[rounds]; b.batch == batch && b.height == rounds + 1 && b.conf == c.number
  {
    RoundProposes(env, c, keys, s.core, s.curView, batch);
  }

  lemma {:induction false} CarriesNext(c: Config, blocks: seq<Block>, batches: seq<seq<Request>>, t: nat,
      blocks': seq<Block>)
    requires t < |batches| && Carries(c, blocks, batches, t)
    requires |blocks'| == t + 1 && blocks'[..t] == blocks
    requires blocks'[t].batch == batches[t] && blocks'[t].height == t + 1 && blocks'[t].conf == c.number
    ensures Carries(c, blocks', batches, t + 1)
  {
    forall i | 0 <= i < t
      ensures blocks'[i].batch == batches[i] && blocks'[i].height == i + 1 && blocks'[i].conf == c.number
    {
      assert blocks'[i] == blocks[i];
    }
  }

  lemma {:induction false} BenchCarries(env: Env, parse: KeyParser, c: Config, keys: nat, states: seq<BenchState>,
      batches: seq<seq<Request>>, t: nat)
    requires BenchRun(env, parse, c, keys, states, batches) && CanCertify(c, keys) && t <= |batches|
    requires AllRegular(batches)
    ensures Carries(c, states[t].core.blocks, batches, t)
  {
    for k := 0 to t
      invariant Carries(c, states[k].core.blocks, batches, k)
    {
      BenchStaysInOrder(env, parse, c, keys, states, batches, k);
      StepCarries(env, parse, c, keys, states[k], batches[k], states[k + 1], k, TotalOf(batches, k));
      CarriesNext(c, states[k].core.blocks, batches, k, states[k + 1].core.blocks);
    }
  }

  /** A cluster of four or more distinct replicas with a key each can always certify. */
  lemma {:induction false} FourCanCertify(replicas: seq<Replica>)
    requires Distinct(Ids(replicas)) && |replicas| >= 4
    ensures CanCertify(NewCommittee(0, replicas), |replicas|)
  {
    QuorumArithmetic(0, replicas);
  }
}
