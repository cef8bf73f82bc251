/** The append-only log of configurations and the delivery of committed blocks into it. */
module Delivery {
  import opened Types
  import opened Encoding
  import opened Committee

  // ---------------------------------------------------------------- configuration log

  datatype StoreError = NotFound | OutOfOrder

  class ConfigStore {
    var configs: seq<Config>

    constructor (genesis: Config)
      ensures configs == [genesis]
    {
      configs := [genesis];
    }

    function Latest(): Config
      reads this
      requires configs != []
    {
      configs[|configs| - 1]
    }

    function AtNumber(number: nat): Result<Config, StoreError>
      reads this
    {
      if number >= |configs| then Err(NotFound) else Ok(configs[number])
    }

    method Install(next: Config) returns (err: Option<StoreError>)
      modifies this
      ensures err == if next.number == |old(configs)| then None else Some(OutOfOrder)
      ensures configs == if err == None then old(configs) + [next] else old(configs)
    {
      if next.number != |configs| {
        return Some(OutOfOrder);
      }
      configs := configs + [next];
      err := None;
    }
  }

  // ---------------------------------------------------------------- one delivery

  /** A request run by the executor, answered to its client under this configuration number. */
  datatype Execution = Execution(req: Request, conf: nat)

  datatype DeliverVars = DeliverVars(delivered: set<Hash>, configs: seq<Config>, log: seq<Execution>)

  datatype DeliverError = UnknownConfig | ApplyFailed(error: ApplyError) | InstallFailed

  function Executions(reqs: seq<Request>, conf: nat): seq<Execution> {
    seq(|reqs|, i requires 0 <= i < |reqs| => Execution(reqs[i], conf))
  }

  /** The membership step of a delivery. */
  function NextConfig(configs: seq<Config>, block: Block, parse: KeyParser): Result<seq<Config>, DeliverError>
    requires block.conf < |configs|
  {
    var reqs := MembershipPart(block.batch);
    if reqs == [] then Ok(configs)
    else
      match ApplySpec(configs[block.conf], reqs, parse)
      case Err(e) => Err(ApplyFailed(e))
      case Ok(next) => if next.number != |configs| then Err(InstallFailed) else Ok(configs + [next])
  }

  /** Regular requests run before the membership step, and stay run when it fails. */
  function AfterDeliver(sha: Sha, parse: KeyParser, v: DeliverVars, block: Block): (DeliverVars, Option<DeliverError>) {
    var key := HashBlock(sha, block);
    if key in v.delivered then (v, None)
    else if block.conf >= |v.configs| then (v, Some(UnknownConfig))
    else
      var ran := v.(log := v.log + Executions(RegularPart(block.batch), block.conf));
      match NextConfig(v.configs, block, parse)
      case Err(e) => (ran, Some(e))
      case Ok(configs) => (ran.(configs := configs, delivered := v.delivered + {key}), None)
  }

  class Deliverer {
    const sha: Sha
    const parse: KeyParser
    const configs: ConfigStore
    var delivered: set<Hash>
    var log: seq<Execution>

    constructor (sha: Sha, parse: KeyParser, configs: ConfigStore)
      ensures this.sha == sha && this.parse == parse && this.configs == configs
      ensures delivered == {} && log == []
    {
      this.sha, this.parse, this.configs := sha, parse, configs;
      delivered, log := {}, [];
    }

    function Vars(): DeliverVars
      reads this, configs
    {
      DeliverVars(delivered, configs.configs, log)
    }

    method Deliver(block: Block) returns (err: Option<DeliverError>)
      modifies this`delivered, this`log, configs
      ensures (Vars(), err) == AfterDeliver(sha, parse, old(Vars()), block)
    {
      var key := HashBlock(sha, block);
      if key in delivered {
        return None;
      }
      var mc := configs.AtNumber(block.conf);
      if mc.Err? {
        return Some(UnknownConfig);
      }
      var regular, membership := ClassifyBatch(block.batch);
      for i := 0 to |regular|
        invariant log == old(log) + Executions(regular, block.conf)[..i]
        invariant delivered == old(delivered) && configs.configs == old(configs.configs)
      {
        log := log + [Execution(regular[i], block.conf)];
      }
      assert Executions(regular, block.conf)[..|regular|] == Executions(regular, block.conf);
      if |membership| > 0 {
        var next := Apply(mc.value, membership, parse);
        if next.Err? {
          return Some(ApplyFailed(next.error));
        }
        var installed := configs.Install(next.value);
        if installed != None {
          return Some(InstallFailed);
        }
      }
      delivered := delivered + {key};
      err := None;
    }
  }

  // ---------------------------------------------------------------- whole runs of deliveries

  function Run(sha: Sha, parse: KeyParser, v: DeliverVars, blocks: seq<Block>): DeliverVars {
    if blocks == [] then v
    else AfterDeliver(sha, parse, Run(sha, parse, v, blocks[..|blocks| - 1]), blocks[|blocks| - 1]).0
  }

  function Start(genesis: Config): DeliverVars {
    DeliverVars({}, [genesis], [])
  }

  /** This call would really deliver: it is neither a duplicate nor a failure. */
  predicate Delivers(sha: Sha, parse: KeyParser, v: DeliverVars, block: Block) {
    HashBlock(sha, block) !in v.delivered && AfterDeliver(sha, parse, v, block).1 == None
  }

  /** The blocks a run of calls delivered, in order. */
  function DeliveredIn(sha: Sha, parse: KeyParser, v: DeliverVars, blocks: seq<Block>): seq<Block> {
    if blocks == [] then []
    else
      var init, last := blocks[..|blocks| - 1], blocks[|blocks| - 1];
      DeliveredIn(sha, parse, v, init) + if Delivers(sha, parse, Run(sha, parse, v, init), last) then [last] else []
  }

  function Hashes(sha: Sha, blocks: seq<Block>): seq<Hash> {
    seq(|blocks|, i requires 0 <= i < |blocks| => HashBlock(sha, blocks[i]))
  }

  /** Integrity: no hash is delivered twice, and the delivered set is exactly what was delivered. */
  lemma {:induction false} DeliveredOnce(sha: Sha, parse: KeyParser, genesis: Config, blocks: seq<Block>)
    ensures Distinct(Hashes(sha, DeliveredIn(sha, parse, Start(genesis), blocks)))
    ensures Run(sha, parse, Start(genesis), blocks).delivered ==
            Elements(Hashes(sha, DeliveredIn(sha, parse, Start(genesis), blocks)))
  {
    if blocks == [] {
      assert Elements(Hashes(sha, [])) == {};
    } else {
      var v, init, last := Start(genesis), blocks[..|blocks| - 1], blocks[|blocks| - 1];
      DeliveredOnce(sha, parse, genesis, init);
      var ds := DeliveredIn(sha, parse, v, init);
      if Delivers(sha, parse, Run(sha, parse, v, init), last) {
        assert Hashes(sha, ds + [last]) == Hashes(sha, ds) + [HashBlock(sha, last)];
        DistinctAppend(Hashes(sha, ds), HashBlock(sha, last));
      } else {
        assert DeliveredIn(sha, parse, v, blocks) == ds;
      }
    }
  }

  /** The configuration log as a function of the delivered blocks alone: each membership block extends the latest. */
  function Replay(genesis: Config, delivered: seq<Block>, parse: KeyParser): seq<Config> {
    if delivered == [] then [genesis]
    else
      var before := Replay(genesis, delivered[..|delivered| - 1], parse);
      var reqs := MembershipPart(delivered[|delivered| - 1].batch);
      if reqs == [] || before == [] then before
      else
        match ApplySpec(before[|before| - 1], reqs, parse)
        case Err(_) => before
        case Ok(next) => before + [next]
  }

  /** How many of these blocks carry membership requests. */
  function MembershipBlocks(blocks: seq<Block>): nat {
    if blocks == [] then 0
    else MembershipBlocks(blocks[..|blocks| - 1]) + if MembershipPart(blocks[|blocks| - 1].batch) == [] then 0 else 1
  }

  ghost predicate Numbered(configs: seq<Config>) {
    configs != [] && forall i :: 0 <= i < |configs| ==> configs[i].number == i
  }

  /** Only the latest configuration can be succeeded. */
  lemma {:induction false} MembershipExtendsLatest(configs: seq<Config>, block: Block, parse: KeyParser)
    requires Numbered(configs) && block.conf < |configs|
    ensures NextConfig(configs, block, parse).Ok? ==> Numbered(NextConfig(configs, block, parse).value)
    ensures NextConfig(configs, block, parse).Ok? && MembershipPart(block.batch) != [] ==>
              && block.conf == |configs| - 1
              && ApplySpec(configs[|configs| - 1], MembershipPart(block.batch), parse).Ok?
              && NextConfig(configs, block, parse).value ==
                   configs + [ApplySpec(configs[|configs| - 1], MembershipPart(block.batch), parse).value]
  {
  }

  /**
   * Numbers are positions, the log replays the delivered blocks, and its k-th extension was made by the k-th
   * delivered membership block, which carried configuration number k: at most one per configuration.
   */
  ghost predicate LogReplays(genesis: Config, configs: seq<Config>, ds: seq<Block>, parse: KeyParser) {
    && Numbered(configs)
    && configs == Replay(genesis, ds, parse)
    && |configs| == 1 + MembershipBlocks(ds)
    && forall i :: 0 <= i < |ds| && MembershipPart(ds[i].batch) != [] ==> ds[i].conf == MembershipBlocks(ds[..i])
  }

  lemma {:induction false} LogReplaysStep(genesis: Config, configs: seq<Config>, ds: seq<Block>, last: Block,
      parse: KeyParser)
    requires LogReplays(genesis, configs, ds, parse)
    requires last.conf < |configs| && NextConfig(configs, last, parse).Ok?
    ensures LogReplays(genesis, NextConfig(configs, last, parse).value, ds + [last], parse)
  {
    var ds' := ds + [last];
    MembershipExtendsLatest(configs, last, parse);
    assert ds'[..|ds'| - 1] == ds;
    assert forall i :: 0 <= i <= |ds| ==> ds'[..i] == ds[..i];
    assert ds[..|ds|] == ds;
  }

  lemma {:induction false} StepCases(sha: Sha, parse: KeyParser, v: DeliverVars, block: Block)
    ensures var v' := AfterDeliver(sha, parse, v, block).0;
            if Delivers(sha, parse, v, block) then
              && block.conf < |v.configs|
              && NextConfig(v.configs, block, parse) == Ok(v'.configs)
              && v'.log == v.log + Executions(RegularPart(block.batch), block.conf)
            else
              && v'.configs == v.configs && v'.delivered == v.delivered
              && (AfterDeliver(sha, parse, v, block).1 == None ==> v' == v)
  {
  }

  /**
   * What a delivery runs: the requests that are neither ADD nor REMOVE, each once, in the order of the batch and under
   * the block's configuration number.
   */
  lemma {:induction false} RequestsRunInOrder(sha: Sha, parse: KeyParser, v: DeliverVars, block: Block)
    requires HashBlock(sha, block) !in v.delivered && block.conf < |v.configs|
    ensures var log, batch := AfterDeliver(sha, parse, v, block).0.log, block.batch;
            && |log| == |v.log| + RegularBefore(batch, |batch|) && log[..|v.log|] == v.log
            && forall p :: 0 <= p < |batch| && batch[p].kind != Add && batch[p].kind != Remove ==>
                 && RegularBefore(batch, p) < RegularBefore(batch, |batch|)
                 && log[|v.log| + RegularBefore(batch, p)].req == batch[p]
                 && log[|v.log| + RegularBefore(batch, p)].conf == block.conf
  {
    RegularInOrder(block.batch);
  }

  /** When a delivery succeeds, what it then changes, and how it fails. */
  lemma {:induction false} DeliverySucceedsIff(sha: Sha, parse: KeyParser, v: DeliverVars, block: Block)
    requires Numbered(v.configs) && HashBlock(sha, block) !in v.delivered
    ensures var (v', err) := AfterDeliver(sha, parse, v, block);
            var reqs, latest := MembershipPart(block.batch), v.configs[|v.configs| - 1];
            && (err == None <==>
                block.conf < |v.configs| &&
                (reqs == [] || (block.conf == latest.number && ApplySpec(latest, reqs, parse).Ok?)))
            && (err == None ==> v'.delivered == v.delivered + {HashBlock(sha, block)})
            && (err == None ==>
                  v'.configs == v.configs + if reqs == [] then [] else [ApplySpec(latest, reqs, parse).value])
            && (err.Some? ==> v'.delivered == v.delivered && v'.configs == v.configs)
            && (err == Some(UnknownConfig) <==> block.conf >= |v.configs|)
            && (err == Some(InstallFailed) <==>
                block.conf < latest.number && reqs != [] && ApplySpec(v.configs[block.conf], reqs, parse).Ok?)
  {
  }

  lemma {:induction false} ConfigLogReplays(sha: Sha, parse: KeyParser, genesis: Config, blocks: seq<Block>)
    requires genesis.number == 0
    ensures LogReplays(genesis, Run(sha, parse, Start(genesis), blocks).configs,
                       DeliveredIn(sha, parse, Start(genesis), blocks), parse)
  {
    if blocks != [] {
      var v, init, last := Start(genesis), blocks[..|blocks| - 1], blocks[|blocks| - 1];
      ConfigLogReplays(sha, parse, genesis, init);
      var now := Run(sha, parse, v, init);
      StepCases(sha, parse, now, last);
      var ds := DeliveredIn(sha, parse, v, init);
      if Delivers(sha, parse, now, last) {
        LogReplaysStep(genesis, now.configs, ds, last, parse);
      } else {
        assert DeliveredIn(sha, parse, v, blocks) == ds + [] == ds;
      }
    }
  }

  lemma {:induction false} ReplayGrows(genesis: Config, a: seq<Block>, b: seq<Block>, parse: KeyParser)
    requires a <= b
    ensures Replay(genesis, a, parse) <= Replay(genesis, b, parse)
    decreases |b|
  {
    if |a| < |b| {
      ReplayGrows(genesis, a, b[..|b| - 1], parse);
    } else {
      assert a == b;
    }
  }

  /** Replicas whose delivered blocks are prefix-related have prefix-related configuration logs. */
  lemma {:induction false} PrefixRelatedLogs(sha: Sha, parse: KeyParser, genesis: Config, mine: seq<Block>,
      theirs: seq<Block>)
    requires genesis.number == 0
    requires DeliveredIn(sha, parse, Start(genesis), mine) <= DeliveredIn(sha, parse, Start(genesis), theirs)
    ensures Run(sha, parse, Start(genesis), mine).configs <= Run(sha, parse, Start(genesis), theirs).configs
  {
    ConfigLogReplays(sha, parse, genesis, mine);
    ConfigLogReplays(sha, parse, genesis, theirs);
    var a, b := DeliveredIn(sha, parse, Start(genesis), mine), DeliveredIn(sha, parse, Start(genesis), theirs);
    ReplayGrows(genesis, a, b, parse);
  }

  /** The executions these blocks stand for, each under the configuration number its block carries. */
  function ExecutionsOf(blocks: seq<Block>): seq<Execution> {
    if blocks == [] then []
    else
      var last := blocks[|blocks| - 1];
      ExecutionsOf(blocks[..|blocks| - 1]) + Executions(RegularPart(last.batch), last.conf)
  }

  /** No call of the run failed. */
  ghost predicate NoFailure(sha: Sha, parse: KeyParser, v: DeliverVars, blocks: seq<Block>) {
    forall i :: 0 <= i < |blocks| ==> AfterDeliver(sha, parse, Run(sha, parse, v, blocks[..i]), blocks[i]).1 == None
  }

  lemma {:induction false} NoFailureBefore(sha: Sha, parse: KeyParser, v: DeliverVars, blocks: seq<Block>)
    requires NoFailure(sha, parse, v, blocks) && blocks != []
    ensures NoFailure(sha, parse, v, blocks[..|blocks| - 1])
  {
    var init := blocks[..|blocks| - 1];
    forall i | 0 <= i < |init|
      ensures AfterDeliver(sha, parse, Run(sha, parse, v, init[..i]), init[i]).1 == None
    {
      assert init[..i] == blocks[..i];
    }
  }

  lemma ExecutionsAppend(ds: seq<Block>, last: Block)
    ensures ExecutionsOf(ds + [last]) == ExecutionsOf(ds) + Executions(RegularPart(last.batch), last.conf)
  {
    assert (ds + [last])[..|ds + [last]| - 1] == ds;
  }

  /** A call that gets past the duplicate test and the configuration lookup; its membership step may still fail. */
  predicate Attempts(sha: Sha, v: DeliverVars, block: Block) {
    HashBlock(sha, block) !in v.delivered && block.conf < |v.configs|
  }

  function AttemptedIn(sha: Sha, parse: KeyParser, v: DeliverVars, blocks: seq<Block>): seq<Block> {
    if blocks == [] then []
    else
      var init, last := blocks[..|blocks| - 1], blocks[|blocks| - 1];
      AttemptedIn(sha, parse, v, init) + if Attempts(sha, Run(sha, parse, v, init), last) then [last] else []
  }

  lemma AttemptStep(sha: Sha, parse: KeyParser, now: DeliverVars, tried: seq<Block>, before: seq<Execution>,
      last: Block)
    requires now.log == before + ExecutionsOf(tried)
    ensures AfterDeliver(sha, parse, now, last).0.log ==
            before + ExecutionsOf(tried + if Attempts(sha, now, last) then [last] else [])
  {
    if Attempts(sha, now, last) {
      ExecutionsAppend(tried, last);
    } else {
      assert tried + [] == tried;
    }
  }

  /** Whatever fails, the executor has seen exactly the regular requests of the attempted blocks, once per attempt. */
  lemma {:induction false} ExecutedPerAttempt(sha: Sha, parse: KeyParser, v: DeliverVars, blocks: seq<Block>)
    ensures Run(sha, parse, v, blocks).log == v.log + ExecutionsOf(AttemptedIn(sha, parse, v, blocks))
  {
    if blocks == [] {
      assert v.log + [] == v.log;
    } else {
      var init, last := blocks[..|blocks| - 1], blocks[|blocks| - 1];
      ExecutedPerAttempt(sha, parse, v, init);
      AttemptStep(sha, parse, Run(sha, parse, v, init), AttemptedIn(sha, parse, v, init), v.log, last);
    }
  }

  lemma {:induction false} AttemptsDeliver(sha: Sha, parse: KeyParser, v: DeliverVars, blocks: seq<Block>)
    requires NoFailure(sha, parse, v, blocks)
    ensures AttemptedIn(sha, parse, v, blocks) == DeliveredIn(sha, parse, v, blocks)
  {
    if blocks != [] {
      var init, last := blocks[..|blocks| - 1], blocks[|blocks| - 1];
      NoFailureBefore(sha, parse, v, blocks);
      AttemptsDeliver(sha, parse, v, init);
      assert AfterDeliver(sha, parse, Run(sha, parse, v, init), last).1 == None;
    }
  }

  /** Without failures these are the delivered blocks. */
  lemma {:induction false} ExecutedExactly(sha: Sha, parse: KeyParser, v: DeliverVars, blocks: seq<Block>)
    requires NoFailure(sha, parse, v, blocks)
    ensures Run(sha, parse, v, blocks).log == v.log + ExecutionsOf(DeliveredIn(sha, parse, v, blocks))
  {
    ExecutedPerAttempt(sha, parse, v, blocks);
    AttemptsDeliver(sha, parse, v, blocks);
  }

  /** The membership step that the regular requests run ahead of. */
  predicate MembershipFails(v: DeliverVars, block: Block, parse: KeyParser) {
    block.conf < |v.configs| && NextConfig(v.configs, block, parse).Err?
  }

  /**
   * Delivering twice executes nothing new exactly when the membership step succeeds or there was nothing regular to
   * run.
   */
  lemma {:induction false} RedeliveryIsHarmless(sha: Sha, parse: KeyParser, v: DeliverVars, block: Block)
    ensures var once := AfterDeliver(sha, parse, v, block).0;
            AfterDeliver(sha, parse, once, block).0.log == once.log <==>
              || HashBlock(sha, block) in v.delivered
              || !MembershipFails(v, block, parse)
              || RegularPart(block.batch) == []
  {
    var once := AfterDeliver(sha, parse, v, block).0;
    var run := Executions(RegularPart(block.batch), block.conf);
    assert once.log + run == once.log <==> run == [] by {
      assert |once.log + run| == |once.log| + |run|;
    }
    assert run == [] <==> RegularPart(block.batch) == [] by {
      assert |run| == |RegularPart(block.batch)|;
    }
  }

  lemma CommandThenRemoval(cmd: Request, gone: Request)
    requires cmd.kind == Regular && gone.kind == Remove
    ensures RegularPart([cmd, gone]) == [cmd] && MembershipPart([cmd, gone]) == [gone]
  {
    var batch := [cmd, gone];
    assert batch[..1] == [cmd] && batch[..1][..0] == [];
    assert RegularPart(batch[..1]) == [cmd] && MembershipPart(batch[..1]) == [];
  }

  /** A retried block whose REMOVE names a stranger runs its regular command twice. */
  lemma {:induction false} RetryExecutesTwice(sha: Sha, parse: KeyParser, genesis: Config, cmd: Request, gone: Request)
    requires cmd.kind == Regular && gone.kind == Remove && gone.clientId !in Ids(genesis.replicas)
    ensures var block := Block([], [cmd, gone], None, 0, 0);
            var once := AfterDeliver(sha, parse, Start(genesis), block).0;
            && once.log == [Execution(cmd, 0)]
            && AfterDeliver(sha, parse, once, block).0.log == [Execution(cmd, 0), Execution(cmd, 0)]
  {
    CommandThenRemoval(cmd, gone);
    assert [gone][..0] == [];
    assert ApplyAll(genesis.replicas, [gone], parse) == ApplyOne(genesis.replicas, gone, parse);
    var block := Block([], [cmd, gone], None, 0, 0);
    assert MembershipFails(Start(genesis), block, parse);
    assert Executions([cmd], 0) == [Execution(cmd, 0)];
  }
}
