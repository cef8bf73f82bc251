/** The cluster that compares round-robin and reputation-based leader selection under Byzantine leaders. */
module RepBench {
  import opened Types
  import opened Committee
  import Reputation
  import opened Rotation
  import opened Pipeline
  import opened BenchCore

  datatype Mode = RoundRobin | ByReputation

  datatype ClusterState = ClusterState(ledger: Ledger, core: Core, delivered: nat)

  /** The leaders `selectLeader` may return. */
  ghost predicate MayLead(mode: Mode, c: Config, l: Ledger, leader: string)
    requires c.replicas != []
  {
    match mode
    case RoundRobin => leader == c.Leader(l.curView).id
    case ByReputation => exists best :: Reputation.IsBest(best, c.replicas, l.stats, l.curView) && best.id == leader
  }

  /** The three things a round can do to the ledger; round-robin mode keeps no statistics. */
  function Noted(mode: Mode, l: Ledger, leader: string): Ledger {
    if mode == ByReputation then l.(stats := Reputation.WithLeaderRound(l.stats, leader)) else l
  }

  function TimedOut(mode: Mode, l: Ledger, leader: string): Ledger {
    l.(stats := if mode == ByReputation then Reputation.WithTimeout(l.stats, leader) else l.stats,
       curView := l.curView + 1, viewChanges := l.viewChanges + 1)
  }

  function Committed(mode: Mode, l: Ledger, leader: string): Ledger {
    l.(stats := if mode == ByReputation then Reputation.WithCommit(l.stats, leader, l.curHeight) else l.stats,
       curView := l.curView + 1, curHeight := l.curHeight + 1, successes := l.successes + 1)
  }

  function AfterLeading(mode: Mode, l: Ledger, leader: string, byzantine: set<string>): Ledger {
    if leader in byzantine then TimedOut(mode, Noted(mode, l, leader), leader)
    else Committed(mode, Noted(mode, l, leader), leader)
  }

  /** A successful round under this leader: a Byzantine one only costs a view change. */
  ghost function AfterClusterRound(env: Env, mode: Mode, c: Config, keys: nat, byzantine: set<string>, s: ClusterState,
                                   leader: string, batch: seq<Request>): ClusterState
    requires SignerCount(c, keys) <= |c.replicas|
  {
    var ledger := AfterLeading(mode, s.ledger, leader, byzantine);
    if leader in byzantine then ClusterState(ledger, s.core, s.delivered)
    else
      var core := AfterRound(env, c, keys, s.core, s.ledger.curView, batch);
      ClusterState(ledger, core, s.delivered + Size(Output(env.sha, Fed(core.blocks))))
  }

  /** Without a certificate the round is on the leader's record and the proposed block in the store, nothing else. */
  ghost function AfterFailedRound(env: Env, mode: Mode, c: Config, s: ClusterState, leader: string,
                                  batch: seq<Request>): ClusterState
  {
    s.(ledger := Noted(mode, s.ledger, leader), core := Stored(env.sha, s.core, NextBlock(s.core, c, batch)))
  }

  class RepBenchCluster {
    const mode: Mode
    const config: Config
    const byzantine: set<string>
    const core: ClusterCore
    const repStore: Reputation.Store
    var curView: nat
    var delivered: nat
    var viewChanges: nat
    var successRound: nat

    ghost predicate Valid()
      reads this, core, core.pipeline, core.pipeline.window
    {
      core.Valid() && config.replicas != [] && SignerCount(config, core.keys) <= |config.replicas|
    }

    ghost function State(): ClusterState
      reads this, core, repStore
    {
      ClusterState(Ledger(repStore.stats, curView, core.curHeight, viewChanges, successRound), core.State(), delivered)
    }

    /** `NewRepBenchCluster` refuses fewer than four replicas and skips indices out of range. */
    constructor (env: Env, replicas: seq<Replica>, mode: Mode, byzantineIndices: seq<int>)
      requires |replicas| >= 4
      ensures Valid() && fresh(core) && fresh(core.pipeline) && fresh(core.pipeline.window) && fresh(repStore)
      ensures this.mode == mode && config == NewCommittee(0, replicas) && core.keys == |replicas| && core.env == env
      ensures byzantine == set i | i in byzantineIndices && 0 <= i < |replicas| :: replicas[i].id
      ensures State() == ClusterState(START, InitialCore(env.sha, |replicas|), 0)
    {
      this.mode := mode;
      config := NewCommittee(0, replicas);
      byzantine := set i | i in byzantineIndices && 0 <= i < |replicas| :: replicas[i].id;
      core := new ClusterCore(env, |replicas|);
      repStore := new Reputation.Store();
      curView, delivered, viewChanges, successRound := 1, 0, 0, 0;
      QuorumArithmetic(0, replicas);
    }

    /** The new reputation store and selector are the old ones emptied. */
    method Reset()
      requires Valid()
      modifies this, repStore, core, core.pipeline`fed, core.pipeline.window
      ensures Valid() && State() == ClusterState(START, InitialCore(core.env.sha, |old(core.safety)|), 0)
    {
      core.Reset();
      curView, delivered, viewChanges, successRound := 1, 0, 0, 0;
      repStore.stats := map[];
    }

    method SelectLeader() returns (leader: Replica)
      requires config.replicas != []
      ensures MayLead(mode, config, State().ledger, leader.id)
    {
      match mode {
        case ByReputation =>
          var best := Reputation.Select(config.replicas, repStore.stats, curView);
          leader := best.value;
        case RoundRobin =>
          leader := config.Leader(curView);
      }
    }

    /** A round of this leader begins. */
    method Note(leader: string)
      modifies repStore
      ensures State() == old(State()).(ledger := Noted(mode, old(State().ledger), leader))
    {
      if mode == ByReputation {
        repStore.RecordLeaderRound(leader);
      }
    }

    method TimeOut(leader: string)
      modifies this`viewChanges, this`curView, repStore
      ensures State() == old(State()).(ledger := TimedOut(mode, old(State().ledger), leader))
    {
      if mode == ByReputation {
        repStore.RecordTimeout(leader);
      }
      viewChanges := viewChanges + 1;
      curView := curView + 1;
    }

    /** The normal round of an honest leader; `ok` is false when no certificate could be made. */
    method ProposeAndCommit(leader: string, batch: seq<Request>) returns (ok: bool, txDelivered: nat)
      requires Valid()
      modifies this`delivered, this`curView, this`successRound, repStore, core, core.pipeline`fed, core.pipeline.window
      ensures Valid()
      ensures CanCertify(config, core.keys) ==> ok
      ensures var s, c := old(State()), old(core.State());
              var after := AfterRound(core.env, config, core.keys, c, old(curView), batch);
              if ok then
                && txDelivered == Size(Output(core.env.sha, Fed(after.blocks)))
                && State() == ClusterState(Committed(mode, s.ledger, leader), after, s.delivered + txDelivered)
              else
                && txDelivered == 0
                && State() == s.(core := Stored(core.env.sha, s.core, NextBlock(s.core, config, batch)))
    {
      var height := core.curHeight;
      var toCommit: Slot;
      ok, toCommit := core.Round(config, curView, batch);
      txDelivered := 0;
      if !ok {
        return;
      }
      if toCommit.Some? {
        txDelivered := |toCommit.value.batch|;
        delivered := delivered + txDelivered;
      }
      if mode == ByReputation {
        repStore.RecordCommit(leader, height);
      }
      curView := curView + 1;
      successRound := successRound + 1;
    }

    method RunRound(batch: seq<Request>) returns (ok: bool, leader: string, wasTimeout: bool, txDelivered: nat)
      requires Valid()
      modifies this, repStore, core, core.pipeline`fed, core.pipeline.window
      ensures Valid()
      ensures MayLead(mode, config, old(State().ledger), leader)
      ensures ok ==>
                State() == AfterClusterRound(core.env, mode, config, core.keys, byzantine, old(State()), leader, batch)
      ensures ok ==> wasTimeout == (leader in byzantine) && delivered == old(delivered) + txDelivered
      ensures !ok ==> State() == AfterFailedRound(core.env, mode, config, old(State()), leader, batch)
      ensures CanCertify(config, core.keys) ==> ok
    {
      var l := SelectLeader();
      leader := l.id;
      Note(leader);
      wasTimeout := leader in byzantine;
      if wasTimeout {
        TimeOut(leader);
        ok, txDelivered := true, 0;
      } else {
        ok, txDelivered := ProposeAndCommit(leader, batch);
      }
    }
  }

  // ---------------------------------------------------------------- whole runs

  ghost predicate ClusterStep(env: Env, mode: Mode, c: Config, keys: nat, byzantine: set<string>, s: ClusterState,
                              leader: string, batch: seq<Request>, s': ClusterState)
    requires c.replicas != [] && SignerCount(c, keys) <= |c.replicas|
  {
    MayLead(mode, c, s.ledger, leader) && s' == AfterClusterRound(env, mode, c, keys, byzantine, s, leader, batch)
  }

  /** A run of successful rounds from a fresh cluster. */
  ghost predicate ClusterRun(env: Env, mode: Mode, c: Config, keys: nat, byzantine: set<string>,
                             states: seq<ClusterState>, leaders: seq<string>, batches: seq<seq<Request>>)
    requires c.replicas != [] && SignerCount(c, keys) <= |c.replicas|
  {
    && |states| == |leaders| + 1 == |batches| + 1
    && states[0] == ClusterState(START, InitialCore(env.sha, keys), 0)
    && forall t {:trigger leaders[t]} :: 0 <= t < |leaders| ==>
         ClusterStep(env, mode, c, keys, byzantine, states[t], leaders[t], batches[t], states[t + 1])
  }

  /** Transactions proposed by honest leaders in the first t rounds. */
  function Proposed(leaders: seq<string>, batches: seq<seq<Request>>, byzantine: set<string>, t: nat): nat
    requires t <= |leaders| == |batches|
  {
    if t == 0 then 0
    else Proposed(leaders, batches, byzantine, t - 1) + if leaders[t - 1] in byzantine then 0 else |batches[t - 1]|
  }

  /** The consensus side of a cluster state: healthy, in step with its counters, and no transaction lost. */
  ghost predicate InOrder(env: Env, s: ClusterState, proposed: nat) {
    && Accounted(env.sha, s.core, s.ledger.curView, s.delivered, proposed)
    && s.core.curHeight == s.ledger.curHeight
    && |s.core.blocks| == s.ledger.successes
    && s.ledger.curView == 1 + s.ledger.successes + s.ledger.viewChanges
  }

  lemma StepStaysInOrder(env: Env, mode: Mode, c: Config, keys: nat, byzantine: set<string>, s: ClusterState,
                         leader: string, batch: seq<Request>, s': ClusterState, proposed: nat)
    requires c.replicas != [] && SignerCount(c, keys) <= |c.replicas| && CanCertify(c, keys)
    requires InOrder(env, s, proposed) && ClusterStep(env, mode, c, keys, byzantine, s, leader, batch, s')
    ensures InOrder(env, s', proposed + if leader in byzantine then 0 else |batch|)
  {
    if leader !in byzantine {
      RoundStaysAccounted(env, c, keys, s.core, s.ledger.curView, batch, s.delivered, proposed);
    }
  }

  lemma {:induction false} StartsInOrder(env: Env, keys: nat)
    ensures InOrder(env, ClusterState(START, InitialCore(env.sha, keys), 0), 0)
  {
    InitiallyHealthy(env.sha, keys, 1);
  }

  lemma {:induction false} RunStartsInOrder(env: Env, mode: Mode, c: Config, keys: nat, byzantine: set<string>,
      states: seq<ClusterState>, leaders: seq<string>, batches: seq<seq<Request>>)
    requires c.replicas != [] && SignerCount(c, keys) <= |c.replicas|
    requires ClusterRun(env, mode, c, keys, byzantine, states, leaders, batches)
    ensures InOrder(env, states[0], Proposed(leaders, batches, byzantine, 0))
  {
    StartsInOrder(env, keys);
  }

  lemma {:induction false} RoundKeepsOrder(env: Env, mode: Mode, c: Config, keys: nat, byzantine: set<string>,
      states: seq<ClusterState>, leaders: seq<string>, batches: seq<seq<Request>>, t: nat)
    requires c.replicas != [] && SignerCount(c, keys) <= |c.replicas| && CanCertify(c, keys)
    requires ClusterRun(env, mode, c, keys, byzantine, states, leaders, batches) && t < |leaders|
    requires InOrder(env, states[t], Proposed(leaders, batches, byzantine, t))
    ensures InOrder(env, states[t + 1], Proposed(leaders, batches, byzantine, t + 1))
  {
    var s, s', before := states[t], states[t + 1], Proposed(leaders, batches, byzantine, t);
    StepStaysInOrder(env, mode, c, keys, byzantine, s, leaders[t], batches[t], s', before);
  }

  /** Every state of a run is in order: in particular views count successes and view changes. */
  lemma {:induction false} ClusterStaysInOrder(env: Env, mode: Mode, c: Config, keys: nat, byzantine: set<string>,
      states: seq<ClusterState>, leaders: seq<string>, batches: seq<seq<Request>>, t: nat)
    requires c.replicas != [] && SignerCount(c, keys) <= |c.replicas| && CanCertify(c, keys)
    requires ClusterRun(env, mode, c, keys, byzantine, states, leaders, batches) && t <= |leaders|
    ensures InOrder(env, states[t], Proposed(leaders, batches, byzantine, t))
  {
    RunStartsInOrder(env, mode, c, keys, byzantine, states, leaders, batches);
    for k := 0 to t
      invariant InOrder(env, states[k], Proposed(leaders, batches, byzantine, k))
    {
      RoundKeepsOrder(env, mode, c, keys, byzantine, states, leaders, batches, k);
    }
  }

  /** Delivered transactions plus those in the window are those proposed. */
  lemma {:induction false} TransactionsConserved(env: Env, mode: Mode, c: Config, keys: nat, byzantine: set<string>,
      states: seq<ClusterState>, leaders: seq<string>, batches: seq<seq<Request>>, t: nat)
    requires c.replicas != [] && SignerCount(c, keys) <= |c.replicas| && CanCertify(c, keys)
    requires ClusterRun(env, mode, c, keys, byzantine, states, leaders, batches) && t <= |leaders|
    ensures states[t].delivered + InWindow(states[t].core.blocks) == Proposed(leaders, batches, byzantine, t)
  {
    ClusterStaysInOrder(env, mode, c, keys, byzantine, states, leaders, batches, t);
    NothingLost(env.sha, states[t].core.blocks);
  }

  function Ledgers(states: seq<ClusterState>): seq<Ledger> {
    seq(|states|, i requires 0 <= i < |states| => states[i].ledger)
  }

  /** In reputation mode the ledgers of a cluster run are a run of the rotation. */
  lemma {:induction false} ClusterRunRotates(env: Env, c: Config, keys: nat, byzantine: set<string>,
      states: seq<ClusterState>, leaders: seq<string>, batches: seq<seq<Request>>)
    requires c.replicas != [] && SignerCount(c, keys) <= |c.replicas|
    requires ClusterRun(env, ByReputation, c, keys, byzantine, states, leaders, batches)
    ensures ReputationRun(Ledgers(states), leaders, c.replicas, byzantine)
  {
    forall t | 0 <= t < |leaders|
      ensures RotationStep(states[t].ledger, leaders[t], c.replicas, byzantine, states[t + 1].ledger)
    {
      assert ClusterStep(env, ByReputation, c, keys, byzantine, states[t], leaders[t], batches[t], states[t + 1]);
    }
  }

  lemma {:induction false} RoundRobinStep(env: Env, c: Config, keys: nat, byzantine: set<string>, s: ClusterState,
      leader: string, batch: seq<Request>, s': ClusterState)
    requires c.replicas != [] && SignerCount(c, keys) <= |c.replicas|
    requires ClusterStep(env, RoundRobin, c, keys, byzantine, s, leader, batch, s')
    ensures s'.ledger.curView == s.ledger.curView + 1
    ensures s'.ledger.viewChanges == s.ledger.viewChanges + ViewCost(Ids(c.replicas), byzantine)(s.ledger.curView)
  {
    ModIsRemainder(s.ledger.curView, |Ids(c.replicas)|);
    assert leader == Ids(c.replicas)[Mod(s.ledger.curView, |c.replicas|)];
  }

  /** In round-robin mode, t rounds cost what the rotation's views cost. */
  lemma {:induction false} RoundRobinCosts(env: Env, c: Config, keys: nat, byzantine: set<string>,
      states: seq<ClusterState>, leaders: seq<string>, batches: seq<seq<Request>>, t: nat)
    requires c.replicas != [] && SignerCount(c, keys) <= |c.replicas|
    requires ClusterRun(env, RoundRobin, c, keys, byzantine, states, leaders, batches) && t <= |leaders|
    ensures states[t].ledger.curView == 1 + t
    ensures states[t].ledger.viewChanges == RoundRobinChanges(Ids(c.replicas), byzantine, t)
  {
    for k := 0 to t
      invariant states[k].ledger.curView == 1 + k
      invariant states[k].ledger.viewChanges == RoundRobinChanges(Ids(c.replicas), byzantine, k)
    {
      RoundRobinStep(env, c, keys, byzantine, states[k], leaders[k], batches[k], states[k + 1]);
    }
  }

  /** Round-robin mode keeps no records, and reputation mode every leader's: all rounds, all commits, all timeouts. */
  lemma {:induction false} ClusterRecords(env: Env, mode: Mode, c: Config, keys: nat, byzantine: set<string>,
      states: seq<ClusterState>, leaders: seq<string>, batches: seq<seq<Request>>, t: nat, id: string)
    requires c.replicas != [] && SignerCount(c, keys) <= |c.replicas|
    requires ClusterRun(env, mode, c, keys, byzantine, states, leaders, batches) && t <= |leaders|
    ensures var st, led := Reputation.Get(states[t].ledger.stats, id), RoundsLed(leaders, id, t);
            match mode
            case RoundRobin => states[t].ledger.stats == map[]
            case ByReputation =>
              && st.rounds == led
              && st.commits == (if id in byzantine then 0 else led)
              && st.timeouts == (if id in byzantine then led else 0)
  {
    match mode
    case ByReputation =>
      ClusterRunRotates(env, c, keys, byzantine, states, leaders, batches);
      RecordsAddUp(Ledgers(states), leaders, c.replicas, byzantine, t, id);
    case RoundRobin =>
      for k := 0 to t
        invariant states[k].ledger.stats == map[]
      {
        assert ClusterStep(env, mode, c, keys, byzantine, states[k], leaders[k], batches[k], states[k + 1]);
      }
  }

  /** A round that fails counts as led, once, and as nothing else. */
  lemma {:induction false} FailedRoundIsLed(env: Env, mode: Mode, c: Config, s: ClusterState, leader: string,
      batch: seq<Request>, id: string)
    ensures var s' := AfterFailedRound(env, mode, c, s, leader, batch);
            var st, st' := Reputation.Get(s.ledger.stats, id), Reputation.Get(s'.ledger.stats, id);
            && st'.rounds == st.rounds + (if id == leader && mode == ByReputation then 1 else 0)
            && st'.commits == st.commits && st'.timeouts == st.timeouts && st'.lastLed == st.lastLed
            && s'.ledger == s.ledger.(stats := s'.ledger.stats)
            && s'.core == s.core.(chain := s'.core.chain) && s'.delivered == s.delivered
  {
  }

  /** Over the same number of rounds, at least one full turn, reputation mode never changes view more often. */
  lemma {:induction false} ReputationNeverWorse(env: Env, c: Config, keys: nat, byzantine: set<string>,
      order: seq<string>, rounds: nat, rep: seq<ClusterState>, repLeaders: seq<string>, repBatches: seq<seq<Request>>,
      rr: seq<ClusterState>, rrLeaders: seq<string>, rrBatches: seq<seq<Request>>)
    requires c.replicas != [] && SignerCount(c, keys) <= |c.replicas| && Distinct(Ids(c.replicas))
    requires IdOrder(order, c.replicas) && HonestOf(order, byzantine) != []
    requires ClusterRun(env, ByReputation, c, keys, byzantine, rep, repLeaders, repBatches)
    requires ClusterRun(env, RoundRobin, c, keys, byzantine, rr, rrLeaders, rrBatches)
    requires |c.replicas| <= rounds <= |repLeaders| && rounds <= |rrLeaders|
    ensures rep[rounds].ledger.viewChanges == |byzantine * Elements(Ids(c.replicas))| <= rr[rounds].ledger.viewChanges
  {
    ClusterRunRotates(env, c, keys, byzantine, rep, repLeaders, repBatches);
    AscendingIsDistinct(order);
    DistinctCardinality(order);
    DistinctCardinality(Ids(c.replicas));
    ViewChangesExact(Ledgers(rep), repLeaders, c.replicas, byzantine, order, rounds);
    assert Ledgers(rep)[rounds] == rep[rounds].ledger;
    RoundRobinCosts(env, c, keys, byzantine, rr, rrLeaders, rrBatches, rounds);
    RoundRobinKeepsPaying(Ids(c.replicas), byzantine, 1, rounds);
  }
}
