/** Runs of linked proposals through one replica: what the executor sees, and when. */
module ProposeRuns {
  import opened Types
  import opened Encoding
  import opened Committee
  import opened Ancestry
  import opened Safety
  import opened Pipeline
  import opened Delivery
  import opened Engine

  /** A proposal with the block store and the signature available when it is handled. */
  datatype Arrival = Arrival(block: Block, store: Store, sig: Option<Bytes>)

  function Blocks(ps: seq<Arrival>): seq<Block> {
    seq(|ps|, i requires 0 <= i < |ps| => ps[i].block)
  }

  /** The engine before each proposal and after the last one. */
  ghost predicate IsRun(sha: Sha, parse: KeyParser, myID: string, es: seq<Vars>, ps: seq<Arrival>) {
    && |es| == |ps| + 1
    && forall k {:trigger ps[k]} :: 0 <= k < |ps| ==> Handles(sha, parse, myID, es[k], ps[k], es[k + 1])
  }

  ghost predicate Handles(sha: Sha, parse: KeyParser, myID: string, e: Vars, p: Arrival, e': Vars) {
    e.HasCommittee() && e' == AfterHandlePropose(sha, parse, myID, e, p.block, p.store, p.sig)
  }

  ghost predicate ExtendsPrevious(sha: Sha, ps: seq<Arrival>, k: nat)
    requires 1 <= k < |ps|
  {
    && ps[k].block.parentHash == HashBlock(sha, ps[k - 1].block)
    && ps[k].block.justify.Some?
    && ps[k].block.justify.value.blockHash == HashBlock(sha, ps[k - 1].block)
  }

  /** The earlier proposal has another height, and its block is found in the store when the later one is handled. */
  ghost predicate Precedes(sha: Sha, ps: seq<Arrival>, j: nat, k: nat)
    requires j < k < |ps|
  {
    && ps[j].block.height != ps[k].block.height
    && HashBlock(sha, ps[j].block) in ps[k].store && ps[k].store[HashBlock(sha, ps[j].block)] == ps[j].block
  }

  /** Each proposal extends and certifies the one before it, heights differ, and stored ancestors are found. */
  ghost predicate LinkedProposals(sha: Sha, ps: seq<Arrival>) {
    && (forall k :: 0 <= k < |ps| ==> ps[k].block.height < MAX64)
    && (|ps| > 0 ==> ps[0].block.justify == None)
    && (forall k :: 1 <= k < |ps| ==> ExtendsPrevious(sha, ps, k))
    && (forall j, k :: 0 <= j < k < |ps| ==> Precedes(sha, ps, j, k))
  }

  /** Proposals are not ignored for their configuration number, and signing works. */
  ghost predicate Handled(es: seq<Vars>, ps: seq<Arrival>)
    requires |es| == |ps| + 1
  {
    forall k :: 0 <= k < |ps| ==>
      es[k].delivery.configs != [] && ps[k].block.conf <= es[k].Latest().number && ps[k].sig.Some?
  }

  /** What the replica's three-chain rule hands to the deliverer at step k. */
  function Ripe(ps: seq<Arrival>, k: nat): seq<Block>
    requires k <= |ps|
  {
    if k <= 3 then [] else Blocks(ps)[..k - 3]
  }

  /** Every delivery of the run succeeds. */
  ghost predicate DeliveriesSucceed(sha: Sha, parse: KeyParser, es: seq<Vars>, ps: seq<Arrival>)
    requires |es| == |ps| + 1
  {
    forall k :: 3 <= k < |ps| ==> AfterDeliver(sha, parse, es[k].delivery, ps[k - 3].block).1 == None
  }

  /** The engine starts with nothing delivered and nothing in the window. */
  ghost predicate Fresh(e: Vars) {
    e.fed == [] && e.delivery.delivered == {} && e.delivery.log == []
  }

  /** The state after k proposals: blocks 0 .. k-4 delivered and executed, everything fed to the window. */
  ghost predicate InStep(sha: Sha, e: Vars, ps: seq<Arrival>, k: nat)
    requires k <= |ps|
  {
    && e.fed == Fed(Blocks(ps)[..k])
    && DeliveredRipe(sha, e.delivery, ps, k)
  }

  lemma DistinctHeightsDistinctHashes(sha: Sha, ps: seq<Arrival>, k: nat, j: nat)
    requires CollisionFree(sha, Elements(Blocks(ps))) && LinkedProposals(sha, ps) && k < j < |ps|
    ensures HashBlock(sha, ps[k].block) != HashBlock(sha, ps[j].block)
  {
    assert Precedes(sha, ps, k, j);
    if HashBlock(sha, ps[k].block) == HashBlock(sha, ps[j].block) {
      assert Blocks(ps)[k] in Blocks(ps) && Blocks(ps)[j] in Blocks(ps);
      EqualHashesEqualHeaders(sha, Elements(Blocks(ps)), ps[k].block, ps[j].block);
    }
  }

  /** The three-chain rule delivers the block three below, when there is one. */
  lemma {:induction false} CommitTarget(sha: Sha, parse: KeyParser, v: DeliverVars, ps: seq<Arrival>, k: nat)
    requires LinkedProposals(sha, ps) && k < |ps|
    ensures Commit(sha, parse, v, ps[k].block, ps[k].store) ==
            if k < 3 then v else AfterDeliver(sha, parse, v, ps[k - 3].block).0
  {
    if k >= 1 {
      assert ExtendsPrevious(sha, ps, k) && Precedes(sha, ps, k - 1, k);
      assert Certified(ps[k].store, ps[k].block) == Some(ps[k - 1].block);
      if k >= 2 {
        assert ExtendsPrevious(sha, ps, k - 1) && Precedes(sha, ps, k - 2, k);
        assert Certified(ps[k].store, ps[k - 1].block) == Some(ps[k - 2].block);
        if k >= 3 {
          assert ExtendsPrevious(sha, ps, k - 2) && Precedes(sha, ps, k - 3, k);
          assert Certified(ps[k].store, ps[k - 2].block) == Some(ps[k - 3].block);
        }
      }
    }
  }

  lemma {:induction false} ProposalsAreLinked(sha: Sha, ps: seq<Arrival>, n: nat)
    requires LinkedProposals(sha, ps) && n <= |ps|
    ensures LinkedRun(sha, Blocks(ps)[..n])
  {
    forall i | 1 <= i < n
      ensures Follows(sha, Blocks(ps)[..n], i)
    {
      assert ExtendsPrevious(sha, ps, i);
    }
  }

  /** The window hands out the block four below. */
  lemma {:induction false} WindowTarget(sha: Sha, ps: seq<Arrival>, k: nat)
    requires LinkedProposals(sha, ps) && k < |ps|
    ensures Output(sha, Fed(Blocks(ps)[..k + 1])) == if k < 4 then None else Some(ps[k - 4].block)
  {
    ProposalsAreLinked(sha, ps, k + 1);
    LastOutput(sha, Blocks(ps)[..k + 1]);
  }

  lemma {:induction false} HashesAppend(sha: Sha, blocks: seq<Block>, b: Block)
    ensures Hashes(sha, blocks + [b]) == Hashes(sha, blocks) + [HashBlock(sha, b)]
  {
  }

  lemma {:induction false} RipeNext(ps: seq<Arrival>, k: nat)
    requires 3 <= k < |ps|
    ensures Ripe(ps, k + 1) == Ripe(ps, k) + [ps[k - 3].block]
  {
  }

  lemma {:induction false} RipeGrows(sha: Sha, ps: seq<Arrival>, k: nat)
    requires 3 <= k < |ps|
    ensures Hashes(sha, Ripe(ps, k + 1)) == Hashes(sha, Ripe(ps, k)) + [HashBlock(sha, ps[k - 3].block)]
    ensures ExecutionsOf(Ripe(ps, k + 1)) ==
            ExecutionsOf(Ripe(ps, k)) + Executions(RegularPart(ps[k - 3].block.batch), ps[k - 3].block.conf)
  {
    RipeNext(ps, k);
    HashesAppend(sha, Ripe(ps, k), ps[k - 3].block);
    ExecutionsAppend(Ripe(ps, k), ps[k - 3].block);
  }

  lemma NotYetDelivered(sha: Sha, ps: seq<Arrival>, k: nat)
    requires CollisionFree(sha, Elements(Blocks(ps))) && LinkedProposals(sha, ps) && 3 <= k < |ps|
    ensures HashBlock(sha, ps[k - 3].block) !in Elements(Hashes(sha, Ripe(ps, k)))
  {
    forall i | 0 <= i < |Ripe(ps, k)|
      ensures Hashes(sha, Ripe(ps, k))[i] != HashBlock(sha, ps[k - 3].block)
    {
      DistinctHeightsDistinctHashes(sha, ps, i, k - 3);
    }
  }

  /** The deliverer is in step with the blocks that are ripe. */
  ghost predicate DeliveredRipe(sha: Sha, v: DeliverVars, ps: seq<Arrival>, k: nat)
    requires k <= |ps|
  {
    v.delivered == Elements(Hashes(sha, Ripe(ps, k))) && v.log == ExecutionsOf(Ripe(ps, k))
  }

  lemma CommitStep(sha: Sha, parse: KeyParser, v: DeliverVars, ps: seq<Arrival>, k: nat)
    requires CollisionFree(sha, Elements(Blocks(ps))) && LinkedProposals(sha, ps)
    requires k < |ps| && DeliveredRipe(sha, v, ps, k)
    requires k >= 3 ==> AfterDeliver(sha, parse, v, ps[k - 3].block).1 == None
    ensures DeliveredRipe(sha, Commit(sha, parse, v, ps[k].block, ps[k].store), ps, k + 1)
  {
    CommitTarget(sha, parse, v, ps, k);
    if k >= 3 {
      NotYetDelivered(sha, ps, k);
      RipeGrows(sha, ps, k);
      StepCases(sha, parse, v, ps[k - 3].block);
    }
  }

  /** What the window hands out has been delivered a step before. */
  lemma {:induction false} WindowAddsNothing(sha: Sha, parse: KeyParser, v: DeliverVars, ps: seq<Arrival>, k: nat)
    requires LinkedProposals(sha, ps) && k < |ps| && DeliveredRipe(sha, v, ps, k + 1)
    ensures PipelineCommit(sha, parse, v, Fed(Blocks(ps)[..k + 1])) == v
  {
    WindowTarget(sha, ps, k);
    if k >= 4 {
      var i := k - 4;
      assert Hashes(sha, Ripe(ps, k + 1))[i] == HashBlock(sha, ps[k - 4].block);
    }
  }

  lemma {:induction false} FedStep(e: Vars, ps: seq<Arrival>, k: nat)
    requires k < |ps| && e.fed == Fed(Blocks(ps)[..k])
    ensures e.fed + [Some(ps[k].block)] == Fed(Blocks(ps)[..k + 1])
  {
  }

  lemma InStepNext(sha: Sha, parse: KeyParser, myID: string, e: Vars, ps: seq<Arrival>, k: nat)
    requires CollisionFree(sha, Elements(Blocks(ps))) && LinkedProposals(sha, ps) && k < |ps|
    requires e.HasCommittee() && ps[k].block.conf <= e.Latest().number && ps[k].sig.Some?
    requires InStep(sha, e, ps, k)
    requires k >= 3 ==> AfterDeliver(sha, parse, e.delivery, ps[k - 3].block).1 == None
    ensures InStep(sha, AfterHandlePropose(sha, parse, myID, e, ps[k].block, ps[k].store, ps[k].sig), ps, k + 1)
    ensures var v := Commit(sha, parse, e.delivery, ps[k].block, ps[k].store);
            PipelineCommit(sha, parse, v, e.fed + [Some(ps[k].block)]) == v
  {
    FedStep(e, ps, k);
    CommitStep(sha, parse, e.delivery, ps, k);
    WindowAddsNothing(sha, parse, Commit(sha, parse, e.delivery, ps[k].block, ps[k].store), ps, k);
  }

  lemma {:induction false} StartsInStep(sha: Sha, e: Vars, ps: seq<Arrival>)
    requires Fresh(e)
    ensures InStep(sha, e, ps, 0)
  {
    assert Fed(Blocks(ps)[..0]) == [];
    assert Elements(Hashes(sha, [])) == {};
  }

  lemma {:induction false} RunInStep(sha: Sha, parse: KeyParser, myID: string, es: seq<Vars>, ps: seq<Arrival>, k: nat)
    requires CollisionFree(sha, Elements(Blocks(ps)))
    requires IsRun(sha, parse, myID, es, ps) && LinkedProposals(sha, ps)
    requires Handled(es, ps) && DeliveriesSucceed(sha, parse, es, ps)
    requires k < |ps| && InStep(sha, es[k], ps, k)
    ensures InStep(sha, es[k + 1], ps, k + 1)
    ensures var v := Commit(sha, parse, es[k].delivery, ps[k].block, ps[k].store);
            PipelineCommit(sha, parse, v, es[k].fed + [Some(ps[k].block)]) == v
  {
    assert Handles(sha, parse, myID, es[k], ps[k], es[k + 1]);
    InStepNext(sha, parse, myID, es[k], ps, k);
  }

  /**
   * After k proposals the executor has seen exactly the regular requests of all but the last three blocks, once each.
   */
  lemma {:induction false} ExecutorSeesAllButThree(sha: Sha, parse: KeyParser, myID: string, es: seq<Vars>,
      ps: seq<Arrival>, k: nat)
    requires CollisionFree(sha, Elements(Blocks(ps)))
    requires IsRun(sha, parse, myID, es, ps) && LinkedProposals(sha, ps)
    requires Handled(es, ps) && DeliveriesSucceed(sha, parse, es, ps) && Fresh(es[0])
    requires k <= |ps|
    ensures InStep(sha, es[k], ps, k)
  {
    StartsInStep(sha, es[0], ps);
    for j := 0 to k
      invariant InStep(sha, es[j], ps, j)
    {
      RunInStep(sha, parse, myID, es, ps, j);
    }
  }

  /** The second commit route, through the window, never executes or delivers anything. */
  lemma {:induction false} WindowRouteIsIdle(sha: Sha, parse: KeyParser, myID: string, es: seq<Vars>,
      ps: seq<Arrival>, k: nat)
    requires CollisionFree(sha, Elements(Blocks(ps)))
    requires IsRun(sha, parse, myID, es, ps) && LinkedProposals(sha, ps)
    requires Handled(es, ps) && DeliveriesSucceed(sha, parse, es, ps) && Fresh(es[0])
    requires k < |ps|
    ensures var v := Commit(sha, parse, es[k].delivery, ps[k].block, ps[k].store);
            PipelineCommit(sha, parse, v, es[k].fed + [Some(ps[k].block)]) == v
  {
    ExecutorSeesAllButThree(sha, parse, myID, es, ps, k);
    RunInStep(sha, parse, myID, es, ps, k);
  }

  // ---------------------------------------------------------------- failures included

  /** The window route executes nothing if and only if there is nothing to hand out or the delivery runs nothing. */
  lemma {:induction false} WindowExecutesNothingIff(sha: Sha, parse: KeyParser, v: DeliverVars, fed: seq<Slot>)
    ensures PipelineCommit(sha, parse, v, fed).log == v.log <==>
            match Output(sha, fed)
            case None => true
            case Some(b) => HashBlock(sha, b) in v.delivered || b.conf >= |v.configs| || RegularPart(b.batch) == []
  {
    match Output(sha, fed)
    case None =>
    case Some(b) =>
      var run := Executions(RegularPart(b.batch), b.conf);
      assert |run| == |RegularPart(b.batch)| && |v.log + run| == |v.log| + |run|;
  }

  /** The deliveries of the first k proposals: each block over the chain, and one proposal later over the window. */
  function Calls(ps: seq<Arrival>, k: nat): seq<Block>
    requires k <= |ps|
  {
    if k == 0 then []
    else
      Calls(ps, k - 1) +
      (if k - 1 < 3 then [] else [ps[k - 4].block]) +
      (if k - 1 < 4 then [] else [ps[k - 5].block])
  }

  lemma {:induction false} RunAppend(sha: Sha, parse: KeyParser, v: DeliverVars, blocks: seq<Block>, b: Block)
    ensures Run(sha, parse, v, blocks + [b]) == AfterDeliver(sha, parse, Run(sha, parse, v, blocks), b).0
  {
    assert (blocks + [b])[..|blocks + [b]| - 1] == blocks;
  }

  /** What a linked proposal does to the deliverer: at most two calls. */
  lemma {:induction false} TwoCalls(sha: Sha, parse: KeyParser, v: DeliverVars, before: seq<Block>, now: DeliverVars,
      ps: seq<Arrival>, k: nat)
    requires LinkedProposals(sha, ps) && k < |ps| && now == Run(sha, parse, v, before)
    ensures var chain := Commit(sha, parse, now, ps[k].block, ps[k].store);
            PipelineCommit(sha, parse, chain, Fed(Blocks(ps)[..k + 1])) ==
            Run(sha, parse, v, before + (if k < 3 then [] else [ps[k - 3].block]) +
                               (if k < 4 then [] else [ps[k - 4].block]))
  {
    CommitTarget(sha, parse, now, ps, k);
    WindowTarget(sha, ps, k);
    if k < 3 {
      assert before + [] + [] == before;
    } else {
      RunAppend(sha, parse, v, before, ps[k - 3].block);
      if k == 3 {
        assert before + [ps[0].block] + [] == before + [ps[0].block];
      } else {
        RunAppend(sha, parse, v, before + [ps[k - 3].block], ps[k - 4].block);
      }
    }
  }

  /** In step with the calls: everything fed, and the deliverer after exactly these deliveries. */
  ghost predicate Called(sha: Sha, parse: KeyParser, v: DeliverVars, e: Vars, ps: seq<Arrival>, k: nat)
    requires k <= |ps|
  {
    e.fed == Fed(Blocks(ps)[..k]) && e.delivery == Run(sha, parse, v, Calls(ps, k))
  }

  lemma {:induction false} CalledNext(sha: Sha, parse: KeyParser, myID: string, v: DeliverVars, e: Vars,
      ps: seq<Arrival>, k: nat)
    requires LinkedProposals(sha, ps) && k < |ps| && e.HasCommittee()
    requires ps[k].block.conf <= e.Latest().number && ps[k].sig.Some?
    requires Called(sha, parse, v, e, ps, k)
    ensures var e' := AfterHandlePropose(sha, parse, myID, e, ps[k].block, ps[k].store, ps[k].sig);
            Called(sha, parse, v, e', ps, k + 1)
  {
    FedStep(e, ps, k);
    TwoCalls(sha, parse, v, Calls(ps, k), e.delivery, ps, k);
  }

  lemma {:induction false} RunIsCalled(sha: Sha, parse: KeyParser, myID: string, es: seq<Vars>,
      ps: seq<Arrival>, k: nat)
    requires IsRun(sha, parse, myID, es, ps) && LinkedProposals(sha, ps) && Handled(es, ps) && es[0].fed == []
    requires k <= |ps|
    ensures Called(sha, parse, es[0].delivery, es[k], ps, k)
  {
    assert Fed(Blocks(ps)[..0]) == [];
    for j := 0 to k
      invariant Called(sha, parse, es[0].delivery, es[j], ps, j)
    {
      assert Handles(sha, parse, myID, es[j], ps[j], es[j + 1]);
      CalledNext(sha, parse, myID, es[0].delivery, es[j], ps, j);
    }
  }

  /**
   * The executor after k linked proposals, whatever fails: the regular requests of those calls that got past the
   * duplicate test and the configuration lookup, once per call.
   */
  lemma {:induction false} ExecutorLog(sha: Sha, parse: KeyParser, myID: string, es: seq<Vars>,
      ps: seq<Arrival>, k: nat)
    requires IsRun(sha, parse, myID, es, ps) && LinkedProposals(sha, ps) && Handled(es, ps) && es[0].fed == []
    requires k <= |ps|
    ensures es[k].delivery == Run(sha, parse, es[0].delivery, Calls(ps, k))
    ensures es[k].delivery.log ==
            es[0].delivery.log + ExecutionsOf(AttemptedIn(sha, parse, es[0].delivery, Calls(ps, k)))
  {
    RunIsCalled(sha, parse, myID, es, ps, k);
    ExecutedPerAttempt(sha, parse, es[0].delivery, Calls(ps, k));
  }

  // ---------------------------------------------------------------- the engine's own retry

  /** Delivering another block leaves an undelivered one undelivered. */
  lemma {:induction false} StaysUndelivered(sha: Sha, parse: KeyParser, v: DeliverVars, other: Block, h: Hash)
    requires h !in v.delivered && HashBlock(sha, other) != h
    ensures h !in AfterDeliver(sha, parse, v, other).0.delivered
    ensures |AfterDeliver(sha, parse, v, other).0.configs| >= |v.configs|
  {
  }

  lemma {:induction false} FailureRetries(sha: Sha, parse: KeyParser, v: DeliverVars, block: Block)
    requires HashBlock(sha, block) !in v.delivered && MembershipFails(v, block, parse)
    ensures HashBlock(sha, block) !in AfterDeliver(sha, parse, v, block).0.delivered
    ensures AfterDeliver(sha, parse, v, block).0.configs == v.configs
    ensures AfterDeliver(sha, parse, v, block).0.log == v.log + Executions(RegularPart(block.batch), block.conf)
  {
  }

  /** The window's delivery at proposal k is of another block than the one three below k. */
  lemma {:induction false} WindowSpares(sha: Sha, parse: KeyParser, v: DeliverVars, ps: seq<Arrival>, k: nat)
    requires CollisionFree(sha, Elements(Blocks(ps))) && LinkedProposals(sha, ps) && 3 <= k < |ps|
    requires HashBlock(sha, ps[k - 3].block) !in v.delivered
    ensures var v' := PipelineCommit(sha, parse, v, Fed(Blocks(ps)[..k + 1]));
            HashBlock(sha, ps[k - 3].block) !in v'.delivered && |v'.configs| >= |v.configs|
  {
    WindowTarget(sha, ps, k);
    if k >= 4 {
      DistinctHeightsDistinctHashes(sha, ps, k - 4, k - 3);
      StaysUndelivered(sha, parse, v, ps[k - 4].block, HashBlock(sha, ps[k - 3].block));
    }
  }

  /** So is the chain's delivery at proposal k + 1. */
  lemma {:induction false} ChainSpares(sha: Sha, parse: KeyParser, v: DeliverVars, ps: seq<Arrival>, k: nat)
    requires CollisionFree(sha, Elements(Blocks(ps))) && LinkedProposals(sha, ps) && 3 <= k && k + 1 < |ps|
    requires HashBlock(sha, ps[k - 3].block) !in v.delivered
    ensures var v' := Commit(sha, parse, v, ps[k + 1].block, ps[k + 1].store);
            HashBlock(sha, ps[k - 3].block) !in v'.delivered && |v'.configs| >= |v.configs|
  {
    CommitTarget(sha, parse, v, ps, k + 1);
    DistinctHeightsDistinctHashes(sha, ps, k - 3, k - 2);
    StaysUndelivered(sha, parse, v, ps[k - 2].block, HashBlock(sha, ps[k - 3].block));
  }

  lemma {:induction false} WindowRuns(sha: Sha, parse: KeyParser, v: DeliverVars, ps: seq<Arrival>, k: nat)
    requires LinkedProposals(sha, ps) && 4 <= k < |ps| && Attempts(sha, v, ps[k - 4].block)
    ensures var b := ps[k - 4].block;
            PipelineCommit(sha, parse, v, Fed(Blocks(ps)[..k + 1])).log ==
            v.log + Executions(RegularPart(b.batch), b.conf)
  {
    WindowTarget(sha, ps, k);
  }

  /**
   * A block whose membership step fails when its three-chain is complete is run again through the window with the
   * very next proposal.
   */
  lemma {:induction false} WindowReruns(sha: Sha, parse: KeyParser, v: DeliverVars, ps: seq<Arrival>, k: nat)
    requires CollisionFree(sha, Elements(Blocks(ps))) && LinkedProposals(sha, ps) && 3 <= k && k + 1 < |ps|
    requires HashBlock(sha, ps[k - 3].block) !in v.delivered && MembershipFails(v, ps[k - 3].block, parse)
    ensures var b := ps[k - 3].block;
            var v1 := Commit(sha, parse, v, ps[k].block, ps[k].store);
            var v2 := PipelineCommit(sha, parse, v1, Fed(Blocks(ps)[..k + 1]));
            var v3 := Commit(sha, parse, v2, ps[k + 1].block, ps[k + 1].store);
            && v1.log == v.log + Executions(RegularPart(b.batch), b.conf)
            && PipelineCommit(sha, parse, v3, Fed(Blocks(ps)[..k + 2])).log ==
                 v3.log + Executions(RegularPart(b.batch), b.conf)
  {
    CommitTarget(sha, parse, v, ps, k);
    FailureRetries(sha, parse, v, ps[k - 3].block);
    var v1 := Commit(sha, parse, v, ps[k].block, ps[k].store);
    WindowSpares(sha, parse, v1, ps, k);
    var v2 := PipelineCommit(sha, parse, v1, Fed(Blocks(ps)[..k + 1]));
    ChainSpares(sha, parse, v2, ps, k);
    WindowRuns(sha, parse, Commit(sha, parse, v2, ps[k + 1].block, ps[k + 1].store), ps, k + 1);
  }
}
