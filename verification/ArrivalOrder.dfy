/** Two replicas in the same state that get the same two proposals in opposite orders deliver in opposite orders. */
module ArrivalOrder {
  import opened Types
  import opened Encoding
  import opened Committee
  import opened Ancestry
  import opened Delivery
  import opened Engine
  import opened ProposeRuns

  /** The proposal is not ignored for its configuration number, and signing works. */
  ghost predicate Ready(e: Vars, p: Arrival) {
    e.HasCommittee() && p.block.conf <= e.Latest().number && p.sig.Some?
  }

  /** Not delivered yet, of a known configuration, and without membership requests. */
  predicate Deliverable(sha: Sha, v: DeliverVars, b: Block) {
    HashBlock(sha, b) !in v.delivered && b.conf < |v.configs| && MembershipPart(b.batch) == []
  }

  lemma {:induction false} DeliverableDelivers(sha: Sha, parse: KeyParser, v: DeliverVars, b: Block)
    requires Deliverable(sha, v, b)
    ensures Delivers(sha, parse, v, b)
    ensures AfterDeliver(sha, parse, v, b).0.configs == v.configs
    ensures AfterDeliver(sha, parse, v, b).0.delivered == v.delivered + {HashBlock(sha, b)}
  {
  }

  /** With a short window, handling the k-th of linked proposals makes one delivery: of the block three below. */
  lemma {:induction false} OneProposal(sha: Sha, parse: KeyParser, myID: string, e: Vars, ps: seq<Arrival>, k: nat)
    requires LinkedProposals(sha, ps) && 3 <= k < |ps| && Ready(e, ps[k]) && |e.fed| < 4
    ensures var e' := AfterHandlePropose(sha, parse, myID, e, ps[k].block, ps[k].store, ps[k].sig);
            e'.delivery == AfterDeliver(sha, parse, e.delivery, ps[k - 3].block).0 && |e'.fed| == |e.fed| + 1
  {
    CommitTarget(sha, parse, e.delivery, ps, k);
  }

  ghost function After(sha: Sha, parse: KeyParser, myID: string, e: Vars, p: Arrival): Vars
    requires Ready(e, p)
  {
    AfterHandlePropose(sha, parse, myID, e, p.block, p.store, p.sig)
  }

  /** One delivery without membership requests leaves another block deliverable. */
  lemma {:induction false} StaysDeliverable(sha: Sha, parse: KeyParser, v: DeliverVars, b: Block, c: Block)
    requires Deliverable(sha, v, b) && Deliverable(sha, v, c) && HashBlock(sha, b) != HashBlock(sha, c)
    ensures Deliverable(sha, AfterDeliver(sha, parse, v, b).0, c)
  {
    DeliverableDelivers(sha, parse, v, b);
  }

  lemma {:induction false} TwoDeliveries(sha: Sha, parse: KeyParser, v: DeliverVars, b: Block, c: Block)
    requires Deliverable(sha, v, b) && Deliverable(sha, v, c) && HashBlock(sha, b) != HashBlock(sha, c)
    ensures Run(sha, parse, v, [b, c]) == AfterDeliver(sha, parse, AfterDeliver(sha, parse, v, b).0, c).0
    ensures DeliveredIn(sha, parse, v, [b, c]) == [b, c]
  {
    assert [b, c][..1] == [b] && [b][..0] == [];
    DeliverableDelivers(sha, parse, v, b);
    StaysDeliverable(sha, parse, v, b, c);
    DeliverableDelivers(sha, parse, AfterDeliver(sha, parse, v, b).0, c);
    assert Run(sha, parse, v, [b]) == AfterDeliver(sha, parse, v, b).0;
    assert DeliveredIn(sha, parse, v, [b]) == [b];
  }

  lemma {:induction false} LogOfTwo(sha: Sha, parse: KeyParser, v: DeliverVars, b: Block, c: Block)
    requires DeliveredIn(sha, parse, v, [b, c]) == [b, c]
    ensures Run(sha, parse, v, [b, c]).log == v.log + ExecutionsOf([b, c])
  {
    ExecutedPerAttempt(sha, parse, v, [b, c]);
    AttemptedInAll(sha, parse, v, [b, c]);
  }

  /** What is delivered was attempted. */
  lemma {:induction false} AttemptedInAll(sha: Sha, parse: KeyParser, v: DeliverVars, blocks: seq<Block>)
    requires DeliveredIn(sha, parse, v, blocks) == blocks
    ensures AttemptedIn(sha, parse, v, blocks) == blocks
  {
    if blocks != [] {
      var init, last := blocks[..|blocks| - 1], blocks[|blocks| - 1];
      DeliveredAtMost(sha, parse, v, init);
      assert DeliveredIn(sha, parse, v, blocks) == init + [last];
      AttemptedInAll(sha, parse, v, init);
    }
  }

  lemma {:induction false} DeliveredAtMost(sha: Sha, parse: KeyParser, v: DeliverVars, blocks: seq<Block>)
    ensures |DeliveredIn(sha, parse, v, blocks)| <= |blocks|
  {
    if blocks != [] {
      DeliveredAtMost(sha, parse, v, blocks[..|blocks| - 1]);
    }
  }

  lemma {:induction false} OtherBlock(sha: Sha, ps: seq<Arrival>, k: nat, m: nat)
    requires CollisionFree(sha, Elements(Blocks(ps))) && LinkedProposals(sha, ps)
    requires 3 <= k < |ps| && 3 <= m < |ps| && k != m
    ensures HashBlock(sha, ps[k - 3].block) != HashBlock(sha, ps[m - 3].block)
  {
    if k < m {
      DistinctHeightsDistinctHashes(sha, ps, k - 3, m - 3);
    } else {
      DistinctHeightsDistinctHashes(sha, ps, m - 3, k - 3);
    }
  }

  /**
   * Two proposals of one linked run, handled in either order by a replica with an empty window: the blocks three below
   * them are delivered in that order, whichever is the ancestor.
   */
  lemma {:induction false} ArrivalDecides(sha: Sha, parse: KeyParser, myID: string, e: Vars,
      ps: seq<Arrival>, k: nat, m: nat)
    requires CollisionFree(sha, Elements(Blocks(ps))) && LinkedProposals(sha, ps) && e.fed == []
    requires 3 <= k < |ps| && 3 <= m < |ps| && k != m && Ready(e, ps[k]) && Ready(e, ps[m])
    requires Deliverable(sha, e.delivery, ps[k - 3].block) && Deliverable(sha, e.delivery, ps[m - 3].block)
    ensures Ready(After(sha, parse, myID, e, ps[k]), ps[m])
    ensures var b, c := ps[k - 3].block, ps[m - 3].block;
            && After(sha, parse, myID, After(sha, parse, myID, e, ps[k]), ps[m]).delivery ==
                 Run(sha, parse, e.delivery, [b, c])
            && DeliveredIn(sha, parse, e.delivery, [b, c]) == [b, c]
            && Run(sha, parse, e.delivery, [b, c]).log == e.delivery.log + ExecutionsOf([b, c])
  {
    var b, c := ps[k - 3].block, ps[m - 3].block;
    OtherBlock(sha, ps, k, m);
    TwoDeliveries(sha, parse, e.delivery, b, c);
    LogOfTwo(sha, parse, e.delivery, b, c);
    DeliverableDelivers(sha, parse, e.delivery, b);
    OneProposal(sha, parse, myID, e, ps, k);
    OneProposal(sha, parse, myID, After(sha, parse, myID, e, ps[k]), ps, m);
  }

  // ---------------------------------------------------------------- such proposals exist

  function Marking(): Sha {
    (x: Bytes) => [1] + x
  }

  lemma MarkingIsInjective(b: Block, c: Block)
    requires b.height < MAX64 && c.height < MAX64
    ensures !Collide(Marking(), b, c)
    ensures HashBlock(Marking(), b) == HashBlock(Marking(), c) ==> b.height == c.height
  {
    var p, q := HeaderPreimage(b), HeaderPreimage(c);
    assert ([1] + p)[1..] == p && ([1] + q)[1..] == q;
    if HashBlock(Marking(), b) == HashBlock(Marking(), c) {
      HeaderPreimageInjective(b, c);
    }
  }

  /** The next proposal of a leader that certifies the last one. */
  function NextProposal(sha: Sha, ps: seq<Arrival>, batch: seq<Request>, store: Store): Arrival {
    if ps == [] then Arrival(Block([], batch, None, 0, 0), store, Some([]))
    else
      var h := HashBlock(sha, ps[|ps| - 1].block);
      Arrival(Block(h, batch, Some(QuorumCert(|ps|, 0, h, [], [])), |ps|, 0), store, Some([]))
  }

  lemma {:induction false} LinkNext(sha: Sha, ps: seq<Arrival>, batch: seq<Request>, store: Store)
    requires LinkedProposals(sha, ps) && |ps| < MAX64
    requires forall i :: 0 <= i < |ps| ==> ps[i].block.height == i
    requires Holds(sha, ps, store)
    ensures LinkedProposals(sha, ps + [NextProposal(sha, ps, batch, store)])
  {
    var qs := ps + [NextProposal(sha, ps, batch, store)];
    forall k | 1 <= k < |qs|
      ensures ExtendsPrevious(sha, qs, k)
    {
      if k < |ps| {
        assert ExtendsPrevious(sha, ps, k);
      }
    }
    forall j, k | 0 <= j < k < |qs|
      ensures Precedes(sha, qs, j, k)
    {
      if k < |ps| {
        assert Precedes(sha, ps, j, k);
      }
    }
  }

  ghost predicate Holds(sha: Sha, ps: seq<Arrival>, store: Store) {
    forall i :: 0 <= i < |ps| ==>
      HashBlock(sha, ps[i].block) in store && store[HashBlock(sha, ps[i].block)] == ps[i].block
  }

  lemma {:induction false} StoreNext(ps: seq<Arrival>, last: Arrival, store: Store)
    requires Holds(Marking(), ps, store) && |ps| < MAX64 && last.block.height == |ps|
    requires forall i :: 0 <= i < |ps| ==> ps[i].block.height == i
    ensures Holds(Marking(), ps + [last], store[HashBlock(Marking(), last.block) := last.block])
  {
    forall i | 0 <= i < |ps|
      ensures HashBlock(Marking(), ps[i].block) != HashBlock(Marking(), last.block)
    {
      MarkingIsInjective(ps[i].block, last.block);
    }
  }

  /** Proposal i carries batch i, at height i and of the first configuration. */
  ghost predicate Carry(ps: seq<Arrival>, batches: seq<seq<Request>>) {
    && |ps| == |batches|
    && forall i :: 0 <= i < |ps| ==> ps[i].block.batch == batches[i] && ps[i].block.conf == 0 && ps[i].sig.Some? &&
                                     ps[i].block.height == i
  }

  lemma {:induction false} CarryNext(ps: seq<Arrival>, last: Arrival, batches: seq<seq<Request>>)
    requires batches != [] && Carry(ps, batches[..|batches| - 1])
    requires last.block.batch == batches[|batches| - 1] && last.block.conf == 0 && last.sig.Some?
    requires last.block.height == |ps|
    ensures Carry(ps + [last], batches)
  {
  }

  /** Linked proposals with any batches, under the digest that only marks its input. */
  lemma {:induction false} BuildLinked(batches: seq<seq<Request>>) returns (sha: Sha, ps: seq<Arrival>, store: Store)
    requires |batches| < MAX64
    ensures Carry(ps, batches) && LinkedProposals(sha, ps)
    ensures Holds(sha, ps, store)
    ensures sha == Marking()
  {
    if batches == [] {
      sha, ps, store := Marking(), [], map[];
    } else {
      var n := |batches| - 1;
      var init: seq<Arrival>, known: Store;
      sha, init, known := BuildLinked(batches[..n]);
      var last := NextProposal(sha, init, batches[n], known);
      ps, store := init + [last], known[HashBlock(sha, last.block) := last.block];
      LinkNext(sha, init, batches[n], known);
      StoreNext(init, last, known);
      CarryNext(init, last, batches);
    }
  }

  lemma {:induction false} FiveLinked(first: Request, second: Request) returns (sha: Sha, ps: seq<Arrival>)
    ensures |ps| == 5 && LinkedProposals(sha, ps) && CollisionFree(sha, Elements(Blocks(ps)))
    ensures ps[0].block.batch == [first] && ps[1].block.batch == [second]
    ensures ps[0].block.conf == ps[1].block.conf == ps[3].block.conf == ps[4].block.conf == 0
    ensures ps[3].sig.Some? && ps[4].sig.Some?
  {
    var store: Store;
    sha, ps, store := BuildLinked([[first], [second], [], [], []]);
    forall b, c | b in Blocks(ps) && c in Blocks(ps)
      ensures !Collide(sha, b, c)
    {
      MarkingIsInjective(b, c);
    }
  }

  /** The input written out: five linked blocks, the last two arriving in either order at a fresh replica. */
  lemma {:induction false} OppositeOrders(parse: KeyParser, myID: string, e: Vars, first: Request, second: Request)
      returns (sha: Sha, ps: seq<Arrival>)
    requires e.HasCommittee() && e.fed == [] && e.delivery.delivered == {} && e.delivery.log == []
    requires first.kind == Regular && second.kind == Regular
    ensures |ps| == 5 && Ready(e, ps[3]) && Ready(e, ps[4])
    ensures Ready(After(sha, parse, myID, e, ps[3]), ps[4]) && Ready(After(sha, parse, myID, e, ps[4]), ps[3])
    ensures After(sha, parse, myID, After(sha, parse, myID, e, ps[3]), ps[4]).delivery.log ==
            [Execution(first, 0), Execution(second, 0)]
    ensures After(sha, parse, myID, After(sha, parse, myID, e, ps[4]), ps[3]).delivery.log ==
            [Execution(second, 0), Execution(first, 0)]
  {
    sha, ps := FiveLinked(first, second);
    OneRegular(first);
    OneRegular(second);
    ArrivalDecides(sha, parse, myID, e, ps, 3, 4);
    ArrivalDecides(sha, parse, myID, e, ps, 4, 3);
    LogWritten(ps[0].block, ps[1].block, first, second);
    LogWritten(ps[1].block, ps[0].block, second, first);
  }

  lemma {:induction false} OneRegular(r: Request)
    requires r.kind == Regular
    ensures RegularPart([r]) == [r] && MembershipPart([r]) == []
  {
    assert [r][..0] == [];
  }

  lemma {:induction false} OneExecution(b: Block, r: Request)
    requires b.batch == [r] && r.kind == Regular
    ensures Executions(RegularPart(b.batch), b.conf) == [Execution(r, b.conf)]
  {
    OneRegular(r);
  }

  lemma {:induction false} LogWritten(b: Block, c: Block, r: Request, s: Request)
    requires b.batch == [r] && c.batch == [s] && b.conf == c.conf == 0 && r.kind == Regular && s.kind == Regular
    ensures ExecutionsOf([b, c]) == [Execution(r, 0), Execution(s, 0)]
  {
    OneExecution(b, r);
    OneExecution(c, s);
    assert [b, c] == [b] + [c] && [b] == [] + [b];
    ExecutionsAppend([b], c);
    ExecutionsAppend([], b);
  }
}
