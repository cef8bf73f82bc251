/** What a replica proposes: each block, and over whole runs the chain of them and the requests in them. */
module LeaderRuns {
  import opened Types
  import opened Encoding
  import opened Ancestry
  import opened Agreement
  import opened Engine
  import VoteRuns
  import ProposeRuns

  // ---------------------------------------------------------------- one proposal

  /**
   * The step broadcasts b and nothing else: on the justify's block, one higher than it if it is stored, of the latest
   * configuration, with the first hundred requests of the queue or all there are.
   */
  ghost predicate Proposes(e: Vars, e': Vars, b: Block, justify: Option<QuorumCert>, store: Store)
    requires e.delivery.configs != []
  {
    && e'.outbox == e.outbox + [Broadcast(b)]
    && b.justify == justify && ParentIsJustified(b) && b.conf == e.delivery.configs[|e.delivery.configs| - 1].number
    && b.height == (if justify.Some? && b.parentHash in store then store[b.parentHash].height + 1 else 0)
    && e.requestQ == b.batch + e'.requestQ && |b.batch| <= 100 && (|b.batch| < 100 ==> e'.requestQ == [])
  }

  lemma {:induction false} ProposingProposes(e: Vars, justify: Option<QuorumCert>, store: Store)
    requires e.delivery.configs != []
    ensures Proposes(e, AfterProposing(e, justify, store), Proposal(e, justify, store), justify, store)
  {
    var q, batch := e.requestQ, Proposal(e, justify, store).batch;
    assert q == q[..|batch|] + q[|batch|..];
  }

  /** A vote that forms a certificate makes the replica propose on it; no other vote does. */
  lemma {:induction false} VoteProposes(e: Vars, verify: VoteVerifier, vote: Vote, store: Store) returns (b: Block)
    requires e.HasCommittee()
    ensures var e' := AfterHandleVote(e, verify, vote, store);
            var qc := Completes(e.Latest(), verify, e.votesBuf, vote);
            if qc.Some? then Proposes(e, e', b, qc, store)
            else e'.outbox == e.outbox && e'.requestQ == e.requestQ
  {
    var qc := Completes(e.Latest(), verify, e.votesBuf, vote);
    b := Proposal(e, qc, store);
    if qc.Some? {
      var e1 := WithCertificate(e.(votesBuf := Collected(e.Latest(), verify, e.votesBuf, vote)), qc.value);
      assert Proposal(e1, qc, store) == b;
      ProposingProposes(e1, qc, store);
    }
  }

  /** A new-view message that completes a quorum makes it propose on its generic certificate; no other one does. */
  lemma {:induction false} NewViewProposes(e: Vars, msg: NewViewMsg, store: Store) returns (b: Block)
    requires e.HasCommittee()
    ensures var e' := AfterHandleNewView(e, msg, store);
            if e'.outbox != e.outbox then Proposes(e, e', b, e'.safety.genericQC, store)
            else e'.requestQ == e.requestQ
  {
    var msgs := (if msg.view in e.newViewBuf then e.newViewBuf[msg.view] else []) + [msg];
    var generic := WithHighest(e.safety.genericQC, msgs);
    b := Proposal(e, generic, store);
    if |msgs| >= e.Latest().QuorumSize() {
      var e1 := e.(newViewBuf := e.newViewBuf - {msg.view}, safety := e.safety.(genericQC := generic));
      assert Proposal(e1, generic, store) == b;
      ProposingProposes(e1, generic, store);
      ProposingKeeps(e1, generic, store);
    }
  }

  // ---------------------------------------------------------------- the requests in them

  /** What reaches a replica between the proposals of others. */
  datatype Input = Submitted(req: Request) | Arrived(ev: VoteRuns.Event)

  function Step(e: Vars, verify: VoteVerifier, input: Input): (e': Vars)
    requires e.HasCommittee()
    ensures e'.delivery == e.delivery
  {
    match input
    case Submitted(req) => e.(requestQ := e.requestQ + [req])
    case Arrived(ev) => VoteRuns.Step(e, verify, ev)
  }

  function After(e: Vars, verify: VoteVerifier, inputs: seq<Input>): (e': Vars)
    requires e.HasCommittee()
    ensures e'.delivery == e.delivery
  {
    if inputs == [] then e else Step(After(e, verify, inputs[..|inputs| - 1]), verify, inputs[|inputs| - 1])
  }

  function Requests(inputs: seq<Input>): seq<Request> {
    if inputs == [] then []
    else
      Requests(inputs[..|inputs| - 1]) +
      if inputs[|inputs| - 1].Submitted? then [inputs[|inputs| - 1].req] else []
  }

  /** The blocks among what was sent, in order, and the requests in these blocks. */
  function Proposed(outbox: seq<Message>): seq<Block> {
    if outbox == [] then []
    else
      Proposed(outbox[..|outbox| - 1]) +
      if outbox[|outbox| - 1].Broadcast? then [outbox[|outbox| - 1].block] else []
  }

  function Batched(blocks: seq<Block>): seq<Request> {
    if blocks == [] then [] else Batched(blocks[..|blocks| - 1]) + blocks[|blocks| - 1].batch
  }

  lemma {:induction false} ProposedNext(outbox: seq<Message>, m: Message)
    ensures Proposed(outbox + [m]) == Proposed(outbox) + if m.Broadcast? then [m.block] else []
  {
    assert (outbox + [m])[..|outbox + [m]| - 1] == outbox;
  }

  lemma {:induction false} BatchedNext(blocks: seq<Block>, b: Block)
    ensures Batched(blocks + [b]) == Batched(blocks) + b.batch
  {
    assert (blocks + [b])[..|blocks + [b]| - 1] == blocks;
  }

  /** Everything submitted so far is in a proposed block or in the queue, once and in order. */
  ghost predicate Conserved(e: Vars, given: seq<Request>) {
    && Batched(Proposed(e.outbox)) + e.requestQ == given
    && forall b :: b in Proposed(e.outbox) ==> |b.batch| <= 100
  }

  lemma {:induction false} ProposingConserves(e: Vars, e': Vars, b: Block, justify: Option<QuorumCert>, store: Store,
      given: seq<Request>)
    requires e.delivery.configs != [] && Proposes(e, e', b, justify, store) && Conserved(e, given)
    ensures Conserved(e', given)
  {
    ProposedNext(e.outbox, Broadcast(b));
    BatchedNext(Proposed(e.outbox), b);
    assert Batched(Proposed(e.outbox)) + (b.batch + e'.requestQ) == Batched(Proposed(e.outbox)) + b.batch + e'.requestQ;
  }

  lemma {:induction false} TimeoutConserves(e: Vars, cancelled: bool, given: seq<Request>)
    requires e.HasCommittee() && Conserved(e, given)
    ensures Conserved(AfterHandleTimeout(e, cancelled), given)
  {
    if !cancelled {
      var e' := AfterHandleTimeout(e, cancelled);
      ProposedNext(e.outbox, e'.outbox[|e.outbox|]);
      assert Proposed(e'.outbox) == Proposed(e.outbox) + [] == Proposed(e.outbox);
    }
  }

  lemma {:induction false} StepConserves(e: Vars, verify: VoteVerifier, input: Input, given: seq<Request>)
    requires e.HasCommittee() && Conserved(e, given)
    ensures Conserved(Step(e, verify, input), given + if input.Submitted? then [input.req] else [])
  {
    assert given + [] == given;
    match input
    case Submitted(req) =>
      assert Batched(Proposed(e.outbox)) + e.requestQ + [req] == Batched(Proposed(e.outbox)) + (e.requestQ + [req]);
    case Arrived(ev) =>
      match ev
      case VoteArrived(vote, store) =>
        var b := VoteProposes(e, verify, vote, store);
        var qc := Completes(e.Latest(), verify, e.votesBuf, vote);
        if qc.Some? {
          ProposingConserves(e, AfterHandleVote(e, verify, vote, store), b, qc, store, given);
        }
      case NewViewArrived(msg, store) =>
        var b := NewViewProposes(e, msg, store);
        var e' := AfterHandleNewView(e, msg, store);
        if e'.outbox != e.outbox {
          ProposingConserves(e, e', b, e'.safety.genericQC, store, given);
        }
      case TimedOut(cancelled) =>
        TimeoutConserves(e, cancelled, given);
  }

  /** Over every run the batches proposed, one after the other, and then the queue are the requests submitted. */
  lemma {:induction false} RequestsAreProposedInOrder(e: Vars, verify: VoteVerifier, inputs: seq<Input>)
    requires e.HasCommittee() && e.outbox == [] && e.requestQ == []
    ensures Conserved(After(e, verify, inputs), Requests(inputs))
  {
    if inputs == [] {
      assert Batched(Proposed(e.outbox)) == [];
    } else {
      var init, last := inputs[..|inputs| - 1], inputs[|inputs| - 1];
      RequestsAreProposedInOrder(e, verify, init);
      StepConserves(After(e, verify, init), verify, last, Requests(init));
    }
  }

  // ---------------------------------------------------------------- the chain of them

  /** If the step proposes, its justify certifies the last block proposed before, which is in store. */
  ghost predicate CertifiesLast(sha: Sha, e: Vars, e': Vars, store: Store) {
    var before, now := Proposed(e.outbox), Proposed(e'.outbox);
    |now| > |before| > 0 ==>
      var last := before[|before| - 1];
      && now[|before|].justify.Some? && now[|before|].justify.value.blockHash == HashBlock(sha, last)
      && HashBlock(sha, last) in store && store[HashBlock(sha, last)] == last
  }

  function StoreOf(ev: VoteRuns.Event): Store {
    match ev
    case VoteArrived(_, store) => store
    case NewViewArrived(_, store) => store
    case TimedOut(_) => map[]
  }

  /** Each proposal of the run is certified, and stored, before the next. */
  ghost predicate EachIsCertified(sha: Sha, e: Vars, verify: VoteVerifier, inputs: seq<Input>)
    requires e.HasCommittee()
  {
    inputs == [] ||
    var init, last := inputs[..|inputs| - 1], inputs[|inputs| - 1];
    && EachIsCertified(sha, e, verify, init)
    && (last.Arrived? ==>
          CertifiesLast(sha, After(e, verify, init), After(e, verify, inputs), StoreOf(last.ev)))
  }

  /** Each block extends and certifies the one before it, one higher. */
  ghost predicate Chained(sha: Sha, blocks: seq<Block>) {
    forall k :: 1 <= k < |blocks| ==> ChainedAt(sha, blocks, k)
  }

  ghost predicate ChainedAt(sha: Sha, blocks: seq<Block>, k: nat)
    requires 1 <= k < |blocks|
  {
    && blocks[k].parentHash == HashBlock(sha, blocks[k - 1])
    && blocks[k].justify.Some? && blocks[k].justify.value.blockHash == HashBlock(sha, blocks[k - 1])
    && blocks[k].height == blocks[k - 1].height + 1
  }

  lemma {:induction false} ChainGrows(sha: Sha, blocks: seq<Block>, b: Block)
    requires Chained(sha, blocks)
    requires blocks != [] ==> ChainedAt(sha, blocks + [b], |blocks|)
    ensures Chained(sha, blocks + [b])
  {
    forall k | 1 <= k < |blocks + [b]|
      ensures ChainedAt(sha, blocks + [b], k)
    {
      assert k < |blocks| ==> ChainedAt(sha, blocks, k);
    }
  }

  lemma {:induction false} ProposingChains(sha: Sha, e: Vars, e': Vars, b: Block, justify: Option<QuorumCert>,
      store: Store)
    requires e.delivery.configs != [] && Proposes(e, e', b, justify, store)
    requires Chained(sha, Proposed(e.outbox)) && CertifiesLast(sha, e, e', store)
    ensures Chained(sha, Proposed(e'.outbox))
  {
    var before := Proposed(e.outbox);
    ProposedNext(e.outbox, Broadcast(b));
    if before != [] {
      assert (before + [b])[|before|] == b && (before + [b])[|before| - 1] == before[|before| - 1];
    }
    ChainGrows(sha, before, b);
  }

  lemma {:induction false} StepChains(sha: Sha, e: Vars, verify: VoteVerifier, ev: VoteRuns.Event)
    requires e.HasCommittee() && Chained(sha, Proposed(e.outbox))
    requires CertifiesLast(sha, e, VoteRuns.Step(e, verify, ev), StoreOf(ev))
    ensures Chained(sha, Proposed(VoteRuns.Step(e, verify, ev).outbox))
  {
    match ev
    case VoteArrived(vote, store) =>
      var b := VoteProposes(e, verify, vote, store);
      var qc := Completes(e.Latest(), verify, e.votesBuf, vote);
      if qc.Some? {
        ProposingChains(sha, e, AfterHandleVote(e, verify, vote, store), b, qc, store);
      }
    case NewViewArrived(msg, store) =>
      var b := NewViewProposes(e, msg, store);
      var e' := AfterHandleNewView(e, msg, store);
      if e'.outbox != e.outbox {
        ProposingChains(sha, e, e', b, e'.safety.genericQC, store);
      }
    case TimedOut(cancelled) =>
      if !cancelled {
        var e' := AfterHandleTimeout(e, cancelled);
        ProposedNext(e.outbox, e'.outbox[|e.outbox|]);
        assert Proposed(e'.outbox) == Proposed(e.outbox) + [] == Proposed(e.outbox);
      }
  }

  /** Then the blocks broadcast form one chain, block by block, with growing heights. */
  lemma {:induction false} ProposalsAreChained(sha: Sha, e: Vars, verify: VoteVerifier, inputs: seq<Input>)
    requires e.HasCommittee() && e.outbox == [] && EachIsCertified(sha, e, verify, inputs)
    ensures Chained(sha, Proposed(After(e, verify, inputs).outbox))
  {
    if inputs != [] {
      var init, last := inputs[..|inputs| - 1], inputs[|inputs| - 1];
      ProposalsAreChained(sha, e, verify, init);
      if last.Arrived? {
        StepChains(sha, After(e, verify, init), verify, last.ev);
      }
    }
  }

  /** And they are linked proposals as the runs of a follower want them. */
  lemma {:induction false} ChainedExtends(sha: Sha, ps: seq<ProposeRuns.Arrival>, k: nat)
    requires Chained(sha, ProposeRuns.Blocks(ps)) && 1 <= k < |ps|
    ensures ProposeRuns.ExtendsPrevious(sha, ps, k)
  {
    assert ChainedAt(sha, ProposeRuns.Blocks(ps), k);
  }
}
