/** One replica: its handlers as atomic steps, as specification functions and as the class that performs them. */
module Engine {
  import opened Types
  import opened Encoding
  import opened Committee
  import opened Quorum
  import opened Ancestry
  import opened Safety
  import opened Pipeline
  import opened Delivery

  /** ECDSA verification of (view, configuration, block hash) under a member's key. */
  type VoteVerifier = (Key, Vote) -> bool

  datatype Message =
    | VoteTo(addr: string, vote: Vote)
    | Broadcast(block: Block)
    | NewViewTo(addr: string, msg: NewViewMsg)

  const BATCH_SIZE: nat := 100

  /** Everything a handler reads or writes. `fed` stands for the pipeline window. */
  datatype Vars = Vars(
    curView: nat,
    timeoutView: nat,
    safety: SafetyVars,
    fed: seq<Slot>,
    delivery: DeliverVars,
    votesBuf: map<nat, seq<Vote>>,
    newViewBuf: map<nat, seq<NewViewMsg>>,
    requestQ: seq<Request>,
    outbox: seq<Message>)
  {
    function Latest(): Config
      requires delivery.configs != []
    {
      delivery.configs[|delivery.configs| - 1]
    }

    /** Picking a leader panics on an empty committee. */
    predicate HasCommittee() {
      delivery.configs != [] && Latest().replicas != []
    }
  }

  // ---------------------------------------------------------------- HandlePropose

  /** The three-chain commit. */
  function Commit(sha: Sha, parse: KeyParser, v: DeliverVars, bStar: Block, store: Store): DeliverVars {
    match Certified(store, bStar)
    case None => v
    case Some(bDouble) =>
      match Certified(store, bDouble)
      case None => v
      case Some(bPrime) =>
        match Certified(store, bPrime)
        case None => v
        case Some(b) =>
          if CheckThreeChain(sha, bStar, bDouble, bPrime, b) then AfterDeliver(sha, parse, v, b).0 else v
  }

  function PipelineCommit(sha: Sha, parse: KeyParser, v: DeliverVars, fed: seq<Slot>): DeliverVars {
    match Output(sha, fed)
    case None => v
    case Some(b) => AfterDeliver(sha, parse, v, b).0
  }

  /** A leader is picked only for a vote that is cast. */
  ghost predicate CanAnswer(e: Vars, block: Block, store: Store, sig: Option<Bytes>) {
    && e.delivery.configs != []
    && (block.conf <= e.Latest().number && SafeNode(e.safety, block, block.justify, store) && sig.Some? ==>
          e.HasCommittee())
  }

  ghost function AfterHandlePropose(sha: Sha, parse: KeyParser, myID: string, e: Vars, block: Block, store: Store,
                                    sig: Option<Bytes>): Vars
    requires CanAnswer(e, block, store, sig)
  {
    var mc := e.Latest();
    if block.conf > mc.number then e
    else
      var safe := SafeNode(e.safety, block, block.justify, store);
      if safe && sig == None then e
      else
        var out :=
          if safe then
            e.outbox + [VoteTo(mc.Leader(e.curView).addr,
                               Vote(e.curView, mc.number, HashBlock(sha, block), sig.value, myID))]
          else e.outbox;
        var fed := e.fed + [Some(block)];
        e.(outbox := out,
           safety := AfterPropose(sha, e.safety, block, store),
           fed := fed,
           delivery := PipelineCommit(sha, parse, Commit(sha, parse, e.delivery, block, store), fed))
  }

  // ---------------------------------------------------------------- proposing

  function Newer(generic: Option<QuorumCert>, qc: QuorumCert): Option<QuorumCert> {
    if generic == None || qc.view > generic.value.view then Some(qc) else generic
  }

  function Proposal(e: Vars, justify: Option<QuorumCert>, store: Store): Block
    requires e.delivery.configs != []
  {
    var batch := e.requestQ[..if |e.requestQ| < BATCH_SIZE then |e.requestQ| else BATCH_SIZE];
    match justify
    case None => Block([], batch, None, 0, e.Latest().number)
    case Some(qc) =>
      var height := if qc.blockHash in store then store[qc.blockHash].height + 1 else 0;
      Block(qc.blockHash, batch, justify, height, e.Latest().number)
  }

  function AfterProposing(e: Vars, justify: Option<QuorumCert>, store: Store): Vars
    requires e.delivery.configs != []
  {
    var block := Proposal(e, justify, store);
    e.(requestQ := e.requestQ[|block.batch|..], outbox := e.outbox + [Broadcast(block)])
  }

  /** Proposing takes from the queue and adds to the outbox, and touches nothing else. */
  lemma {:induction false} ProposingKeeps(e: Vars, justify: Option<QuorumCert>, store: Store)
    requires e.delivery.configs != []
    ensures var e' := AfterProposing(e, justify, store);
            && e' == e.(requestQ := e'.requestQ, outbox := e'.outbox)
            && |e'.outbox| == |e.outbox| + 1 && e'.outbox[..|e.outbox|] == e.outbox
            && e'.outbox[|e.outbox|] == Broadcast(Proposal(e, justify, store))
  {
  }

  // ---------------------------------------------------------------- votes, new views, timeouts

  predicate Accepted(mc: Config, verify: VoteVerifier, vote: Vote) {
    match Find(mc.replicas, vote.signer)
    case None => false
    case Some(r) => r.key.Some? && verify(r.key.value, vote)
  }

  /**
   * A vote is signed over the block's configuration number where it is verified over the replica's view: the two
   * tuples are the same exactly when those numbers are.
   */
  lemma {:induction false} SignedIsVerified(block: Block, view: nat, conf: nat, hash: Hash)
    requires block.conf < MAX64 && view < MAX64 && conf < MAX64
    ensures VotePreimage(block.conf, conf, hash) == VotePreimage(view, conf, hash) <==> block.conf == view
  {
    if VotePreimage(block.conf, conf, hash) == VotePreimage(view, conf, hash) {
      VotePreimageInjective(block.conf, conf, hash, view, conf, hash);
    }
  }

  type VoteBuffers = map<nat, seq<Vote>>

  function Buffered(buffers: VoteBuffers, view: nat): seq<Vote> {
    if view in buffers then buffers[view] else []
  }

  /** The certificate this vote completes, if any. */
  function Completes(mc: Config, verify: VoteVerifier, buffers: VoteBuffers, vote: Vote): Option<QuorumCert> {
    if Accepted(mc, verify, vote) then Certificate(Aggregate(Buffered(buffers, vote.view), vote), mc) else None
  }

  /** An accepted vote joins its view's buffer; a completed buffer is deleted. */
  function Collected(mc: Config, verify: VoteVerifier, buffers: VoteBuffers, vote: Vote): VoteBuffers {
    if !Accepted(mc, verify, vote) then buffers
    else if Completes(mc, verify, buffers, vote).Some? then buffers - {vote.view}
    else buffers[vote.view := Aggregate(Buffered(buffers, vote.view), vote)]
  }

  function AfterHandleVote(e: Vars, verify: VoteVerifier, vote: Vote, store: Store): Vars
    requires e.delivery.configs != []
  {
    var e1 := e.(votesBuf := Collected(e.Latest(), verify, e.votesBuf, vote));
    var qc := Completes(e.Latest(), verify, e.votesBuf, vote);
    if qc == None then e1 else AfterProposing(WithCertificate(e1, qc.value), qc, store)
  }

  function WithCertificate(e: Vars, qc: QuorumCert): Vars {
    e.(curView := e.curView + 1, safety := e.safety.(genericQC := Newer(e.safety.genericQC, qc)))
  }

  /** The first certificate of the largest view. */
  function HighestQC(msgs: seq<NewViewMsg>): Option<QuorumCert> {
    if msgs == [] then None
    else
      var best := HighestQC(msgs[..|msgs| - 1]);
      match msgs[|msgs| - 1].genericQC
      case None => best
      case Some(qc) => Newer(best, qc)
  }

  lemma {:induction false} NoHighestQC(msgs: seq<NewViewMsg>)
    ensures HighestQC(msgs) == None <==> forall i :: 0 <= i < |msgs| ==> msgs[i].genericQC == None
  {
    if msgs != [] {
      NoHighestQC(msgs[..|msgs| - 1]);
    }
  }

  lemma {:induction false} HighestQCIsHighest(msgs: seq<NewViewMsg>) returns (i: nat)
    requires HighestQC(msgs).Some?
    ensures i < |msgs| && msgs[i].genericQC == HighestQC(msgs)
    ensures forall j :: 0 <= j < |msgs| ==>
              msgs[j].genericQC == None || msgs[j].genericQC.value.view <= HighestQC(msgs).value.view
    ensures forall j :: 0 <= j < i ==>
              msgs[j].genericQC == None || msgs[j].genericQC.value.view < HighestQC(msgs).value.view
  {
    var init, last := msgs[..|msgs| - 1], msgs[|msgs| - 1];
    NoHighestQC(init);
    if HighestQC(init) == None {
      i := |init|;
      assert forall j :: 0 <= j < i ==> msgs[j].genericQC == init[j].genericQC;
    } else {
      i := HighestQCIsHighest(init);
      assert forall j :: 0 <= j < |init| ==> msgs[j] == init[j];
      if last.genericQC.Some? && last.genericQC.value.view > HighestQC(init).value.view {
        i := |init|;
      }
    }
  }

  method HighestViewQC(msgs: seq<NewViewMsg>) returns (best: Option<QuorumCert>)
    ensures best == HighestQC(msgs)
  {
    best := None;
    var bestView: nat := 0;
    for i := 0 to |msgs|
      invariant best == HighestQC(msgs[..i]) && (best.Some? ==> bestView == best.value.view)
    {
      assert msgs[..i + 1][..i] == msgs[..i];
      var qc := msgs[i].genericQC;
      if qc == None {
        continue;
      }
      if best == None || qc.value.view > bestView {
        best := qc;
        bestView := qc.value.view;
      }
    }
    assert msgs[..|msgs|] == msgs;
  }

  function WithHighest(generic: Option<QuorumCert>, msgs: seq<NewViewMsg>): Option<QuorumCert> {
    match HighestQC(msgs)
    case None => generic
    case Some(qc) => Newer(generic, qc)
  }

  function AfterHandleNewView(e: Vars, msg: NewViewMsg, store: Store): Vars
    requires e.HasCommittee()
  {
    var msgs := (if msg.view in e.newViewBuf then e.newViewBuf[msg.view] else []) + [msg];
    if |msgs| < e.Latest().QuorumSize() then e.(newViewBuf := e.newViewBuf[msg.view := msgs])
    else
      var generic := WithHighest(e.safety.genericQC, msgs);
      var e1 := e.(newViewBuf := e.newViewBuf - {msg.view}, safety := e.safety.(genericQC := generic));
      AfterProposing(e1, generic, store)
  }

  /** `cancelled`: the caller's context ended before the new-view message left. */
  function AfterHandleTimeout(e: Vars, cancelled: bool): Vars
    requires e.HasCommittee()
  {
    var view := e.timeoutView + 1;
    var msg := NewViewMsg(view, e.Latest().number, e.safety.genericQC);
    e.(timeoutView := view,
       curView := view,
       outbox := if cancelled then e.outbox else e.outbox + [NewViewTo(e.Latest().Leader(view).addr, msg)],
       votesBuf := e.votesBuf - {e.curView},
       fed := [])
  }

  // ---------------------------------------------------------------- the replica

  class DHotStuff {
    const sha: Sha
    const parse: KeyParser
    const verify: VoteVerifier
    const myID: string
    const safety: SafetyState
    const pipeline: PipelineState
    const deliverer: Deliverer
    var curView: nat
    var timeoutView: nat
    var votesBuf: map<nat, seq<Vote>>
    var newViewBuf: map<nat, seq<NewViewMsg>>
    /** A channel with room for queueSize requests. */
    const queueSize: nat
    var requestQ: seq<Request>
    var outbox: seq<Message>

    ghost predicate Valid()
      reads this, pipeline, pipeline.window, deliverer
    {
      pipeline.Valid() && deliverer.sha == sha && deliverer.parse == parse && |requestQ| <= queueSize
    }

    ghost function State(): Vars
      reads this, safety, pipeline, deliverer, deliverer.configs
    {
      Vars(curView, timeoutView, safety.Vars(), pipeline.fed, deliverer.Vars(), votesBuf, newViewBuf, requestQ, outbox)
    }

    constructor (sha: Sha, parse: KeyParser, verify: VoteVerifier, myID: string, configs: ConfigStore, queueSize: nat)
      ensures Valid() && fresh(safety) && fresh(pipeline) && fresh(pipeline.window) && fresh(deliverer)
      ensures deliverer.configs == configs && this.queueSize == queueSize
      ensures State() == Vars(0, 0, INITIAL_SAFETY, [], DeliverVars({}, configs.configs, []), map[], map[], [], [])
    {
      this.sha, this.parse, this.verify, this.myID, this.queueSize := sha, parse, verify, myID, queueSize;
      safety := new SafetyState();
      pipeline := new PipelineState();
      deliverer := new Deliverer(sha, parse, configs);
      curView, timeoutView := 0, 0;
      votesBuf, newViewBuf := map[], map[];
      requestQ, outbox := [], [];
    }

    /** A send on the bounded channel; `sent` is false while the caller has to wait for room. */
    method SubmitRequest(req: Request) returns (sent: bool)
      requires Valid()
      modifies this`requestQ
      ensures Valid() && (sent <==> old(|requestQ|) < queueSize)
      ensures requestQ == if sent then old(requestQ) + [req] else old(requestQ)
    {
      sent := |requestQ| < queueSize;
      if sent {
        requestQ := requestQ + [req];
      }
    }

    method Get(store: Store, justify: Option<QuorumCert>) returns (b: Option<Block>)
      ensures forall block: Block :: block.justify == justify ==> b == Certified(store, block)
    {
      b := if justify.Some? && justify.value.blockHash in store then Some(store[justify.value.blockHash]) else None;
    }

    /** The voting part; `proceed` is false when signing failed. */
    method CastVote(block: Block, store: Store, sig: Option<Bytes>) returns (proceed: bool)
      requires State().delivery.configs != []
      requires SafeNode(safety.Vars(), block, block.justify, store) && sig.Some? ==> State().HasCommittee()
      modifies this`outbox
      ensures proceed <==> (SafeNode(safety.Vars(), block, block.justify, store) ==> sig.Some?)
      ensures outbox ==
              if SafeNode(safety.Vars(), block, block.justify, store) && sig.Some? then
                old(outbox) + [VoteTo(State().Latest().Leader(curView).addr,
                                      Vote(curView, State().Latest().number, HashBlock(sha, block), sig.value, myID))]
              else old(outbox)
    {
      var mc := deliverer.configs.Latest();
      proceed := true;
      var safe := safety.CheckSafeNode(block, block.justify, store);
      if safe {
        var hash := HashBlock(sha, block);
        if sig == None {
          return false;
        }
        var leader := mc.Leader(curView);
        outbox := outbox + [VoteTo(leader.addr, Vote(curView, mc.number, hash, sig.value, myID))];
      }
    }

    /** The one-, two- and three-chain rules. */
    method FollowChain(block: Block, store: Store)
      requires deliverer.sha == sha && deliverer.parse == parse
      modifies safety, deliverer`delivered, deliverer`log, deliverer.configs
      ensures safety.Vars() == AfterPropose(sha, old(safety.Vars()), block, store)
      ensures deliverer.Vars() == Commit(sha, parse, old(deliverer.Vars()), block, store)
    {
      var bDouble := Get(store, block.justify);
      if bDouble.Some? {
        safety.UpdateOnOneChain(sha, block, bDouble.value);
        var bPrime := Get(store, bDouble.value.justify);
        if bPrime.Some? {
          safety.UpdateOnTwoChain(sha, block, bDouble.value, bPrime.value);
          var b := Get(store, bPrime.value.justify);
          if b.Some? && CheckThreeChain(sha, block, bDouble.value, bPrime.value, b.value) {
            var err := deliverer.Deliver(b.value);
          }
        }
      }
    }

    method FollowPipeline(block: Block)
      requires Valid()
      modifies pipeline`fed, pipeline.window, deliverer`delivered, deliverer`log, deliverer.configs
      ensures Valid() && pipeline.fed == old(pipeline.fed) + [Some(block)]
      ensures deliverer.Vars() == PipelineCommit(sha, parse, old(deliverer.Vars()), pipeline.fed)
    {
      var toDeliver := pipeline.Advance(sha, Some(block));
      if toDeliver.Some? {
        var err := deliverer.Deliver(toDeliver.value);
      }
    }

    /** The chain rules, then the window. */
    method Follow(block: Block, store: Store)
      requires Valid()
      modifies safety, pipeline`fed, pipeline.window, deliverer`delivered, deliverer`log, deliverer.configs
      ensures Valid() && pipeline.fed == old(pipeline.fed) + [Some(block)]
      ensures safety.Vars() == AfterPropose(sha, old(safety.Vars()), block, store)
      ensures deliverer.Vars() ==
              PipelineCommit(sha, parse, Commit(sha, parse, old(deliverer.Vars()), block, store), pipeline.fed)
    {
      FollowChain(block, store);
      FollowPipeline(block);
    }

    method HandlePropose(block: Block, store: Store, sig: Option<Bytes>)
      requires Valid() && CanAnswer(State(), block, store, sig)
      modifies this`outbox, safety, pipeline`fed, pipeline.window,
               deliverer`delivered, deliverer`log, deliverer.configs
      ensures Valid()
      ensures State() == AfterHandlePropose(sha, parse, myID, old(State()), block, store, sig)
    {
      ghost var e := State();
      var mc := deliverer.configs.Latest();
      if block.conf > mc.number {
        return;
      }
      var proceed := CastVote(block, store, sig);
      ghost var out := outbox;
      assert State() == e.(outbox := out);
      if proceed {
        Follow(block, store);
        var fed := e.fed + [Some(block)];
        assert State() == e.(outbox := out, safety := AfterPropose(sha, e.safety, block, store), fed := fed,
                             delivery := PipelineCommit(sha, parse, Commit(sha, parse, e.delivery, block, store), fed));
      }
    }

    method DrainRequests() returns (batch: seq<Request>)
      modifies this`requestQ
      ensures batch + requestQ == old(requestQ)
      ensures |batch| == if |old(requestQ)| < BATCH_SIZE then |old(requestQ)| else BATCH_SIZE
    {
      batch := [];
      for i := 0 to BATCH_SIZE
        invariant batch + requestQ == old(requestQ)
        invariant |batch| == if |old(requestQ)| < i then |old(requestQ)| else i
      {
        if requestQ != [] {
          batch := batch + [requestQ[0]];
          requestQ := requestQ[1..];
        }
      }
    }

    method Propose(justify: Option<QuorumCert>, store: Store)
      requires deliverer.configs.configs != []
      modifies this`requestQ, this`outbox
      ensures var block := Proposal(old(State()), justify, store);
              && requestQ == old(requestQ)[|block.batch|..]
              && outbox == old(outbox) + [Broadcast(block)]
      ensures |requestQ| <= old(|requestQ|)
    {
      var mc := deliverer.configs.Latest();
      var batch := DrainRequests();
      var parentHash: Hash, height: nat := [], 0;
      if justify.Some? {
        parentHash := justify.value.blockHash;
        if parentHash in store {
          height := store[parentHash].height + 1;
        }
      }
      assert batch == old(requestQ)[..|batch|];
      outbox := outbox + [Broadcast(Block(parentHash, batch, justify, height, mc.number))];
    }

    /** Buffers a vote and forms the certificate it completes; the error branch of `CreateQC` is dead. */
    method BufferVote(mc: Config, vote: Vote) returns (qc: Option<QuorumCert>)
      modifies this`votesBuf
      ensures qc == Certificate(Aggregate(Buffered(old(votesBuf), vote.view), vote), mc)
      ensures votesBuf ==
              if qc.Some? then old(votesBuf) - {vote.view}
              else old(votesBuf)[vote.view := Aggregate(Buffered(old(votesBuf), vote.view), vote)]
    {
      var existing := if vote.view in votesBuf then votesBuf[vote.view] else [];
      var votes := AggregateVotes(existing, vote);
      votesBuf := votesBuf[vote.view := votes];
      var quorum := HasQuorum(votes, mc);
      if !quorum {
        return None;
      }
      qc := CreateQC(votes, mc);
      if qc == None {
        assert false;
      }
      votesBuf := votesBuf - {vote.view};
      assert votesBuf == old(votesBuf) - {vote.view};
    }

    /** A vote counts if its signer is a member with a key and its signature verifies. */
    method CollectVote(mc: Config, vote: Vote) returns (qc: Option<QuorumCert>)
      modifies this`votesBuf
      ensures qc == Completes(mc, verify, old(votesBuf), vote)
      ensures votesBuf == Collected(mc, verify, old(votesBuf), vote)
    {
      var replica := Find(mc.replicas, vote.signer);
      if replica == None || replica.value.key == None {
        return None;
      }
      if !verify(replica.value.key.value, vote) {
        return None;
      }
      qc := BufferVote(mc, vote);
    }

    method HandleVote(vote: Vote, store: Store)
      requires Valid() && deliverer.configs.configs != []
      modifies this`curView, this`votesBuf, this`requestQ, this`outbox, safety`genericQC
      ensures Valid()
      ensures State() == AfterHandleVote(old(State()), verify, vote, store)
    {
      var mc := deliverer.configs.Latest();
      assert mc == State().Latest();
      var qc := CollectVote(mc, vote);
      assert State() == old(State()).(votesBuf := votesBuf);
      if qc.Some? {
        ProposeWith(qc.value, store);
      }
    }

    /** The certificate moves the replica to the next view and justifies its proposal. */
    method ProposeWith(qc: QuorumCert, store: Store)
      requires deliverer.configs.configs != []
      modifies this`curView, this`requestQ, this`outbox, safety`genericQC
      ensures State() == AfterProposing(WithCertificate(old(State()), qc), Some(qc), store)
      ensures |requestQ| <= old(|requestQ|)
    {
      curView := curView + 1;
      Adopt(qc);
      assert State() == WithCertificate(old(State()), qc);
      Propose(Some(qc), store);
    }

    method Adopt(qc: QuorumCert)
      modifies safety`genericQC
      ensures safety.genericQC == Newer(old(safety.genericQC), qc)
    {
      if safety.genericQC == None || qc.view > safety.genericQC.value.view {
        safety.genericQC := Some(qc);
      }
    }

    method HandleNewView(msg: NewViewMsg, store: Store)
      requires Valid() && State().HasCommittee()
      modifies this`newViewBuf, this`requestQ, this`outbox, safety`genericQC
      ensures Valid()
      ensures State() == AfterHandleNewView(old(State()), msg, store)
    {
      var msgs := (if msg.view in newViewBuf then newViewBuf[msg.view] else []) + [msg];
      newViewBuf := newViewBuf[msg.view := msgs];
      var mc := deliverer.configs.Latest();
      if |msgs| < mc.QuorumSize() {
        return;
      }
      var highQC := HighestViewQC(msgs);
      newViewBuf := newViewBuf - {msg.view};
      assert newViewBuf == old(newViewBuf) - {msg.view};
      ghost var e1 := State();
      AdoptHighest(highQC, msgs);
      ghost var e2 := State();
      assert e2 == e1.(safety := e1.safety.(genericQC := safety.genericQC));
      Propose(safety.genericQC, store);
      assert State() == AfterProposing(e2, safety.genericQC, store);
    }

    method AdoptHighest(highQC: Option<QuorumCert>, ghost msgs: seq<NewViewMsg>)
      requires highQC == HighestQC(msgs)
      modifies safety`genericQC
      ensures safety.genericQC == WithHighest(old(safety.genericQC), msgs)
    {
      if highQC.Some? {
        Adopt(highQC.value);
      }
    }

    method HandleTimeout(cancelled: bool)
      requires Valid() && State().HasCommittee()
      modifies this`curView, this`timeoutView, this`votesBuf, this`outbox, pipeline`fed, pipeline.window
      ensures Valid()
      ensures State() == AfterHandleTimeout(old(State()), cancelled)
    {
      var timedOutView := curView;
      timeoutView := timeoutView + 1;
      var mc := deliverer.configs.Latest();
      var nextLeader := mc.Leader(timeoutView);
      if !cancelled {
        outbox := outbox + [NewViewTo(nextLeader.addr, NewViewMsg(timeoutView, mc.number, safety.genericQC))];
      }
      votesBuf := votesBuf - {timedOutView};
      pipeline.Reset();
      curView := timeoutView;
    }
  }
}
