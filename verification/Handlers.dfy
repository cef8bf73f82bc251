/** What one call of a handler does to a replica, read off its inputs and outputs. */
module Handlers {
  import opened Types
  import opened Encoding
  import opened Committee
  import opened Ancestry
  import opened Safety
  import opened Pipeline
  import opened Engine

  // ---------------------------------------------------------------- a proposal

  /** Nothing is locked, the justify is newer than the lock, or the lock is at most 1023 parents below. */
  ghost predicate MayVote(e: Vars, block: Block, store: Store) {
    match e.safety.lockedQC
    case None => true
    case Some(lock) =>
      || (block.justify.Some? && block.justify.value.view > lock.view)
      || exists k: nat :: k <= 1023 && Hop(store, block.parentHash, k) == Some(lock.blockHash)
  }

  lemma {:induction false} MayVoteIsSafe(e: Vars, block: Block, store: Store)
    ensures MayVote(e, block, store) <==> SafeNode(e.safety, block, block.justify, store)
  {
    if e.safety.lockedQC.Some? {
      var lock := e.safety.lockedQC.value;
      if Extends(store, block.parentHash, lock.blockHash) {
        var k: nat :| k < MAX_HOPS && Hop(store, block.parentHash, k) == Some(lock.blockHash);
        assert k <= 1023;
      }
      if k: nat :| k <= 1023 && Hop(store, block.parentHash, k) == Some(lock.blockHash) {
        assert k < MAX_HOPS;
      }
    }
  }

  /** A proposal leaves no trace if it is of a later configuration or cannot be signed; otherwise the window gets it. */
  lemma {:induction false} ProposalIsIgnoredIff(sha: Sha, parse: KeyParser, myID: string, e: Vars, block: Block,
      store: Store, sig: Option<Bytes>)
    requires CanAnswer(e, block, store, sig)
    ensures var e' := AfterHandlePropose(sha, parse, myID, e, block, store, sig);
            && (e' == e <==> block.conf > e.Latest().number || (MayVote(e, block, store) && sig == None))
            && (e' != e ==> e'.fed == e.fed + [Some(block)])
            && e' == e.(outbox := e'.outbox, safety := e'.safety, fed := e'.fed, delivery := e'.delivery)
  {
    MayVoteIsSafe(e, block, store);
    assert |e.fed + [Some(block)]| == |e.fed| + 1;
  }

  /**
   * Exactly one vote leaves, for a proposal that is not ignored and may be voted for: for its hash, in the replica's
   * view and configuration, under the replica's name, to the leader of that view.
   */
  lemma {:induction false} VoteIsSentIff(sha: Sha, parse: KeyParser, myID: string, e: Vars, block: Block, store: Store,
      sig: Option<Bytes>)
    requires CanAnswer(e, block, store, sig)
    ensures var mc, out := e.Latest(), AfterHandlePropose(sha, parse, myID, e, block, store, sig).outbox;
            if block.conf <= mc.number && MayVote(e, block, store) && sig.Some? then
              && mc.replicas != [] && |out| == |e.outbox| + 1 && out[..|e.outbox|] == e.outbox
              && out[|e.outbox|].VoteTo? && out[|e.outbox|].addr == mc.replicas[e.curView % |mc.replicas|].addr
              && var vote := out[|e.outbox|].vote;
                 && vote.blockHash == HashBlock(sha, block) && vote.view == e.curView && vote.conf == mc.number
                 && vote.signer == myID && vote.sig == sig.value
            else out == e.outbox
  {
    MayVoteIsSafe(e, block, store);
  }

  /** The justify names a stored block, and the parent hash is that block's. */
  ghost predicate LinksToCertified(sha: Sha, block: Block, store: Store) {
    && block.justify.Some? && block.justify.value.blockHash in store
    && block.parentHash == HashBlock(sha, store[block.justify.value.blockHash])
  }

  /** Then the proposal's own certificate becomes the generic one, and certifies its parent; else nothing changes. */
  lemma {:induction false} GenericAfterProposal(sha: Sha, s: SafetyVars, block: Block, store: Store)
    ensures var generic := AfterPropose(sha, s, block, store).genericQC;
            if LinksToCertified(sha, block, store) then
              && generic == block.justify
              && (HashBlock(sha, store[generic.value.blockHash]) == generic.value.blockHash ==>
                    generic.value.blockHash == block.parentHash)
            else generic == s.genericQC
  {
  }

  /** So the generic certificate moves to an older view exactly when a linked proposal carries an older one. */
  lemma {:induction false} GenericFallsBackIff(sha: Sha, s: SafetyVars, block: Block, store: Store)
    requires s.genericQC.Some?
    ensures ViewOf(AfterPropose(sha, s, block, store).genericQC) < s.genericQC.value.view <==>
            LinksToCertified(sha, block, store) && block.justify.value.view < s.genericQC.value.view
  {
    GenericAfterProposal(sha, s, block, store);
  }

  lemma {:induction false} GenericAfterHandling(sha: Sha, parse: KeyParser, myID: string, e: Vars, block: Block,
      store: Store, sig: Option<Bytes>)
    requires CanAnswer(e, block, store, sig)
    ensures var e' := AfterHandlePropose(sha, parse, myID, e, block, store, sig);
            if e' != e && LinksToCertified(sha, block, store) then e'.safety.genericQC == block.justify
            else e'.safety.genericQC == e.safety.genericQC
  {
    GenericAfterProposal(sha, e.safety, block, store);
  }

  // ---------------------------------------------------------------- a timeout

  /** The new-view message carries the view entered and the generic certificate, and goes to that view's leader. */
  lemma {:induction false} TimeoutSends(e: Vars, cancelled: bool)
    requires e.HasCommittee()
    ensures var mc, view, e' := e.Latest(), e.timeoutView + 1, AfterHandleTimeout(e, cancelled);
            && e'.curView == e'.timeoutView == view
            && if cancelled then e'.outbox == e.outbox
               else
                 && |e'.outbox| == |e.outbox| + 1 && e'.outbox[..|e.outbox|] == e.outbox
                 && var m := e'.outbox[|e.outbox|];
                    && m.NewViewTo? && m.addr == mc.replicas[view % |mc.replicas|].addr
                    && m.msg.view == view && m.msg.conf == mc.number && m.msg.genericQC == e.safety.genericQC
  {
  }

  /** The votes of the view that is left are forgotten, and no others; what else was collected stays. */
  lemma {:induction false} TimeoutForgets(e: Vars, cancelled: bool)
    requires e.HasCommittee()
    ensures var e' := AfterHandleTimeout(e, cancelled);
            && (forall view ::
                  Buffered(e'.votesBuf, view) == if view == e.curView then [] else Buffered(e.votesBuf, view))
            && e'.newViewBuf == e.newViewBuf && e'.requestQ == e.requestQ
            && e'.safety == e.safety && e'.delivery == e.delivery
  {
  }

  /** After a timeout nothing comes out of the window before the fifth proposal. */
  lemma {:induction false} WindowRefills(sha: Sha, e: Vars, cancelled: bool, slots: seq<Slot>)
    requires e.HasCommittee() && |slots| <= 4
    ensures Output(sha, AfterHandleTimeout(e, cancelled).fed + slots) == None
  {
  }
}
