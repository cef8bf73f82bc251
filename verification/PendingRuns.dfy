/** When exactly a certificate is formed, over every run of votes, new views and timeouts. */
module PendingRuns {
  import opened Types
  import opened Committee
  import opened Quorum
  import opened Ancestry
  import opened Engine
  import opened VoteRuns

  /** The signer is a member with a key, and its signature verifies. */
  predicate Signed(mc: Config, verify: VoteVerifier, vote: Vote) {
    var r := Find(mc.replicas, vote.signer);
    r.Some? && r.value.key.Some? && verify(r.value.key.value, vote)
  }

  predicate IsValidVote(mc: Config, verify: VoteVerifier, ev: Event, view: nat) {
    ev.VoteArrived? && ev.vote.view == view && Signed(mc, verify, ev.vote)
  }

  /** How many members these votes come from. */
  function VoterCount(votes: seq<Vote>): nat {
    |Elements(Signers(votes))|
  }

  /** The valid votes for a view since Qc members' made a certificate, and since the replica timed out in that view. */
  function Pending(e: Vars, verify: VoteVerifier, evs: seq<Event>, view: nat): seq<Vote>
    requires e.HasCommittee()
  {
    if evs == [] then []
    else
      var init, last := evs[..|evs| - 1], evs[|evs| - 1];
      var before := Pending(e, verify, init, view);
      if IsValidVote(e.Latest(), verify, last, view) then
        if VoterCount(before + [last.vote]) >= e.Latest().QuorumSize() then [] else before + [last.vote]
      else if last.TimedOut? && After(e, verify, init).curView == view then []
      else before
  }

  ghost predicate CameIn(e: Vars, verify: VoteVerifier, evs: seq<Event>, view: nat, v: Vote)
    requires e.HasCommittee()
  {
    exists i :: 0 <= i < |evs| && IsValidVote(e.Latest(), verify, evs[i], view) && evs[i].vote == v
  }

  lemma {:induction false} PendingNext(e: Vars, verify: VoteVerifier, init: seq<Event>, last: Event, view: nat)
    requires e.HasCommittee()
    ensures var before := Pending(e, verify, init, view);
            Pending(e, verify, init + [last], view) ==
            if IsValidVote(e.Latest(), verify, last, view) then
              if VoterCount(before + [last.vote]) >= e.Latest().QuorumSize() then [] else before + [last.vote]
            else if last.TimedOut? && After(e, verify, init).curView == view then []
            else before
  {
    assert (init + [last])[..|init + [last]| - 1] == init;
  }

  lemma {:induction false} PendingArrived(e: Vars, verify: VoteVerifier, evs: seq<Event>, view: nat, vote: Vote)
    requires e.HasCommittee() && vote in Pending(e, verify, evs, view)
    ensures CameIn(e, verify, evs, view, vote)
  {
    var init, last := evs[..|evs| - 1], evs[|evs| - 1];
    if vote in Pending(e, verify, init, view) {
      PendingArrived(e, verify, init, view, vote);
      var i :| 0 <= i < |init| && IsValidVote(e.Latest(), verify, init[i], view) && init[i].vote == vote;
      assert evs[i] == init[i];
    } else {
      assert evs[|evs| - 1] == last;
    }
  }

  lemma {:induction false} FirstVotesJoin(votes: seq<Vote>, v: Vote)
    ensures Aggregate(FirstVotes(votes), v) == FirstVotes(votes + [v])
    ensures FirstVotes(FirstVotes(votes + [v])) == FirstVotes(votes + [v])
  {
    assert (votes + [v])[..|votes + [v]| - 1] == votes;
    FirstVotesFacts(votes);
    FirstVotesFacts(votes + [v]);
    FirstVotesOfDistinct(FirstVotes(votes + [v]));
  }

  lemma {:induction false} CertificateOfFirsts(mc: Config, votes: seq<Vote>)
    requires votes != [] && FirstVotes(FirstVotes(votes)) == FirstVotes(votes)
    ensures Certificate(FirstVotes(votes), mc) == Certificate(votes, mc)
    ensures Certificate(votes, mc).Some? <==> VoterCount(votes) >= mc.QuorumSize()
  {
    FirstVotesCount(votes);
    FirstVotesFacts(votes);
    assert FirstVotes(votes)[0] == votes[0];
  }

  lemma {:induction false} ValidVoteIsBuffered(mc: Config, verify: VoteVerifier, buffers: VoteBuffers, vote: Vote)
    requires Signed(mc, verify, vote)
    ensures var joined := Aggregate(Buffered(buffers, vote.view), vote);
            && Completes(mc, verify, buffers, vote) == Certificate(joined, mc)
            && forall view :: Buffered(Collected(mc, verify, buffers, vote), view) ==
                 if view != vote.view then Buffered(buffers, view)
                 else if Certificate(joined, mc).Some? then [] else joined
  {
  }

  /** A valid vote on top of the buffered ones. */
  lemma {:induction false} ValidVoteJoins(mc: Config, verify: VoteVerifier, buffers: VoteBuffers, vote: Vote,
      before: seq<Vote>)
    requires Signed(mc, verify, vote) && Buffered(buffers, vote.view) == FirstVotes(before)
    ensures Completes(mc, verify, buffers, vote) == Certificate(before + [vote], mc)
    ensures Completes(mc, verify, buffers, vote).Some? <==> VoterCount(before + [vote]) >= mc.QuorumSize()
    ensures forall view :: Buffered(Collected(mc, verify, buffers, vote), view) ==
              if view != vote.view then Buffered(buffers, view)
              else if VoterCount(before + [vote]) >= mc.QuorumSize() then []
              else FirstVotes(before + [vote])
  {
    ValidVoteIsBuffered(mc, verify, buffers, vote);
    FirstVotesJoin(before, vote);
    CertificateOfFirsts(mc, before + [vote]);
  }

  ghost predicate BufferIsPending(e: Vars, verify: VoteVerifier, evs: seq<Event>, view: nat)
    requires e.HasCommittee()
  {
    Buffered(After(e, verify, evs).votesBuf, view) == FirstVotes(Pending(e, verify, evs, view))
  }

  lemma {:induction false} InvalidVoteIsDropped(mc: Config, verify: VoteVerifier, buffers: VoteBuffers, vote: Vote)
    requires !Signed(mc, verify, vote)
    ensures Collected(mc, verify, buffers, vote) == buffers && Completes(mc, verify, buffers, vote) == None
  {
  }

  lemma {:induction false} StepCollects(now: Vars, verify: VoteVerifier, vote: Vote, store: Store)
    requires now.HasCommittee()
    ensures Step(now, verify, VoteArrived(vote, store)).votesBuf == Collected(now.Latest(), verify, now.votesBuf, vote)
  {
    var qc := Completes(now.Latest(), verify, now.votesBuf, vote);
    if qc.Some? {
      var e1 := now.(votesBuf := Collected(now.Latest(), verify, now.votesBuf, vote));
      ProposingKeeps(WithCertificate(e1, qc.value), qc, store);
    }
  }

  lemma {:induction false} VoteKeepsPending(e: Vars, verify: VoteVerifier, evs: seq<Event>, vote: Vote, store: Store,
      view: nat)
    requires e.HasCommittee() && BufferIsPending(e, verify, evs, view) && BufferIsPending(e, verify, evs, vote.view)
    ensures BufferIsPending(e, verify, evs + [VoteArrived(vote, store)], view)
  {
    var now := After(e, verify, evs);
    AfterNext(e, verify, evs, VoteArrived(vote, store));
    PendingNext(e, verify, evs, VoteArrived(vote, store), view);
    StepCollects(now, verify, vote, store);
    if Signed(e.Latest(), verify, vote) {
      ValidVoteJoins(e.Latest(), verify, now.votesBuf, vote, Pending(e, verify, evs, vote.view));
      assert FirstVotes([]) == [];
    } else {
      InvalidVoteIsDropped(e.Latest(), verify, now.votesBuf, vote);
    }
  }

  lemma {:induction false} OthersKeepPending(e: Vars, verify: VoteVerifier, evs: seq<Event>, last: Event, view: nat)
    requires e.HasCommittee() && BufferIsPending(e, verify, evs, view) && !last.VoteArrived?
    ensures BufferIsPending(e, verify, evs + [last], view)
  {
    AfterNext(e, verify, evs, last);
    PendingNext(e, verify, evs, last, view);
    assert FirstVotes([]) == [];
  }

  /** The buffer of a view holds each pending voter's first vote. */
  lemma {:induction false} BuffersArePending(e: Vars, verify: VoteVerifier, evs: seq<Event>, view: nat)
    requires e.HasCommittee() && e.votesBuf == map[]
    ensures BufferIsPending(e, verify, evs, view)
  {
    if evs != [] {
      var init, last := evs[..|evs| - 1], evs[|evs| - 1];
      assert evs == init + [last];
      BuffersArePending(e, verify, init, view);
      match last
      case VoteArrived(vote, store) =>
        BuffersArePending(e, verify, init, vote.view);
        VoteKeepsPending(e, verify, init, vote, store, view);
      case _ =>
        OthersKeepPending(e, verify, init, last, view);
    }
  }

  /** The newer of two certificates; of two in one view the one already held. */
  ghost predicate IsNewer(held: Option<QuorumCert>, qc: QuorumCert, now: Option<QuorumCert>) {
    now == if held.Some? && held.value.view >= qc.view then held else Some(qc)
  }

  /**
   * An arriving vote forms a certificate, and takes the replica one view on, if and only if it is valid and with it Qc
   * different members' votes for that view are pending; it is the certificate of these votes, and the newer of it and
   * the generic one is kept. Otherwise the vote changes nothing but its view's buffer.
   */
  lemma {:induction false} CertificateIsFormedIff(e: Vars, verify: VoteVerifier, evs: seq<Event>, vote: Vote,
      store: Store)
    requires e.HasCommittee() && e.votesBuf == map[]
    ensures var now, next := After(e, verify, evs), After(e, verify, evs + [VoteArrived(vote, store)]);
            var votes := Pending(e, verify, evs, vote.view) + [vote];
            if Signed(e.Latest(), verify, vote) && VoterCount(votes) >= e.Latest().QuorumSize() then
              && FormedBy(now, verify, VoteArrived(vote, store)) == Certificate(votes, e.Latest())
              && Certificate(votes, e.Latest()).Some?
              && next.curView == now.curView + 1
              && IsNewer(now.safety.genericQC, Certificate(votes, e.Latest()).value, next.safety.genericQC)
            else
              && FormedBy(now, verify, VoteArrived(vote, store)) == None
              && next == now.(votesBuf := next.votesBuf)
  {
    var now := After(e, verify, evs);
    AfterNext(e, verify, evs, VoteArrived(vote, store));
    BuffersArePending(e, verify, evs, vote.view);
    if Signed(e.Latest(), verify, vote) {
      ValidVoteJoins(e.Latest(), verify, now.votesBuf, vote, Pending(e, verify, evs, vote.view));
    } else {
      InvalidVoteIsDropped(e.Latest(), verify, now.votesBuf, vote);
    }
  }

  /** A valid vote of the run for this view, by this signer and with this signature. */
  ghost predicate Arrived(e: Vars, verify: VoteVerifier, evs: seq<Event>, view: nat, signer: string, sig: Bytes)
    requires e.HasCommittee()
  {
    exists i :: 0 <= i < |evs| && IsValidVote(e.Latest(), verify, evs[i], view) && evs[i].vote.signer == signer &&
                evs[i].vote.sig == sig
  }

  lemma {:induction false} SignerArrived(e: Vars, verify: VoteVerifier, evs: seq<Event>, view: nat, votes: seq<Vote>,
      k: nat, signer: string, sig: Bytes)
    requires e.HasCommittee() && SignedBy(votes, k, signer, sig)
    requires forall v :: v in votes ==> CameIn(e, verify, evs, view, v)
    ensures Arrived(e, verify, evs, view, signer, sig)
  {
    var j :| 0 <= j < |votes| && votes[j].signer == signer && votes[j].sig == sig &&
             signer !in Signers(votes[..j]) && |Elements(Signers(votes[..j]))| == k;
    var v := votes[j];
    assert CameIn(e, verify, evs, view, v);
    var i :| 0 <= i < |evs| && IsValidVote(e.Latest(), verify, evs[i], view) && evs[i].vote == v;
  }

  lemma {:induction false} PendingAndLastArrived(e: Vars, verify: VoteVerifier, evs: seq<Event>, vote: Vote,
      store: Store, v: Vote)
    requires e.HasCommittee() && Signed(e.Latest(), verify, vote)
    requires v in Pending(e, verify, evs, vote.view) + [vote]
    ensures CameIn(e, verify, evs + [VoteArrived(vote, store)], vote.view, v)
  {
    var all := evs + [VoteArrived(vote, store)];
    if v == vote {
      assert all[|evs|] == VoteArrived(vote, store);
    } else {
      PendingArrived(e, verify, evs, vote.view, v);
      var i :| 0 <= i < |evs| && IsValidVote(e.Latest(), verify, evs[i], vote.view) && evs[i].vote == v;
      assert all[i] == evs[i];
    }
  }

  /** Qc different signers, of each of which a valid vote for that view has arrived with the signature it holds. */
  ghost predicate Backed(e: Vars, verify: VoteVerifier, evs: seq<Event>, qc: QuorumCert)
    requires e.HasCommittee()
  {
    && |qc.signers| == |qc.sigs| == e.Latest().QuorumSize() && Distinct(qc.signers)
    && forall k :: 0 <= k < |qc.signers| ==> Arrived(e, verify, evs, qc.view, qc.signers[k], qc.sigs[k])
  }

  lemma {:induction false} FormedIsBacked(e: Vars, verify: VoteVerifier, evs: seq<Event>, vote: Vote, store: Store)
    requires e.HasCommittee() && e.votesBuf == map[]
    ensures var qc := FormedBy(After(e, verify, evs), verify, VoteArrived(vote, store));
            qc.Some? ==> qc.value.view == vote.view && Backed(e, verify, evs + [VoteArrived(vote, store)], qc.value)
  {
    CertificateIsFormedIff(e, verify, evs, vote, store);
    var all := evs + [VoteArrived(vote, store)];
    var votes := Pending(e, verify, evs, vote.view) + [vote];
    if Signed(e.Latest(), verify, vote) && VoterCount(votes) >= e.Latest().QuorumSize() {
      CertificateContents(votes, e.Latest());
      var qc := Certificate(votes, e.Latest()).value;
      forall v | v in votes
        ensures CameIn(e, verify, all, vote.view, v)
      {
        PendingAndLastArrived(e, verify, evs, vote, store, v);
      }
      assert votes[0] in votes;
      forall k | 0 <= k < |qc.signers|
        ensures Arrived(e, verify, all, vote.view, qc.signers[k], qc.sigs[k])
      {
        SignerArrived(e, verify, all, vote.view, votes, k, qc.signers[k], qc.sigs[k]);
      }
    }
  }
}
