/** Runs in which a quorum votes in one view and then in the next, and a timeout takes the replica a view back. */
module PollRuns {
  import opened Types
  import opened Committee
  import opened Quorum
  import opened Ancestry
  import opened Engine
  import opened VoteRuns

  /** What members vote for, how member i signs in a view, and how a vote is verified. */
  datatype Poll = Poll(hash: Hash, sign: (nat, nat) -> Bytes, verify: VoteVerifier)

  /** The votes of the first k members in one view. */
  function Ballots(mc: Config, p: Poll, view: nat, k: nat): seq<Vote>
    requires k <= |mc.replicas|
  {
    seq(k, i requires 0 <= i < k => Vote(view, mc.number, p.hash, p.sign(i, view), mc.replicas[i].id))
  }

  function Arrivals(votes: seq<Vote>): seq<Event> {
    seq(|votes|, i requires 0 <= i < |votes| => VoteArrived(votes[i], map[]))
  }

  ghost predicate BallotVerifies(mc: Config, p: Poll, view: nat, i: nat)
    requires i < |mc.replicas|
  {
    var r := mc.replicas[i];
    r.key.Some? && p.verify(r.key.value, Vote(view, mc.number, p.hash, p.sign(i, view), r.id))
  }

  /** Distinct members, and a quorum of them whose votes verify. */
  ghost predicate CanVote(mc: Config, p: Poll, view: nat) {
    && Distinct(Ids(mc.replicas)) && mc.QuorumSize() <= |mc.replicas|
    && forall i :: 0 <= i < mc.QuorumSize() ==> BallotVerifies(mc, p, view, i)
  }

  lemma {:induction false} BallotsAreDistinct(mc: Config, p: Poll, view: nat, k: nat)
    requires Distinct(Ids(mc.replicas)) && k <= |mc.replicas|
    ensures Distinct(Signers(Ballots(mc, p, view, k)))
    ensures FirstVotes(Ballots(mc, p, view, k)) == Ballots(mc, p, view, k)
  {
    var votes := Ballots(mc, p, view, k);
    assert forall i :: 0 <= i < k ==> Signers(votes)[i] == Ids(mc.replicas)[i];
    FirstVotesOfDistinct(votes);
  }

  lemma {:induction false} DistinctJoins(votes: seq<Vote>, v: Vote)
    requires Distinct(Signers(votes + [v]))
    ensures Aggregate(votes, v) == votes + [v]
  {
    assert Signers(votes + [v]) == Signers(votes) + [v.signer];
    DistinctAppend(Signers(votes), v.signer);
  }

  lemma {:induction false} NextBallot(mc: Config, p: Poll, view: nat, k: nat)
    requires Distinct(Ids(mc.replicas)) && k < |mc.replicas|
    ensures var votes, next := Ballots(mc, p, view, k), Ballots(mc, p, view, k + 1);
            Aggregate(votes, next[k]) == next
  {
    var votes, next := Ballots(mc, p, view, k), Ballots(mc, p, view, k + 1);
    BallotsAreDistinct(mc, p, view, k + 1);
    assert next == votes + [next[k]];
    DistinctJoins(votes, next[k]);
  }

  lemma {:induction false} BallotIsAccepted(mc: Config, p: Poll, view: nat, k: nat)
    requires CanVote(mc, p, view) && k < mc.QuorumSize()
    ensures Accepted(mc, p.verify, Ballots(mc, p, view, k + 1)[k])
  {
    assert BallotVerifies(mc, p, view, k);
    FindDistinct(mc.replicas, k);
  }

  lemma {:induction false} VoteCollected(mc: Config, verify: VoteVerifier, buffers: VoteBuffers, vote: Vote)
    requires Accepted(mc, verify, vote)
    requires var next := Aggregate(Buffered(buffers, vote.view), vote); FirstVotes(next) == next
    ensures var next := Aggregate(Buffered(buffers, vote.view), vote);
            && (Completes(mc, verify, buffers, vote).Some? <==> |next| >= mc.QuorumSize())
            && Collected(mc, verify, buffers, vote) ==
                 if |next| >= mc.QuorumSize() then buffers - {vote.view} else buffers[vote.view := next]
  {
  }

  /** The next ballot joins the buffer, and completes it if it is the last of a quorum. */
  lemma {:induction false} BallotJoins(mc: Config, p: Poll, buffers: VoteBuffers, view: nat, k: nat)
    requires CanVote(mc, p, view) && k < mc.QuorumSize() && Buffered(buffers, view) == Ballots(mc, p, view, k)
    ensures var vote := Ballots(mc, p, view, k + 1)[k];
            && (Completes(mc, p.verify, buffers, vote).Some? <==> k + 1 >= mc.QuorumSize())
            && Collected(mc, p.verify, buffers, vote) ==
                 if k + 1 >= mc.QuorumSize() then buffers - {view} else buffers[view := Ballots(mc, p, view, k + 1)]
  {
    BallotsAreDistinct(mc, p, view, k + 1);
    NextBallot(mc, p, view, k);
    BallotIsAccepted(mc, p, view, k);
    VoteCollected(mc, p.verify, buffers, Ballots(mc, p, view, k + 1)[k]);
  }

  lemma LastArrival(mc: Config, p: Poll, view: nat, k: nat)
    requires 1 <= k <= |mc.replicas|
    ensures var evs := Arrivals(Ballots(mc, p, view, k));
            && evs[..|evs| - 1] == Arrivals(Ballots(mc, p, view, k - 1))
            && evs[|evs| - 1] == VoteArrived(Ballots(mc, p, view, k)[k - 1], map[])
  {
  }

  /** What one arriving vote does to the buffers and to the count of certificates. */
  lemma {:induction false} OneArrival(e: Vars, verify: VoteVerifier, evs: seq<Event>, vote: Vote, store: Store)
    requires e.HasCommittee() && evs != [] && evs[|evs| - 1] == VoteArrived(vote, store)
    ensures var now := After(e, verify, evs[..|evs| - 1]);
            && After(e, verify, evs).votesBuf == Collected(e.Latest(), verify, now.votesBuf, vote)
            && FormedSinceTimeout(e, verify, evs) ==
                 FormedSinceTimeout(e, verify, evs[..|evs| - 1]) +
                 if Completes(e.Latest(), verify, now.votesBuf, vote).Some? then 1 else 0
  {
  }

  /** After k ballots: all of them in the buffer, no certificate, the other buffers as before. */
  ghost predicate Waiting(e: Vars, p: Poll, view: nat, k: nat)
    requires e.HasCommittee() && k <= |e.Latest().replicas|
  {
    var evs := Arrivals(Ballots(e.Latest(), p, view, k));
    && Buffered(After(e, p.verify, evs).votesBuf, view) == Ballots(e.Latest(), p, view, k)
    && FormedSinceTimeout(e, p.verify, evs) == 0
    && After(e, p.verify, evs).votesBuf - {view} == e.votesBuf
  }

  lemma {:induction false} NobodyWaits(e: Vars, p: Poll, view: nat)
    requires e.HasCommittee() && view !in e.votesBuf
    ensures Waiting(e, p, view, 0)
  {
    assert Arrivals(Ballots(e.Latest(), p, view, 0)) == [];
    assert e.votesBuf - {view} == e.votesBuf;
  }

  lemma {:induction false} OneMoreWaits(e: Vars, p: Poll, view: nat, k: nat)
    requires e.HasCommittee() && CanVote(e.Latest(), p, view) && k + 1 < e.Latest().QuorumSize()
    requires Waiting(e, p, view, k)
    ensures Waiting(e, p, view, k + 1)
  {
    var mc := e.Latest();
    var evs := Arrivals(Ballots(mc, p, view, k + 1));
    LastArrival(mc, p, view, k + 1);
    var before := After(e, p.verify, evs[..|evs| - 1]).votesBuf;
    OneArrival(e, p.verify, evs, Ballots(mc, p, view, k + 1)[k], map[]);
    BallotJoins(mc, p, before, view, k);
    assert before[view := Ballots(mc, p, view, k + 1)] - {view} == before - {view};
  }

  /** Below the quorum the votes wait in the buffer. */
  lemma {:induction false} BallotsWait(e: Vars, p: Poll, view: nat, k: nat)
    requires e.HasCommittee() && CanVote(e.Latest(), p, view) && view !in e.votesBuf && k < e.Latest().QuorumSize()
    ensures Waiting(e, p, view, k)
  {
    NobodyWaits(e, p, view);
    for j := 0 to k
      invariant Waiting(e, p, view, j)
    {
      OneMoreWaits(e, p, view, j);
    }
  }

  /** A quorum of votes forms a certificate and clears the buffer. */
  lemma {:induction false} BallotsForm(e: Vars, p: Poll, view: nat)
    requires e.HasCommittee() && CanVote(e.Latest(), p, view) && view !in e.votesBuf
    ensures var evs := Arrivals(Ballots(e.Latest(), p, view, e.Latest().QuorumSize()));
            After(e, p.verify, evs).votesBuf == e.votesBuf && FormedSinceTimeout(e, p.verify, evs) == 1
  {
    var mc, q := e.Latest(), e.Latest().QuorumSize();
    var evs := Arrivals(Ballots(mc, p, view, q));
    BallotsWait(e, p, view, q - 1);
    LastArrival(mc, p, view, q);
    OneArrival(e, p.verify, evs, Ballots(mc, p, view, q)[q - 1], map[]);
    BallotJoins(mc, p, After(e, p.verify, evs[..|evs| - 1]).votesBuf, view, q - 1);
  }

  lemma {:induction false} AfterConcat(e: Vars, verify: VoteVerifier, xs: seq<Event>, ys: seq<Event>)
    requires e.HasCommittee() && forall ev :: ev in ys ==> !ev.TimedOut?
    ensures After(e, verify, xs + ys) == After(After(e, verify, xs), verify, ys)
    ensures FormedSinceTimeout(e, verify, xs + ys) ==
            FormedSinceTimeout(e, verify, xs) + FormedSinceTimeout(After(e, verify, xs), verify, ys)
  {
    if ys == [] {
      assert xs + ys == xs;
    } else {
      var init := ys[..|ys| - 1];
      assert (xs + ys)[..|xs + ys| - 1] == xs + init;
      AfterConcat(e, verify, xs, init);
      assert ys[|ys| - 1] in ys;
    }
  }

  /** Two quorums of votes for two views, one after the other. */
  function TwoQuorums(mc: Config, p: Poll, view: nat): seq<Event>
    requires mc.QuorumSize() <= |mc.replicas|
  {
    Arrivals(Ballots(mc, p, view, mc.QuorumSize())) + Arrivals(Ballots(mc, p, view + 1, mc.QuorumSize()))
  }

  lemma {:induction false} NoTimeouts(evs: seq<Event>)
    requires forall ev :: ev in evs ==> !ev.TimedOut?
    ensures Timeouts(evs) == 0
  {
    if evs != [] {
      NoTimeouts(evs[..|evs| - 1]);
      assert evs[|evs| - 1] in evs;
    }
  }

  lemma {:induction false} NoTimeoutInArrivals(votes: seq<Vote>, more: seq<Vote>)
    ensures forall ev :: ev in Arrivals(votes) + Arrivals(more) ==> !ev.TimedOut?
    ensures forall ev :: ev in Arrivals(more) ==> !ev.TimedOut?
  {
  }

  /** A second quorum, in a view whose buffer the first left alone, forms a second certificate. */
  lemma {:induction false} SecondForms(e: Vars, p: Poll, xs: seq<Event>, view: nat)
    requires e.HasCommittee() && CanVote(e.Latest(), p, view) && view !in e.votesBuf
    requires After(e, p.verify, xs).votesBuf == e.votesBuf && FormedSinceTimeout(e, p.verify, xs) == 1
    ensures FormedSinceTimeout(e, p.verify, xs + Arrivals(Ballots(e.Latest(), p, view, e.Latest().QuorumSize()))) == 2
  {
    var now := After(e, p.verify, xs);
    var votes := Ballots(e.Latest(), p, view, e.Latest().QuorumSize());
    BallotsForm(now, p, view);
    NoTimeoutInArrivals([], votes);
    AfterConcat(e, p.verify, xs, Arrivals(votes));
  }

  lemma {:induction false} BothForm(e: Vars, p: Poll, view: nat)
    requires e.HasCommittee() && view !in e.votesBuf && view + 1 !in e.votesBuf
    requires CanVote(e.Latest(), p, view) && CanVote(e.Latest(), p, view + 1)
    ensures FormedSinceTimeout(e, p.verify, TwoQuorums(e.Latest(), p, view)) == 2
    ensures Timeouts(TwoQuorums(e.Latest(), p, view)) == 0
  {
    var mc, q := e.Latest(), e.Latest().QuorumSize();
    BallotsForm(e, p, view);
    SecondForms(e, p, Arrivals(Ballots(mc, p, view, q)), view + 1);
    NoTimeoutInArrivals(Ballots(mc, p, view, q), Ballots(mc, p, view + 1, q));
    NoTimeouts(TwoQuorums(mc, p, view));
  }

  /** In every committee that can vote, two certificates and a timeout take a replica one view back. */
  lemma {:induction false} ViewGoesBack(e: Vars, p: Poll, view: nat, cancelled: bool)
    requires e.HasCommittee() && view !in e.votesBuf && view + 1 !in e.votesBuf
    requires CanVote(e.Latest(), p, view) && CanVote(e.Latest(), p, view + 1)
    requires e.curView == e.timeoutView
    ensures var now := After(e, p.verify, TwoQuorums(e.Latest(), p, view));
            now.curView == e.curView + 2 && AfterHandleTimeout(now, cancelled).curView == e.curView + 1
  {
    BothForm(e, p, view);
    ViewLaw(e, p.verify, TwoQuorums(e.Latest(), p, view));
  }

  lemma {:induction false} SixVotes(mc: Config, p: Poll, view: nat)
    requires |mc.replicas| == 4 && mc.faultCap == 1
    ensures mc.QuorumSize() == 3 && |TwoQuorums(mc, p, view)| == 6
  {
  }

  /** Six votes of three members out of four, in two views, and a timeout. */
  lemma {:induction false} FourMembersGoBack(e: Vars, p: Poll, view: nat)
    requires e.HasCommittee() && |e.Latest().replicas| == 4 && e.Latest().faultCap == 1
    requires CanVote(e.Latest(), p, view) && CanVote(e.Latest(), p, view + 1)
    requires e.curView == e.timeoutView && view !in e.votesBuf && view + 1 !in e.votesBuf
    ensures var now := After(e, p.verify, TwoQuorums(e.Latest(), p, view));
            AfterHandleTimeout(now, false).curView == now.curView - 1
    ensures |TwoQuorums(e.Latest(), p, view)| == 6
  {
    SixVotes(e.Latest(), p, view);
    ViewGoesBack(e, p, view, false);
  }
}
