/** One view across replicas: what a quorum of them sends is what its leader needs to propose. */
module ViewRounds {
  import opened Types
  import opened Encoding
  import opened Committee
  import opened Quorum
  import opened Ancestry
  import opened Engine
  import opened Handlers
  import opened PendingRuns
  import opened NewViewRuns
  import opened LeaderRuns
  import VoteRuns

  // ---------------------------------------------------------------- a proposal is certified

  /** A member that is handed a proposal: its state, its store, and its signature on the proposal. */
  datatype Voter = Voter(id: string, e: Vars, store: Store, sig: Bytes)

  /** In this view of this committee the member votes, and its vote will verify. */
  ghost predicate WillVote(sha: Sha, mc: Config, verify: VoteVerifier, view: nat, block: Block, x: Voter) {
    && x.e.HasCommittee() && x.e.Latest() == mc && x.e.curView == view
    && block.conf <= mc.number && MayVote(x.e, block, x.store)
    && Signed(mc, verify, Vote(view, mc.number, HashBlock(sha, block), x.sig, x.id))
  }

  /** The last message of the member after it handled the proposal. */
  ghost function SentBy(sha: Sha, parse: KeyParser, block: Block, x: Voter): Message
    requires x.e.HasCommittee() && AfterHandlePropose(sha, parse, x.id, x.e, block, x.store, Some(x.sig)).outbox != []
  {
    var out := AfterHandlePropose(sha, parse, x.id, x.e, block, x.store, Some(x.sig)).outbox;
    out[|out| - 1]
  }

  /** It is a vote for the leader of that view. */
  lemma {:induction false} VoterSends(sha: Sha, parse: KeyParser, mc: Config, verify: VoteVerifier, view: nat,
      block: Block, x: Voter)
    requires WillVote(sha, mc, verify, view, block, x)
    ensures AfterHandlePropose(sha, parse, x.id, x.e, block, x.store, Some(x.sig)).outbox != []
    ensures SentBy(sha, parse, block, x) ==
            VoteTo(mc.Leader(view).addr, Vote(view, mc.number, HashBlock(sha, block), x.sig, x.id))
  {
    VoteIsSentIff(sha, parse, x.id, x.e, block, x.store, Some(x.sig));
  }

  /** The votes in what these members sent, arriving at the leader with these block stores. */
  ghost predicate AreVotesOf(sha: Sha, parse: KeyParser, block: Block, xs: seq<Voter>, evs: seq<VoteRuns.Event>) {
    && |evs| == |xs|
    && forall i {:trigger xs[i]} :: 0 <= i < |xs| ==> IsVoteOf(sha, parse, block, xs[i], evs[i])
  }

  ghost predicate IsVoteOf(sha: Sha, parse: KeyParser, block: Block, x: Voter, ev: VoteRuns.Event) {
    && x.e.HasCommittee() && AfterHandlePropose(sha, parse, x.id, x.e, block, x.store, Some(x.sig)).outbox != []
    && SentBy(sha, parse, block, x).VoteTo? && ev.VoteArrived? && ev.vote == SentBy(sha, parse, block, x).vote
  }

  function VotesIn(evs: seq<VoteRuns.Event>): (votes: seq<Vote>)
    requires forall i :: 0 <= i < |evs| ==> evs[i].VoteArrived?
  {
    seq(|evs|, i requires 0 <= i < |evs| => evs[i].vote)
  }

  /** Valid votes of one view by different members, and fewer of them than a quorum. */
  ghost predicate Ballots(mc: Config, verify: VoteVerifier, view: nat, evs: seq<VoteRuns.Event>) {
    && (forall i :: 0 <= i < |evs| ==> IsValidVote(mc, verify, evs[i], view))
    && Distinct(Signers(VotesIn(evs)))
  }

  lemma {:induction false} BallotsBefore(mc: Config, verify: VoteVerifier, view: nat, evs: seq<VoteRuns.Event>, k: nat)
    requires Ballots(mc, verify, view, evs) && k <= |evs|
    ensures Ballots(mc, verify, view, evs[..k])
    ensures VotesIn(evs[..k]) == VotesIn(evs)[..k] && VoterCount(VotesIn(evs[..k])) == k
  {
    assert forall i :: 0 <= i < k ==> Signers(VotesIn(evs[..k]))[i] == Signers(VotesIn(evs))[i];
    DistinctCardinality(Signers(VotesIn(evs[..k])));
  }

  lemma {:induction false} AllPending(e: Vars, verify: VoteVerifier, view: nat, evs: seq<VoteRuns.Event>)
    requires e.HasCommittee() && Ballots(e.Latest(), verify, view, evs) && |evs| < e.Latest().QuorumSize()
    ensures Pending(e, verify, evs, view) == VotesIn(evs)
  {
    if evs != [] {
      var n := |evs| - 1;
      BallotsBefore(e.Latest(), verify, view, evs, n);
      BallotsBefore(e.Latest(), verify, view, evs, n + 1);
      AllPending(e, verify, view, evs[..n]);
      assert evs[..n + 1] == evs;
      assert VotesIn(evs[..n]) + [evs[n].vote] == VotesIn(evs);
    }
  }

  /** A vote with which a quorum is pending makes their certificate, and a proposal on it. */
  lemma {:induction false} QuorumProposes(e: Vars, verify: VoteVerifier, init: seq<VoteRuns.Event>, vote: Vote,
      store: Store) returns (b: Block)
    requires e.HasCommittee() && e.votesBuf == map[] && Signed(e.Latest(), verify, vote)
    requires VoterCount(Pending(e, verify, init, vote.view) + [vote]) >= e.Latest().QuorumSize()
    ensures var now, next := VoteRuns.After(e, verify, init),
                             VoteRuns.After(e, verify, init + [VoteRuns.VoteArrived(vote, store)]);
            var qc := Certificate(Pending(e, verify, init, vote.view) + [vote], e.Latest());
            qc.Some? && Proposes(now, next, b, qc, store)
  {
    CertificateIsFormedIff(e, verify, init, vote, store);
    VoteRuns.AfterNext(e, verify, init, VoteRuns.VoteArrived(vote, store));
    b := VoteProposes(VoteRuns.After(e, verify, init), verify, vote, store);
  }

  /** All but the last of a quorum of ballots are pending when the last arrives. */
  lemma {:induction false} LastBallot(e: Vars, verify: VoteVerifier, view: nat, evs: seq<VoteRuns.Event>)
    requires e.HasCommittee() && Ballots(e.Latest(), verify, view, evs) && |evs| == e.Latest().QuorumSize()
    ensures var n := |evs| - 1;
            && evs == evs[..n] + [VoteRuns.VoteArrived(evs[n].vote, evs[n].store)]
            && evs[n].vote.view == view && Signed(e.Latest(), verify, evs[n].vote)
            && Pending(e, verify, evs[..n], view) + [evs[n].vote] == VotesIn(evs)
            && VoterCount(VotesIn(evs)) == |evs|
  {
    var n := |evs| - 1;
    BallotsBefore(e.Latest(), verify, view, evs, n);
    BallotsBefore(e.Latest(), verify, view, evs, n + 1);
    assert evs[..n + 1] == evs == evs[..n] + [evs[n]];
    AllPending(e, verify, view, evs[..n]);
    assert IsValidVote(e.Latest(), verify, evs[n], view);
  }

  /** The last of a quorum of ballots makes the certificate of exactly these votes and a proposal on it. */
  lemma {:induction false} LastBallotCertifies(e: Vars, verify: VoteVerifier, view: nat, evs: seq<VoteRuns.Event>)
      returns (b: Block)
    requires e.HasCommittee() && e.votesBuf == map[] && Ballots(e.Latest(), verify, view, evs)
    requires |evs| == e.Latest().QuorumSize()
    ensures Certificate(VotesIn(evs), e.Latest()).Some?
    ensures Proposes(VoteRuns.After(e, verify, evs[..|evs| - 1]), VoteRuns.After(e, verify, evs), b,
                     Certificate(VotesIn(evs), e.Latest()), evs[|evs| - 1].store)
  {
    var n := |evs| - 1;
    LastBallot(e, verify, view, evs);
    b := QuorumProposes(e, verify, evs[..n], evs[n].vote, evs[n].store);
  }

  lemma {:induction false} VotersMakeBallots(sha: Sha, parse: KeyParser, mc: Config, verify: VoteVerifier, view: nat,
      block: Block, xs: seq<Voter>, evs: seq<VoteRuns.Event>)
    requires forall i :: 0 <= i < |xs| ==> WillVote(sha, mc, verify, view, block, xs[i])
    requires forall i, j :: 0 <= i < j < |xs| ==> xs[i].id != xs[j].id
    requires AreVotesOf(sha, parse, block, xs, evs)
    ensures Ballots(mc, verify, view, evs)
    ensures forall i :: 0 <= i < |xs| ==>
              evs[i].vote == Vote(view, mc.number, HashBlock(sha, block), xs[i].sig, xs[i].id)
  {
    forall i | 0 <= i < |xs|
      ensures IsValidVote(mc, verify, evs[i], view)
      ensures evs[i].vote == Vote(view, mc.number, HashBlock(sha, block), xs[i].sig, xs[i].id)
    {
      assert IsVoteOf(sha, parse, block, xs[i], evs[i]);
      VoterSends(sha, parse, mc, verify, view, block, xs[i]);
    }
    assert forall i :: 0 <= i < |xs| ==> Signers(VotesIn(evs))[i] == xs[i].id;
  }

  /** The certificate says what the votes say. */
  ghost predicate Certifies(qc: QuorumCert, mc: Config, view: nat, hash: Hash, xs: seq<Voter>) {
    && qc.view == view && qc.conf == mc.number && qc.blockHash == hash
    && |qc.signers| == |qc.sigs| == |xs|
    && forall i :: 0 <= i < |xs| ==> qc.signers[i] == xs[i].id && qc.sigs[i] == xs[i].sig
  }

  lemma {:induction false} BallotsSay(mc: Config, view: nat, hash: Hash, xs: seq<Voter>, votes: seq<Vote>)
    requires |votes| == |xs| == mc.QuorumSize() && Distinct(Signers(votes))
    requires forall i :: 0 <= i < |xs| ==> votes[i] == Vote(view, mc.number, hash, xs[i].sig, xs[i].id)
    ensures Certificate(votes, mc).Some? && Certifies(Certificate(votes, mc).value, mc, view, hash, xs)
  {
    FirstVotesOfDistinct(votes);
    assert votes[..|votes|] == votes;
  }

  /**
   * Qc members that vote for a proposal in one view send their votes to one address, the leader's, and once these have
   * arrived the leader proposes a child of that proposal, justified by the certificate these votes make.
   */
  lemma {:induction false} ProposalIsCertified(sha: Sha, parse: KeyParser, verify: VoteVerifier, view: nat,
      block: Block, xs: seq<Voter>, leader: Vars, evs: seq<VoteRuns.Event>) returns (b: Block)
    requires leader.HasCommittee() && leader.votesBuf == map[] && |xs| == leader.Latest().QuorumSize()
    requires forall i :: 0 <= i < |xs| ==> WillVote(sha, leader.Latest(), verify, view, block, xs[i])
    requires forall i, j :: 0 <= i < j < |xs| ==> xs[i].id != xs[j].id
    requires AreVotesOf(sha, parse, block, xs, evs)
    ensures forall i :: 0 <= i < |xs| ==> SentBy(sha, parse, block, xs[i]).addr == leader.Latest().Leader(view).addr
    ensures var next := VoteRuns.After(leader, verify, evs);
            && next.outbox != [] && next.outbox[|next.outbox| - 1] == Broadcast(b)
            && b.parentHash == HashBlock(sha, block) && b.justify.Some?
            && Certifies(b.justify.value, leader.Latest(), view, HashBlock(sha, block), xs)
  {
    var mc := leader.Latest();
    VotersMakeBallots(sha, parse, mc, verify, view, block, xs, evs);
    forall i | 0 <= i < |xs|
      ensures SentBy(sha, parse, block, xs[i]).addr == mc.Leader(view).addr
    {
      VoterSends(sha, parse, mc, verify, view, block, xs[i]);
    }
    b := LastBallotCertifies(leader, verify, view, evs);
    BallotsSay(mc, view, HashBlock(sha, block), xs, VotesIn(evs));
  }

  // ---------------------------------------------------------------- a view change

  /** The new-view message a member sends when it times out. */
  function NewViewOf(e: Vars): Message
    requires e.HasCommittee()
  {
    var out := AfterHandleTimeout(e, false).outbox;
    out[|out| - 1]
  }

  /** A member of this committee that enters this view. */
  predicate Enters(mc: Config, view: nat, e: Vars) {
    e.HasCommittee() && e.Latest() == mc && e.timeoutView + 1 == view
  }

  ghost predicate AreNewViewsOf(es: seq<Vars>, evs: seq<VoteRuns.Event>) {
    && |evs| == |es|
    && forall i {:trigger es[i]} :: 0 <= i < |es| ==> IsNewViewOf(es[i], evs[i])
  }

  ghost predicate IsNewViewOf(e: Vars, ev: VoteRuns.Event) {
    e.HasCommittee() && NewViewOf(e).NewViewTo? && ev.NewViewArrived? && ev.msg == NewViewOf(e).msg
  }

  lemma {:induction false} EnteringSends(mc: Config, view: nat, e: Vars)
    requires Enters(mc, view, e)
    ensures NewViewOf(e) == NewViewTo(mc.Leader(view).addr, NewViewMsg(view, mc.number, e.safety.genericQC))
  {
    TimeoutSends(e, false);
  }

  function MessagesIn(evs: seq<VoteRuns.Event>): (msgs: seq<NewViewMsg>)
    requires forall i :: 0 <= i < |evs| ==> evs[i].NewViewArrived?
  {
    seq(|evs|, i requires 0 <= i < |evs| => evs[i].msg)
  }

  ghost predicate AreNewViews(view: nat, evs: seq<VoteRuns.Event>) {
    forall i :: 0 <= i < |evs| ==> IsNewView(evs[i], view)
  }

  lemma {:induction false} MessagesNext(view: nat, init: seq<VoteRuns.Event>, last: VoteRuns.Event)
    requires AreNewViews(view, init) && IsNewView(last, view)
    ensures AreNewViews(view, init + [last]) && MessagesIn(init + [last]) == MessagesIn(init) + [last.msg]
  {
  }

  lemma {:induction false} WaitingNext(leader: Vars, verify: VoteVerifier, view: nat, init: seq<VoteRuns.Event>,
      last: VoteRuns.Event)
    requires leader.HasCommittee() && leader.newViewBuf == map[] && IsNewView(last, view)
    requires |Waiting(leader, verify, init, view)| + 1 < leader.Latest().QuorumSize()
    ensures Waiting(leader, verify, init + [last], view) == Waiting(leader, verify, init, view) + [last.msg]
  {
    ProposesIff(leader, verify, init, last);
    assert (init + [last])[..|init + [last]| - 1] == init;
  }

  lemma {:induction false} AllWaiting(leader: Vars, verify: VoteVerifier, view: nat, evs: seq<VoteRuns.Event>)
    requires leader.HasCommittee() && leader.newViewBuf == map[] && |evs| < leader.Latest().QuorumSize()
    requires AreNewViews(view, evs)
    ensures Waiting(leader, verify, evs, view) == MessagesIn(evs)
  {
    if evs != [] {
      var init, last := evs[..|evs| - 1], evs[|evs| - 1];
      AllWaiting(leader, verify, view, init);
      WaitingNext(leader, verify, view, init, last);
      assert evs == init + [last];
      MessagesNext(view, init, last);
    }
  }

  /** The last message sent is a proposal, on a certificate not older than any of these. */
  ghost predicate EndsInNewest(out: seq<Message>, qcs: seq<Option<QuorumCert>>) {
    && out != [] && out[|out| - 1].Broadcast?
    && forall i :: 0 <= i < |qcs| ==> VoteRuns.NotLower(qcs[i], out[|out| - 1].block.justify)
  }

  function CertificatesIn(msgs: seq<NewViewMsg>): seq<Option<QuorumCert>> {
    seq(|msgs|, i requires 0 <= i < |msgs| => msgs[i].genericQC)
  }

  lemma {:induction false} QuorumOfMessages(leader: Vars, verify: VoteVerifier, view: nat, init: seq<VoteRuns.Event>,
      last: VoteRuns.Event)
    requires leader.HasCommittee() && leader.newViewBuf == map[] && IsNewView(last, view)
    requires |Waiting(leader, verify, init, view)| + 1 == leader.Latest().QuorumSize()
    ensures EndsInNewest(VoteRuns.After(leader, verify, init + [last]).outbox,
                         CertificatesIn(Waiting(leader, verify, init, view) + [last.msg]))
  {
    ProposesIff(leader, verify, init, last);
    ProposalIsNewest(leader, verify, init, last);
    var msgs := Waiting(leader, verify, init, view) + [last.msg];
    assert forall i :: 0 <= i < |msgs| ==> msgs[i] in msgs;
  }

  /** The last of a quorum of new-view messages makes one proposal, on the newest certificate among them. */
  lemma {:induction false} LastMessageProposes(leader: Vars, verify: VoteVerifier, view: nat, evs: seq<VoteRuns.Event>)
    requires leader.HasCommittee() && leader.newViewBuf == map[] && AreNewViews(view, evs)
    requires |evs| == leader.Latest().QuorumSize()
    ensures EndsInNewest(VoteRuns.After(leader, verify, evs).outbox, CertificatesIn(MessagesIn(evs)))
  {
    var init, last := evs[..|evs| - 1], evs[|evs| - 1];
    assert evs == init + [last];
    AllWaiting(leader, verify, view, init);
    MessagesNext(view, init, last);
    QuorumOfMessages(leader, verify, view, init, last);
  }

  /**
   * Qc members that enter a view send their new-view messages to one address, the leader's, and once these have arrived
   * the leader proposes on a certificate not older than any of theirs.
   */
  lemma {:induction false} ViewIsChanged(verify: VoteVerifier, view: nat, es: seq<Vars>, leader: Vars,
      evs: seq<VoteRuns.Event>)
    requires leader.HasCommittee() && leader.newViewBuf == map[] && |es| == leader.Latest().QuorumSize()
    requires forall i :: 0 <= i < |es| ==> Enters(leader.Latest(), view, es[i])
    requires AreNewViewsOf(es, evs)
    ensures forall i :: 0 <= i < |es| ==> NewViewOf(es[i]).addr == leader.Latest().Leader(view).addr
    ensures EndsInNewest(VoteRuns.After(leader, verify, evs).outbox,
                         seq(|es|, i requires 0 <= i < |es| => es[i].safety.genericQC))
  {
    forall i | 0 <= i < |es|
      ensures NewViewOf(es[i]).addr == leader.Latest().Leader(view).addr
      ensures IsNewView(evs[i], view) && evs[i].msg.genericQC == es[i].safety.genericQC
    {
      assert IsNewViewOf(es[i], evs[i]);
      EnteringSends(leader.Latest(), view, es[i]);
    }
    LastMessageProposes(leader, verify, view, evs);
    assert CertificatesIn(MessagesIn(evs)) == seq(|es|, i requires 0 <= i < |es| => es[i].safety.genericQC);
  }
}
