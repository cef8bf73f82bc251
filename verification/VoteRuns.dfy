/** Runs of vote, new-view and timeout steps of one replica under a fixed committee. */
module VoteRuns {
  import opened Types
  import opened Committee
  import opened Quorum
  import opened Ancestry
  import opened Engine

  datatype Event =
    | VoteArrived(vote: Vote, store: Store)
    | NewViewArrived(msg: NewViewMsg, store: Store)
    | TimedOut(cancelled: bool)

  function Step(e: Vars, verify: VoteVerifier, ev: Event): (e': Vars)
    requires e.HasCommittee()
    ensures e'.delivery == e.delivery
  {
    match ev
    case VoteArrived(vote, store) => AfterHandleVote(e, verify, vote, store)
    case NewViewArrived(msg, store) => AfterHandleNewView(e, msg, store)
    case TimedOut(cancelled) => AfterHandleTimeout(e, cancelled)
  }

  function After(e: Vars, verify: VoteVerifier, evs: seq<Event>): (e': Vars)
    requires e.HasCommittee()
    ensures e'.delivery == e.delivery
  {
    if evs == [] then e else Step(After(e, verify, evs[..|evs| - 1]), verify, evs[|evs| - 1])
  }

  lemma {:induction false} AfterNext(e: Vars, verify: VoteVerifier, init: seq<Event>, last: Event)
    requires e.HasCommittee()
    ensures After(e, verify, init).HasCommittee()
    ensures After(e, verify, init + [last]) == Step(After(e, verify, init), verify, last)
    ensures After(e, verify, init).Latest() == e.Latest()
  {
    assert (init + [last])[..|init + [last]| - 1] == init;
  }

  /** The certificate the last step of a run forms. */
  function FormedBy(e: Vars, verify: VoteVerifier, ev: Event): Option<QuorumCert>
    requires e.HasCommittee()
  {
    match ev
    case VoteArrived(vote, _) => Completes(e.Latest(), verify, e.votesBuf, vote)
    case _ => None
  }

  function Formed(e: Vars, verify: VoteVerifier, evs: seq<Event>): seq<QuorumCert>
    requires e.HasCommittee()
  {
    if evs == [] then []
    else
      var init, last := evs[..|evs| - 1], evs[|evs| - 1];
      var qc := FormedBy(After(e, verify, init), verify, last);
      Formed(e, verify, init) + if qc == None then [] else [qc.value]
  }

  // ---------------------------------------------------------------- at most one certificate per view

  predicate Counts(mc: Config, verify: VoteVerifier, ev: Event, view: nat) {
    ev.VoteArrived? && ev.vote.view == view && Accepted(mc, verify, ev.vote)
  }

  /** Each member sends at most one valid vote per view. */
  ghost predicate OneVotePerView(mc: Config, verify: VoteVerifier, evs: seq<Event>) {
    forall i, j, view :: 0 <= i < j < |evs| && Counts(mc, verify, evs[i], view) && Counts(mc, verify, evs[j], view) ==>
      evs[i].vote.signer != evs[j].vote.signer
  }

  /** The members whose valid vote for a view has arrived. */
  function Voters(mc: Config, verify: VoteVerifier, evs: seq<Event>, view: nat): set<string> {
    if evs == [] then {}
    else
      var last := evs[|evs| - 1];
      Voters(mc, verify, evs[..|evs| - 1], view) + if Counts(mc, verify, last, view) then {last.vote.signer} else {}
  }

  lemma {:induction false} VotersHaveVoted(mc: Config, verify: VoteVerifier, evs: seq<Event>, view: nat, id: string)
    requires id in Voters(mc, verify, evs, view)
    ensures exists i :: 0 <= i < |evs| && Counts(mc, verify, evs[i], view) && evs[i].vote.signer == id
  {
    var init, last := evs[..|evs| - 1], evs[|evs| - 1];
    if Counts(mc, verify, last, view) && last.vote.signer == id {
      assert evs[|evs| - 1] == last;
    } else {
      VotersHaveVoted(mc, verify, init, view, id);
      var i :| 0 <= i < |init| && Counts(mc, verify, init[i], view) && init[i].vote.signer == id;
      assert evs[i] == init[i];
    }
  }

  lemma {:induction false} VotersAreMembers(mc: Config, verify: VoteVerifier, evs: seq<Event>, view: nat)
    ensures Voters(mc, verify, evs, view) <= Elements(Ids(mc.replicas))
    ensures |Voters(mc, verify, evs, view)| <= |mc.replicas|
  {
    if evs != [] {
      VotersAreMembers(mc, verify, evs[..|evs| - 1], view);
    }
    SubsetCardinality(Voters(mc, verify, evs, view), Elements(Ids(mc.replicas)));
    DistinctCardinality(Ids(mc.replicas));
  }

  function CountViews(qcs: seq<QuorumCert>, view: nat): nat {
    if qcs == [] then 0 else CountViews(qcs[..|qcs| - 1], view) + if qcs[|qcs| - 1].view == view then 1 else 0
  }

  /** A view's buffer: distinct voters of that view, no quorum. */
  ghost predicate BufferSound(mc: Config, buf: seq<Vote>, view: nat, voters: set<string>) {
    && Distinct(Signers(buf))
    && Elements(Signers(buf)) <= voters
    && (forall v :: v in buf ==> v.view == view)
    && |buf| < mc.QuorumSize()
  }

  /** Voters whose vote is buffered or went into a certificate; the two add up to no more than have voted. */
  ghost predicate Accounted(mc: Config, buf: seq<Vote>, formed: nat, voters: set<string>) {
    formed <= 1 && |buf| + (if formed == 1 then mc.QuorumSize() else 0) <= |voters|
  }

  ghost predicate ViewSound(mc: Config, buf: seq<Vote>, view: nat, formed: nat, voters: set<string>) {
    BufferSound(mc, buf, view, voters) && Accounted(mc, buf, formed, voters)
  }

  lemma {:induction false} FreshJoins(mc: Config, buf: seq<Vote>, vote: Vote, voters: set<string>)
    requires BufferSound(mc, buf, vote.view, voters) && vote.signer !in voters
    ensures Aggregate(buf, vote) == FirstVotes(buf + [vote]) == buf + [vote]
    ensures Distinct(Signers(buf + [vote])) && Elements(Signers(buf + [vote])) <= voters + {vote.signer}
    ensures (forall v :: v in buf + [vote] ==> v.view == vote.view) && (buf + [vote])[0].view == vote.view
  {
    assert vote.signer !in Signers(buf) by {
      assert forall id :: id in Signers(buf) ==> id in Elements(Signers(buf));
    }
    assert Signers(buf + [vote]) == Signers(buf) + [vote.signer];
    DistinctAppend(Signers(buf), vote.signer);
    FirstVotesOfDistinct(buf + [vote]);
    assert (buf + [vote])[0] in buf + [vote];
  }

  /** A first vote of a member joins the buffer; a certificate takes the whole buffer with it. */
  lemma {:induction false} FreshVote(mc: Config, verify: VoteVerifier, buffers: VoteBuffers, vote: Vote, formed: nat,
      voters: set<string>)
    requires ViewSound(mc, Buffered(buffers, vote.view), vote.view, formed, voters)
    requires Accepted(mc, verify, vote) && vote.signer !in voters
    requires |voters + {vote.signer}| <= |mc.replicas|
    ensures var qc := Completes(mc, verify, buffers, vote);
            && (qc.Some? ==> qc.value.view == vote.view && formed == 0)
            && ViewSound(mc, Buffered(Collected(mc, verify, buffers, vote), vote.view), vote.view,
                         formed + (if qc.Some? then 1 else 0), voters + {vote.signer})
  {
    FreshJoins(mc, Buffered(buffers, vote.view), vote, voters);
    assert Signers([]) == [];
  }

  /** OneVotePerView, one event at a time. */
  ghost predicate VotesAreFresh(mc: Config, verify: VoteVerifier, evs: seq<Event>) {
    evs == [] ||
    var init, last := evs[..|evs| - 1], evs[|evs| - 1];
    && VotesAreFresh(mc, verify, init)
    && (last.VoteArrived? && Accepted(mc, verify, last.vote) ==>
          last.vote.signer !in Voters(mc, verify, init, last.vote.view))
  }

  lemma {:induction false} OneVoteIsFresh(mc: Config, verify: VoteVerifier, evs: seq<Event>)
    requires OneVotePerView(mc, verify, evs)
    ensures VotesAreFresh(mc, verify, evs)
  {
    if evs != [] {
      var init, last := evs[..|evs| - 1], evs[|evs| - 1];
      assert forall i :: 0 <= i < |init| ==> init[i] == evs[i];
      OneVoteIsFresh(mc, verify, init);
      if last.VoteArrived? && Counts(mc, verify, evs[|evs| - 1], last.vote.view) &&
         last.vote.signer in Voters(mc, verify, init, last.vote.view) {
        VotersHaveVoted(mc, verify, init, last.vote.view, last.vote.signer);
      }
    }
  }

  /** What a step does to one view's buffer. */
  lemma {:induction false} StepOnBuffers(e: Vars, verify: VoteVerifier, ev: Event, view: nat)
    requires e.HasCommittee()
    ensures var buf, buf' := Buffered(e.votesBuf, view), Buffered(Step(e, verify, ev).votesBuf, view);
            && (!Counts(e.Latest(), verify, ev, view) ==> buf' == buf || buf' == [])
            && (Counts(e.Latest(), verify, ev, view) ==>
                  buf' == Buffered(Collected(e.Latest(), verify, e.votesBuf, ev.vote), view))
    ensures FormedBy(e, verify, ev).Some? ==> ev.VoteArrived? && Accepted(e.Latest(), verify, ev.vote)
  {
  }

  /** Votes are buffered under their own view, so a certificate's view is that of the vote that completes it. */
  ghost predicate Tagged(buffers: VoteBuffers) {
    forall view, v :: view in buffers && v in buffers[view] ==> v.view == view
  }

  lemma {:induction false} CompletedView(mc: Config, verify: VoteVerifier, buffers: VoteBuffers, vote: Vote)
    requires Tagged(buffers)
    ensures Tagged(Collected(mc, verify, buffers, vote))
    ensures var qc := Completes(mc, verify, buffers, vote);
            qc.Some? ==> qc.value.view == vote.view
  {
    var votes := Aggregate(Buffered(buffers, vote.view), vote);
    assert forall v :: v in votes ==> v.view == vote.view;
    assert votes[0] in votes;
  }

  lemma {:induction false} TaggedStep(e: Vars, verify: VoteVerifier, ev: Event)
    requires e.HasCommittee() && Tagged(e.votesBuf)
    ensures Tagged(Step(e, verify, ev).votesBuf)
    ensures FormedBy(e, verify, ev).Some? ==> FormedBy(e, verify, ev).value.view == ev.vote.view
  {
    if ev.VoteArrived? {
      CompletedView(e.Latest(), verify, e.votesBuf, ev.vote);
    }
  }

  lemma {:induction false} AlwaysTagged(e: Vars, verify: VoteVerifier, evs: seq<Event>)
    requires e.HasCommittee() && Tagged(e.votesBuf)
    ensures Tagged(After(e, verify, evs).votesBuf)
  {
    if evs != [] {
      AlwaysTagged(e, verify, evs[..|evs| - 1]);
      TaggedStep(After(e, verify, evs[..|evs| - 1]), verify, evs[|evs| - 1]);
    }
  }

  /** What one step adds to the certificates and the voters of a view. */
  function Formation(e: Vars, verify: VoteVerifier, ev: Event, view: nat): nat
    requires e.HasCommittee()
  {
    if FormedBy(e, verify, ev).Some? && FormedBy(e, verify, ev).value.view == view then 1 else 0
  }

  lemma SoundStep(e: Vars, verify: VoteVerifier, ev: Event, view: nat, formed: nat, voters: set<string>)
    requires e.HasCommittee() && Tagged(e.votesBuf)
    requires ViewSound(e.Latest(), Buffered(e.votesBuf, view), view, formed, voters)
    requires Counts(e.Latest(), verify, ev, view) ==>
               ev.vote.signer !in voters && |voters + {ev.vote.signer}| <= |e.Latest().replicas|
    requires e.Latest().QuorumSize() * 2 > |e.Latest().replicas|
    ensures ViewSound(e.Latest(), Buffered(Step(e, verify, ev).votesBuf, view), view,
                      formed + Formation(e, verify, ev, view),
                      voters + if Counts(e.Latest(), verify, ev, view) then {ev.vote.signer} else {})
  {
    StepOnBuffers(e, verify, ev, view);
    TaggedStep(e, verify, ev);
    if Counts(e.Latest(), verify, ev, view) {
      FreshVote(e.Latest(), verify, e.votesBuf, ev.vote, formed, voters);
    } else {
      assert voters + {} == voters;
      assert Signers([]) == [];
    }
  }

  lemma {:induction false} CountAppend(qcs: seq<QuorumCert>, qc: QuorumCert, view: nat)
    ensures CountViews(qcs + [qc], view) == CountViews(qcs, view) + if qc.view == view then 1 else 0
  {
    assert (qcs + [qc])[..|qcs + [qc]| - 1] == qcs;
  }

  ghost predicate RunSound(e: Vars, verify: VoteVerifier, evs: seq<Event>, view: nat)
    requires e.HasCommittee()
  {
    ViewSound(e.Latest(), Buffered(After(e, verify, evs).votesBuf, view), view,
              CountViews(Formed(e, verify, evs), view), Voters(e.Latest(), verify, evs, view))
  }

  lemma {:induction false} FormedStep(e: Vars, verify: VoteVerifier, evs: seq<Event>, view: nat)
    requires e.HasCommittee() && evs != []
    ensures var init := evs[..|evs| - 1];
            CountViews(Formed(e, verify, evs), view) ==
            CountViews(Formed(e, verify, init), view) + Formation(After(e, verify, init), verify, evs[|evs| - 1], view)
  {
    var init := evs[..|evs| - 1];
    var formed, qc := Formed(e, verify, init), FormedBy(After(e, verify, init), verify, evs[|evs| - 1]);
    if qc.Some? {
      CountAppend(formed, qc.value, view);
    } else {
      assert Formed(e, verify, evs) == formed + [] == formed;
    }
  }

  lemma {:induction false} EveryViewSound(e: Vars, verify: VoteVerifier, evs: seq<Event>, view: nat)
    requires e.HasCommittee() && e.votesBuf == map[] && e.Latest().QuorumSize() * 2 > |e.Latest().replicas|
    requires VotesAreFresh(e.Latest(), verify, evs)
    ensures RunSound(e, verify, evs, view)
  {
    if evs == [] {
      assert Signers([]) == [];
    } else {
      var mc, init, last := e.Latest(), evs[..|evs| - 1], evs[|evs| - 1];
      EveryViewSound(e, verify, init, view);
      AlwaysTagged(e, verify, init);
      VotersAreMembers(mc, verify, evs, view);
      FormedStep(e, verify, evs, view);
      SoundStep(After(e, verify, init), verify, last, view, CountViews(Formed(e, verify, init), view),
                Voters(mc, verify, init, view));
    }
  }

  /** At most one certificate per view, and no buffer ever holds a quorum. */
  lemma {:induction false} OneCertificatePerView(e: Vars, verify: VoteVerifier, evs: seq<Event>, view: nat)
    requires e.HasCommittee() && e.votesBuf == map[]
    requires e.Latest() == NewCommittee(e.Latest().number, e.Latest().replicas)
    requires OneVotePerView(e.Latest(), verify, evs)
    ensures CountViews(Formed(e, verify, evs), view) <= 1
    ensures var buf := Buffered(After(e, verify, evs).votesBuf, view);
            Distinct(Signers(buf)) && |buf| < e.Latest().QuorumSize()
  {
    QuorumArithmetic(e.Latest().number, e.Latest().replicas);
    OneVoteIsFresh(e.Latest(), verify, evs);
    EveryViewSound(e, verify, evs, view);
  }

  // ---------------------------------------------------------------- GenericQC and views

  ghost predicate NotLower(a: Option<QuorumCert>, b: Option<QuorumCert>) {
    a.Some? ==> b.Some? && a.value.view <= b.value.view
  }

  /** GenericQC's view never decreases over these steps. */
  lemma {:induction false} GenericNeverDrops(e: Vars, verify: VoteVerifier, evs: seq<Event>)
    requires e.HasCommittee()
    ensures NotLower(e.safety.genericQC, After(e, verify, evs).safety.genericQC)
    ensures After(e, verify, evs).safety.lockedQC == e.safety.lockedQC
  {
    if evs != [] {
      GenericNeverDrops(e, verify, evs[..|evs| - 1]);
    }
  }

  function Timeouts(evs: seq<Event>): nat {
    if evs == [] then 0 else Timeouts(evs[..|evs| - 1]) + if evs[|evs| - 1].TimedOut? then 1 else 0
  }

  /** Certificates formed since the last timeout. */
  function FormedSinceTimeout(e: Vars, verify: VoteVerifier, evs: seq<Event>): nat
    requires e.HasCommittee()
  {
    if evs == [] then 0
    else
      var init, last := evs[..|evs| - 1], evs[|evs| - 1];
      if last.TimedOut? then 0
      else FormedSinceTimeout(e, verify, init) + if FormedBy(After(e, verify, init), verify, last).Some? then 1 else 0
  }

  /** Certificates move only the engine's view, timeouts write the view-changer's back over it. */
  lemma {:induction false} ViewLaw(e: Vars, verify: VoteVerifier, evs: seq<Event>)
    requires e.HasCommittee() && e.curView == e.timeoutView
    ensures After(e, verify, evs).timeoutView == e.timeoutView + Timeouts(evs)
    ensures After(e, verify, evs).curView == After(e, verify, evs).timeoutView + FormedSinceTimeout(e, verify, evs)
  {
    if evs != [] {
      ViewLaw(e, verify, evs[..|evs| - 1]);
    }
  }

  /**
   * So views are not monotone: a timeout lowers the view exactly when two certificates were formed since the last one.
   */
  lemma {:induction false} TimeoutLowersView(e: Vars, verify: VoteVerifier, evs: seq<Event>, cancelled: bool)
    requires e.HasCommittee() && e.curView == e.timeoutView
    ensures var now := After(e, verify, evs);
            AfterHandleTimeout(now, cancelled).curView < now.curView <==> FormedSinceTimeout(e, verify, evs) >= 2
  {
    ViewLaw(e, verify, evs);
  }
}
