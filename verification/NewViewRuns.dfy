/** When exactly new-view messages make a replica propose, over every run of votes, new views and timeouts. */
module NewViewRuns {
  import opened Types
  import opened Engine
  import opened VoteRuns

  predicate IsNewView(ev: Event, view: nat) {
    ev.NewViewArrived? && ev.msg.view == view
  }

  /** The replica sent something when this event arrived. */
  predicate SendsOn(e: Vars, verify: VoteVerifier, init: seq<Event>, ev: Event)
    requires e.HasCommittee()
  {
    After(e, verify, init + [ev]).outbox != After(e, verify, init).outbox
  }

  /** The new-view messages of a view since the last one that made the replica propose. */
  function Waiting(e: Vars, verify: VoteVerifier, evs: seq<Event>, view: nat): seq<NewViewMsg>
    requires e.HasCommittee()
  {
    if evs == [] then []
    else
      var init, last := evs[..|evs| - 1], evs[|evs| - 1];
      var before := Waiting(e, verify, init, view);
      if !IsNewView(last, view) then before
      else if SendsOn(e, verify, init, last) then []
      else before + [last.msg]
  }

  /** Everything that arrived for a view, and the proposals made for it. */
  function Messages(evs: seq<Event>, view: nat): nat {
    if evs == [] then 0 else Messages(evs[..|evs| - 1], view) + if IsNewView(evs[|evs| - 1], view) then 1 else 0
  }

  function Proposals(e: Vars, verify: VoteVerifier, evs: seq<Event>, view: nat): nat
    requires e.HasCommittee()
  {
    if evs == [] then 0
    else
      var init, last := evs[..|evs| - 1], evs[|evs| - 1];
      Proposals(e, verify, init, view) + if IsNewView(last, view) && SendsOn(e, verify, init, last) then 1 else 0
  }

  function BufferOf(e: Vars, view: nat): seq<NewViewMsg> {
    if view in e.newViewBuf then e.newViewBuf[view] else []
  }

  /** What an arriving message does: it waits, or the Qc messages waiting make one proposal. */
  lemma {:induction false} OnMessage(now: Vars, verify: VoteVerifier, ev: Event)
    requires now.HasCommittee() && ev.NewViewArrived?
    ensures var next, msgs := Step(now, verify, ev), BufferOf(now, ev.msg.view) + [ev.msg];
            && |next.outbox| == |now.outbox| + (if |msgs| >= now.Latest().QuorumSize() then 1 else 0)
            && (|msgs| < now.Latest().QuorumSize() ==> next.outbox == now.outbox)
            && BufferOf(next, ev.msg.view) == (if |msgs| >= now.Latest().QuorumSize() then [] else msgs)
            && (forall view :: view != ev.msg.view ==> BufferOf(next, view) == BufferOf(now, view))
  {
    var msgs := BufferOf(now, ev.msg.view) + [ev.msg];
    if |msgs| >= now.Latest().QuorumSize() {
      var generic := WithHighest(now.safety.genericQC, msgs);
      var e1 := now.(newViewBuf := now.newViewBuf - {ev.msg.view}, safety := now.safety.(genericQC := generic));
      ProposingKeeps(e1, generic, ev.store);
    }
  }

  lemma {:induction false} MessageArrives(e: Vars, verify: VoteVerifier, init: seq<Event>, last: Event)
    requires e.HasCommittee() && last.NewViewArrived?
    ensures var now, next := After(e, verify, init), After(e, verify, init + [last]);
            var msgs := BufferOf(now, last.msg.view) + [last.msg];
            && (SendsOn(e, verify, init, last) <==> |msgs| >= e.Latest().QuorumSize())
            && BufferOf(next, last.msg.view) == (if |msgs| >= e.Latest().QuorumSize() then [] else msgs)
            && (forall view :: view != last.msg.view ==> BufferOf(next, view) == BufferOf(now, view))
  {
    AfterNext(e, verify, init, last);
    OnMessage(After(e, verify, init), verify, last);
  }

  lemma {:induction false} OthersLeaveMessages(e: Vars, verify: VoteVerifier, init: seq<Event>, last: Event, view: nat)
    requires e.HasCommittee() && !last.NewViewArrived?
    ensures BufferOf(After(e, verify, init + [last]), view) == BufferOf(After(e, verify, init), view)
  {
    AfterNext(e, verify, init, last);
  }

  /** A view's buffer holds the waiting messages, in order, and they are no quorum. */
  lemma {:induction false} BuffersAreWaiting(e: Vars, verify: VoteVerifier, evs: seq<Event>, view: nat)
    requires e.HasCommittee() && e.newViewBuf == map[]
    ensures BufferOf(After(e, verify, evs), view) == Waiting(e, verify, evs, view)
    ensures |Waiting(e, verify, evs, view)| < e.Latest().QuorumSize()
  {
    if evs != [] {
      var init, last := evs[..|evs| - 1], evs[|evs| - 1];
      assert evs == init + [last];
      BuffersAreWaiting(e, verify, init, view);
      if last.NewViewArrived? {
        MessageArrives(e, verify, init, last);
      } else {
        OthersLeaveMessages(e, verify, init, last, view);
      }
    }
  }

  /** A new-view message makes the replica propose if and only if it is the Qc-th since the view's last proposal. */
  lemma {:induction false} ProposesIff(e: Vars, verify: VoteVerifier, init: seq<Event>, last: Event)
    requires e.HasCommittee() && e.newViewBuf == map[] && last.NewViewArrived?
    ensures SendsOn(e, verify, init, last) <==>
            |Waiting(e, verify, init, last.msg.view)| + 1 == e.Latest().QuorumSize()
  {
    BuffersAreWaiting(e, verify, init, last.msg.view);
    MessageArrives(e, verify, init, last);
  }

  lemma {:induction false} Quotient(n: nat, q: nat, f: nat, w: nat)
    requires w < q && n == q * f + w
    ensures n / q == f
  {
    var d := n / q - f;
    assert q * (n / q) - q * f == q * d;
    assert n == q * (n / q) + n % q;
    assert 0 - q < q * d < q;
    assert d == 0;
  }

  /** One more message: the Qc-th one makes a proposal, any other one waits. */
  lemma {:induction false} OneMore(q: nat, f: nat, w: nat, proposes: bool)
    requires proposes <==> w + 1 == q
    ensures q * f + w + 1 == q * (f + if proposes then 1 else 0) + if proposes then 0 else w + 1
  {
    assert q * (f + 1) == q * f + q;
  }

  lemma {:induction false} MessagesAddUp(e: Vars, verify: VoteVerifier, evs: seq<Event>, view: nat)
    requires e.HasCommittee() && e.newViewBuf == map[]
    ensures Messages(evs, view) ==
            e.Latest().QuorumSize() * Proposals(e, verify, evs, view) + |Waiting(e, verify, evs, view)|
  {
    if evs != [] {
      var init, last := evs[..|evs| - 1], evs[|evs| - 1];
      MessagesAddUp(e, verify, init, view);
      if IsNewView(last, view) {
        ProposesIff(e, verify, init, last);
        OneMore(e.Latest().QuorumSize(), Proposals(e, verify, init, view), |Waiting(e, verify, init, view)|,
                SendsOn(e, verify, init, last));
      }
    }
  }

  /** So a view is proposed in once per Qc of its messages. */
  lemma {:induction false} ProposalsPerMessages(e: Vars, verify: VoteVerifier, evs: seq<Event>, view: nat)
    requires e.HasCommittee() && e.newViewBuf == map[]
    ensures Proposals(e, verify, evs, view) == Messages(evs, view) / e.Latest().QuorumSize()
  {
    MessagesAddUp(e, verify, evs, view);
    BuffersAreWaiting(e, verify, evs, view);
    Quotient(Messages(evs, view), e.Latest().QuorumSize(), Proposals(e, verify, evs, view),
             |Waiting(e, verify, evs, view)|);
  }

  // ---------------------------------------------------------------- what it proposes on

  /** Not older than any certificate in these messages, and than the one held before, and one of them. */
  ghost predicate IsNewest(held: Option<QuorumCert>, msgs: seq<NewViewMsg>, qc: Option<QuorumCert>) {
    && NotLower(held, qc)
    && (forall m :: m in msgs ==> NotLower(m.genericQC, qc))
    && (qc == held || exists m :: m in msgs && m.genericQC == qc)
  }

  lemma {:induction false} HighestIsNewest(held: Option<QuorumCert>, msgs: seq<NewViewMsg>)
    ensures IsNewest(held, msgs, WithHighest(held, msgs))
  {
    NoHighestQC(msgs);
    if HighestQC(msgs).Some? {
      var i := HighestQCIsHighest(msgs);
      assert msgs[i] in msgs;
      forall m | m in msgs
        ensures NotLower(m.genericQC, WithHighest(held, msgs))
      {
        var j :| 0 <= j < |msgs| && msgs[j] == m;
      }
    } else {
      forall m | m in msgs
        ensures m.genericQC == None
      {
        var j :| 0 <= j < |msgs| && msgs[j] == m;
      }
    }
  }

  /** The proposal is justified by the newest certificate of the Qc messages and the replica, which it then holds. */
  lemma {:induction false} ProposalIsNewest(e: Vars, verify: VoteVerifier, init: seq<Event>, last: Event)
    requires e.HasCommittee() && e.newViewBuf == map[] && last.NewViewArrived?
    ensures var now, next := After(e, verify, init), After(e, verify, init + [last]);
            var msgs := Waiting(e, verify, init, last.msg.view) + [last.msg];
            if SendsOn(e, verify, init, last) then
              && |msgs| == e.Latest().QuorumSize()
              && IsNewest(now.safety.genericQC, msgs, next.safety.genericQC)
              && |next.outbox| == |now.outbox| + 1 && next.outbox[..|now.outbox|] == now.outbox
              && next.outbox[|now.outbox|].Broadcast?
              && next.outbox[|now.outbox|].block.justify == next.safety.genericQC
            else next == now.(newViewBuf := next.newViewBuf)
  {
    var now := After(e, verify, init);
    AfterNext(e, verify, init, last);
    BuffersAreWaiting(e, verify, init, last.msg.view);
    MessageArrives(e, verify, init, last);
    HighestIsNewest(now.safety.genericQC, Waiting(e, verify, init, last.msg.view) + [last.msg]);
  }
}
