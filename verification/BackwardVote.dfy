/**
 * Votes in falling views break agreement even if no two are cast in one view: a member votes for 5 and 6 in views 6 and
 * 7, then, its view gone back, for 3 in view 4, and only this vote locks it on the block that is committed.
 *
 *   0 - 1 - 2 - - - - 3 - 4    1 is committed by 4, 3, 2
 *    \ - - - - 5 - 6 - 7 - 8   5 is committed by 8, 7, 6
 */
module BackwardVote {
  import opened Types
  import opened Committee
  import opened Quorum
  import opened Ancestry
  import opened Agreement
  import opened Forks

  function Parent(i: nat): nat {
    if i <= 1 || i == 5 then 0 else i - 1
  }

  /** The members vote for 0, 1, 2, 5, 6, 3 and 7. */
  function Order(s: nat): nat {
    if s <= 2 then s else if s <= 4 then s + 2 else if s == 5 then 3 else 7
  }

  function View(s: nat): nat {
    if s <= 2 then s + 1 else if s <= 4 then s + 3 else if s == 5 then 4 else 8
  }

  function CertView(i: nat): nat {
    if i <= 1 || i == 5 then 1 else i
  }

  function Voting(i: nat): nat {
    if i <= 1 || i == 5 then 0 else if i <= 3 then i - 1 else if i == 4 then 5 else if i <= 7 then i - 3 else 6
  }

  function Lock(s: nat): Option<nat> {
    if s <= 2 then None else if s <= 4 then Some(1) else if s == 5 then Some(5) else if s == 6 then Some(2) else Some(6)
  }

  function Backward(): Shape {
    Shape(9, i => i, Parent, Parent, CertView, Voting, 7, Order, View, s => true, s => true, Lock)
  }

  function Late(): nat -> bool {
    i => i >= 5
  }

  lemma BackwardStep(s: nat)
    requires s < 7
    ensures HandledAt(Backward(), s)
  {
  }

  lemma BackwardClimbs(s: nat)
    requires s < 7
    ensures ClimbsAt(Backward(), s)
  {
  }

  lemma BackwardBlock(i: nat)
    requires 1 <= i < 9
    ensures PlacedAt(Backward(), i)
  {
  }

  lemma BackwardOnce()
    ensures VotesOnce(Backward()) && Separates(Backward(), Late())
  {
  }

  lemma BackwardIsWellShaped()
    ensures WellShaped(Backward()) && Climbs(Backward()) && VotesOnce(Backward()) && Separates(Backward(), Late())
  {
    BackwardOnce();
    forall s | 0 <= s < 7
      ensures HandledAt(Backward(), s) && ClimbsAt(Backward(), s)
    {
      BackwardStep(s);
      BackwardClimbs(s);
    }
    forall i | 1 <= i < 9
      ensures PlacedAt(Backward(), i)
    {
      BackwardBlock(i);
    }
  }

  /** No honest member votes twice in one view. */
  ghost predicate OneVotePerView(run: Run) {
    forall id, i, j :: id in run.trace && 0 <= i < j < |run.trace[id]| ==>
      run.trace[id][i].voted && run.trace[id][j].voted ==> run.trace[id][i].view != run.trace[id][j].view
  }

  lemma ViewsDiffer(w: World, bs: seq<Block>, store: Store)
    requires IsForkRun(w, Backward(), bs, store)
    ensures OneVotePerView(RunOf(w, Backward(), bs, store))
  {
    var steps := StepsOf(Backward(), bs, store);
    forall s, t | 0 <= s < t < |steps|
      ensures steps[s].view != steps[t].view
    {
      assert View(s) != View(t);
    }
  }

  lemma VotesGoBack(w: World, bs: seq<Block>, store: Store)
    requires IsForkRun(w, Backward(), bs, store)
    ensures !VotesAreOrdered(RunOf(w, Backward(), bs, store))
  {
    var run := RunOf(w, Backward(), bs, store);
    assert "P1" == HONEST[0];
    assert "P1" in run.trace;
    var steps := run.trace["P1"];
    assert steps[4].voted && steps[5].voted && steps[4].view == View(4) && steps[5].view == View(5);
  }

  lemma BackwardChains()
    ensures IsChain(Backward(), Chain(4, 3, 2, 1)) && IsChain(Backward(), Chain(8, 7, 6, 5))
    ensures IsConsecutive(Backward(), Chain(4, 3, 2, 1)) && IsConsecutive(Backward(), Chain(8, 7, 6, 5))
    ensures Justified(Backward()) && Stocked(Backward())
  {
  }

  /** Every other hypothesis holds, consecutive views included, and two branches are committed. */
  lemma {:induction false} BackwardVotesBreakAgreement(w: World, bs: seq<Block>) returns (run: Run)
    requires IsFork(w, Backward(), bs)
    ensures WellVoted(w.sha, run, w.verify) && NoCycles(w.sha, run) && run.faulty == {"P4"}
    ensures ParentsAreJustified(run) && LocksAreMonotone(w.sha, run)
    ensures VotesAreSingle(w.sha, run) && AncestorsStored(run)
    ensures OneVotePerView(run) && !VotesAreOrdered(run)
    ensures Committed(w.sha, run, bs[1]) && Committed(w.sha, run, bs[5])
    ensures Forked(w.sha, run, bs[1], bs[5])
  {
    BackwardIsWellShaped();
    BackwardChains();
    var store: Store;
    run, store := ForkedRun(w, Backward(), bs, Late(), Chain(4, 3, 2, 1), Chain(8, 7, 6, 5));
    VotesGoBack(w, bs, store);
    ViewsDiffer(w, bs, store);
  }

  /** Such blocks exist, for any scheme that accepts its own signatures. */
  lemma {:induction false} BackwardExists(key: nat -> Key, sign: (nat, Hash) -> Bytes, verify: Verifier) returns
      (w: World, bs: seq<Block>)
    requires forall k: nat, h :: k < 3 ==> verify(Some(key(k)), h, sign(k, h))
    ensures w.verify == verify && IsFork(w, Backward(), bs)
  {
    BackwardIsWellShaped();
    w, bs := ForkExists(Backward(), key, sign, verify);
  }
}
