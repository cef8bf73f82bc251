/**
 * A run that meets every hypothesis of the agreement theorem except consecutive views, in which the three-chain
 * rule commits two blocks on different branches: the rule looks at parent hashes only.
 *
 *   0 - 1 - 2 - - - 5 - 7      1 is committed by 7, 5, 2
 *    \ 3 - 4 - - - 6 - 8       3 is committed by 8, 6, 4
 */
module ViewGaps {
  import opened Types
  import opened Committee
  import opened Quorum
  import opened Ancestry
  import opened Agreement
  import opened Forks

  function Parent(i: nat): nat {
    if i <= 1 then 0 else if i == 2 then 1 else if i == 3 then 0 else if i == 4 then 3
    else if i == 5 then 2 else if i == 6 then 4 else if i == 7 then 5 else 6
  }

  function Lock(i: nat): Option<nat> {
    if i <= 2 then None else if i <= 4 then Some(1) else if i == 5 then Some(3) else if i == 6 then Some(2) else Some(4)
  }

  /** Every block's parent is the block it certifies. */
  function Gaps(): Shape {
    InOrder(7, Parent, Parent, Lock)
  }

  /** The branch of 1. */
  function Upper(): nat -> bool {
    i => i == 1 || i == 2 || i == 5 || i == 7
  }

  lemma GapsStep(s: nat)
    requires s < 7
    ensures HandledAt(Gaps(), s) && ClimbsAt(Gaps(), s)
  {
  }

  lemma GapsBlock(i: nat)
    requires 1 <= i < 9
    ensures PlacedAt(Gaps(), i)
  {
  }

  lemma GapsAreWellShaped()
    ensures WellShaped(Gaps()) && Climbs(Gaps()) && VotesInOrder(Gaps()) && VotesOnce(Gaps())
    ensures Separates(Gaps(), Upper())
  {
    forall s | 0 <= s < 7
      ensures HandledAt(Gaps(), s) && ClimbsAt(Gaps(), s)
    {
      GapsStep(s);
    }
    forall i | 1 <= i < 9
      ensures PlacedAt(Gaps(), i)
    {
      GapsBlock(i);
    }
  }

  lemma GapsChains()
    ensures IsChain(Gaps(), Chain(7, 5, 2, 1)) && IsChain(Gaps(), Chain(8, 6, 4, 3))
    ensures Justified(Gaps()) && Stocked(Gaps())
  {
  }

  /** Without consecutive views the other hypotheses do not give agreement, for any digest ideal on nine headers. */
  lemma {:induction false} ViewGapsBreakAgreement(w: World, bs: seq<Block>) returns (run: Run)
    requires IsFork(w, Gaps(), bs)
    ensures Admissible(w.sha, run, w.verify) && run.faulty == {"P4"}
    ensures ThreeChain(w.sha, run, bs[7], bs[5], bs[2], bs[1]) && ThreeChain(w.sha, run, bs[8], bs[6], bs[4], bs[3])
    ensures Forked(w.sha, run, bs[1], bs[3])
  {
    GapsAreWellShaped();
    GapsChains();
    var store: Store;
    run, store := ForkedRun(w, Gaps(), bs, Upper(), Chain(7, 5, 2, 1), Chain(8, 6, 4, 3));
  }

  /** Such blocks exist, for any scheme that accepts its own signatures. */
  lemma {:induction false} GapsExist(key: nat -> Key, sign: (nat, Hash) -> Bytes, verify: Verifier) returns
      (w: World, bs: seq<Block>)
    requires forall k: nat, h :: k < 3 ==> verify(Some(key(k)), h, sign(k, h))
    ensures w.verify == verify && IsFork(w, Gaps(), bs)
  {
    GapsAreWellShaped();
    w, bs := ForkExists(Gaps(), key, sign, verify);
  }
}
