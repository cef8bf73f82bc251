/**
 * One proposal of a faulty leader that breaks agreement: its justify certifies the newest block while its parent
 * hash names an old one. The voting rule accepts it for its justify, whatever its parent is.
 *
 *   0 - 1 - 2 - 3 - 4          1 is committed by 4, 3, 2
 *    \ 5 - 6 - 7 - 8           5 certifies 4, and is committed by 8, 7, 6
 */
module LyingParent {
  import opened Types
  import opened Committee
  import opened Quorum
  import opened Ancestry
  import opened Agreement
  import opened Forks

  const LIE: nat := 5

  function Cert(i: nat): nat {
    if i == 0 then 0 else i - 1
  }

  function Parent(i: nat): nat {
    if i == LIE then 0 else Cert(i)
  }

  function Lock(i: nat): Option<nat> {
    if i <= 2 then None else if i == 3 then Some(1) else if i == 4 then Some(2) else if i <= 7 then Some(3) else Some(6)
  }

  function Lying(): Shape {
    InOrder(8, Parent, Cert, Lock)
  }

  function Late(): nat -> bool {
    i => i >= LIE
  }

  lemma LyingStep(s: nat)
    requires s < 8
    ensures HandledAt(Lying(), s) && ClimbsAt(Lying(), s)
  {
  }

  lemma LyingBlock(i: nat)
    requires 1 <= i < 9
    ensures PlacedAt(Lying(), i)
  {
  }

  lemma LyingIsWellShaped()
    ensures WellShaped(Lying()) && Climbs(Lying()) && VotesInOrder(Lying()) && VotesOnce(Lying())
    ensures Separates(Lying(), Late())
  {
    forall s | 0 <= s < 8
      ensures HandledAt(Lying(), s) && ClimbsAt(Lying(), s)
    {
      LyingStep(s);
    }
    forall i | 1 <= i < 9
      ensures PlacedAt(Lying(), i)
    {
      LyingBlock(i);
    }
  }

  lemma OthersHaveHonestShape(w: World, bs: seq<Block>, run: Run)
    requires IsFork(w, Lying(), bs) && run.blocks == Elements(bs)
    ensures forall b :: b in run.blocks && b != bs[LIE] ==> ParentIsJustified(b)
  {
    forall b | b in bs && b != bs[LIE]
      ensures ParentIsJustified(b)
    {
      var i :| 0 <= i < 9 && bs[i] == b;
      HonestShapeAt(w, Lying(), bs, i);
    }
  }

  lemma LyingChains()
    ensures IsChain(Lying(), Chain(4, 3, 2, 1)) && IsChain(Lying(), Chain(8, 7, 6, LIE))
    ensures IsConsecutive(Lying(), Chain(4, 3, 2, 1)) && IsConsecutive(Lying(), Chain(8, 7, 6, LIE))
    ensures Stocked(Lying())
  {
    assert forall i :: Lying().certView(i) == Cert(i) + 1;
  }

  /** Every other hypothesis holds, consecutive views included, and one lying block commits a second branch. */
  lemma {:induction false} LyingParentBreaksAgreement(w: World, bs: seq<Block>) returns (run: Run)
    requires IsFork(w, Lying(), bs)
    ensures WellVoted(w.sha, run, w.verify) && NoCycles(w.sha, run) && run.faulty == {"P4"}
    ensures LocksAreMonotone(w.sha, run) && VotesAreOrdered(run) && VotesAreSingle(w.sha, run) && AncestorsStored(run)
    ensures forall b :: b in run.blocks && b != bs[LIE] ==> ParentIsJustified(b)
    ensures Committed(w.sha, run, bs[1]) && Committed(w.sha, run, bs[LIE])
    ensures Forked(w.sha, run, bs[1], bs[LIE])
  {
    LyingIsWellShaped();
    LyingChains();
    var store: Store;
    run, store := ForkedRun(w, Lying(), bs, Late(), Chain(4, 3, 2, 1), Chain(8, 7, 6, LIE));
    OthersHaveHonestShape(w, bs, run);
  }

  /** Such blocks exist, for any scheme that accepts its own signatures. */
  lemma {:induction false} LyingExists(key: nat -> Key, sign: (nat, Hash) -> Bytes, verify: Verifier) returns
      (w: World, bs: seq<Block>)
    requires forall k: nat, h :: k < 3 ==> verify(Some(key(k)), h, sign(k, h))
    ensures w.verify == verify && IsFork(w, Lying(), bs)
  {
    LyingIsWellShaped();
    w, bs := ForkExists(Lying(), key, sign, verify);
  }
}
