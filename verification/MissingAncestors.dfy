/**
 * One vote cast without the certified ancestors in store breaks agreement: the two-chain rule is skipped, and the voter
 * is not locked on the block that its vote helps to commit.
 *
 *   0 - 1 - 2 - 3 - 4          1 is committed by 4, 3, 2; 3 is voted for with an empty store
 *    \ 5 - 6 - 7 - 8           5 extends the lock that is left, and is committed by 8, 7, 6
 */
module MissingAncestors {
  import opened Types
  import opened Committee
  import opened Quorum
  import opened Ancestry
  import opened Agreement
  import opened Forks

  const BLIND: nat := 3

  function Parent(i: nat): nat {
    if i <= 1 || i == 5 then 0 else i - 1
  }

  /** Steps 0 to 3 handle blocks 0 to 3, steps 4 to 6 blocks 5 to 7. */
  function Order(s: nat): nat {
    if s <= BLIND then s else s + 1
  }

  function Voting(i: nat): nat {
    if Parent(i) <= BLIND then Parent(i) else Parent(i) - 1
  }

  function Lock(s: nat): Option<nat> {
    if s <= 2 then None else if s <= 5 then Some(1) else if s == 6 then Some(5) else Some(6)
  }

  function Blind(): Shape {
    Shape(9, i => i, Parent, Parent, i => Voting(i) + 1, Voting, 7, Order, s => s + 1, s => s != BLIND, s => true, Lock)
  }

  function Late(): nat -> bool {
    i => i >= 5
  }

  lemma BlindStep(s: nat)
    requires s < 7
    ensures HandledAt(Blind(), s)
  {
  }

  lemma BlindClimbs(s: nat)
    requires s < 7
    ensures ClimbsAt(Blind(), s)
  {
  }

  lemma BlindBlock(i: nat)
    requires 1 <= i < 9
    ensures PlacedAt(Blind(), i)
  {
  }

  lemma BlindIsWellShaped()
    ensures WellShaped(Blind()) && Climbs(Blind()) && VotesInOrder(Blind()) && VotesOnce(Blind())
    ensures Separates(Blind(), Late())
  {
    forall s | 0 <= s < 7
      ensures HandledAt(Blind(), s) && ClimbsAt(Blind(), s)
    {
      BlindStep(s);
      BlindClimbs(s);
    }
    forall i | 1 <= i < 9
      ensures PlacedAt(Blind(), i)
    {
      BlindBlock(i);
    }
  }

  lemma OthersAreStocked(w: World, bs: seq<Block>, store: Store)
    requires IsForkRun(w, Blind(), bs, store)
    ensures var run := RunOf(w, Blind(), bs, store);
            forall id, s :: id in run.trace && 0 <= s < |run.trace[id]| && s != BLIND ==> StoredAt(run.trace[id][s])
  {
    forall s | 0 <= s < 7 && s != BLIND
      ensures StoredAt(StepsOf(Blind(), bs, store)[s])
    {
      AncestorsAt(w, Blind(), bs, store, s);
    }
  }

  lemma BlindChains()
    ensures IsChain(Blind(), Chain(4, 3, 2, 1)) && IsChain(Blind(), Chain(8, 7, 6, 5))
    ensures IsConsecutive(Blind(), Chain(4, 3, 2, 1)) && IsConsecutive(Blind(), Chain(8, 7, 6, 5))
    ensures Justified(Blind())
  {
  }

  /** Every other hypothesis holds, consecutive views included, and two branches are committed. */
  lemma {:induction false} MissingAncestorsBreakAgreement(w: World, bs: seq<Block>) returns (run: Run)
    requires IsFork(w, Blind(), bs)
    ensures WellVoted(w.sha, run, w.verify) && NoCycles(w.sha, run) && run.faulty == {"P4"}
    ensures ParentsAreJustified(run) && LocksAreMonotone(w.sha, run)
    ensures VotesAreOrdered(run) && VotesAreSingle(w.sha, run)
    ensures forall id, s :: id in run.trace && 0 <= s < |run.trace[id]| && s != BLIND ==> StoredAt(run.trace[id][s])
    ensures Committed(w.sha, run, bs[1]) && Committed(w.sha, run, bs[5])
    ensures Forked(w.sha, run, bs[1], bs[5])
  {
    BlindIsWellShaped();
    BlindChains();
    var store: Store;
    run, store := ForkedRun(w, Blind(), bs, Late(), Chain(4, 3, 2, 1), Chain(8, 7, 6, 5));
    OthersAreStocked(w, bs, store);
  }

  /** Such blocks exist, for any scheme that accepts its own signatures. */
  lemma {:induction false} BlindExists(key: nat -> Key, sign: (nat, Hash) -> Bytes, verify: Verifier) returns
      (w: World, bs: seq<Block>)
    requires forall k: nat, h :: k < 3 ==> verify(Some(key(k)), h, sign(k, h))
    ensures w.verify == verify && IsFork(w, Blind(), bs)
  {
    BlindIsWellShaped();
    w, bs := ForkExists(Blind(), key, sign, verify);
  }
}
