/**
 * Voting for a header twice breaks agreement even in growing views: the block hash does not cover the justify, so one
 * header can carry a certificate of an early view where it is stored and of a later view where it is counted.
 *
 *   0 - 1 - 3 - 5 - 6          3 and 4 are one header that certifies 1 in view 2 and in view 5;
 *    \   \ 4                   3 is stored and voted for, and 1 is committed by 6, 5, 4
 *     2 - 7 - 8 - 9 - 10       2 certifies 0 in view 3, after 1 does in view 1; 7 is committed by 10, 9, 8
 */
module RepeatedVote {
  import opened Types
  import opened Committee
  import opened Quorum
  import opened Ancestry
  import opened Agreement
  import opened Forks

  function Header(i: nat): nat {
    if i == 4 then 3 else i
  }

  function Parent(i: nat): nat {
    if i <= 2 then 0 else if i <= 4 then 1 else if i == 5 then 3 else if i == 7 then 2 else i - 1
  }

  /** In views 1 to 10 the members vote for 0, 1, 0, 2, 1, 3, 5, 7, 8 and 9. */
  function Order(s: nat): nat {
    if s <= 1 then s else if s == 2 then 0 else if s == 3 then 2 else if s == 4 then 1 else if s == 5 then 3
    else if s == 6 then 5 else s
  }

  function CertView(i: nat): nat {
    if i <= 1 then 1 else if i == 2 then 3 else if i == 3 then 2 else if i == 4 then 5 else if i == 5 then 6
    else if i == 6 then 7 else if i == 7 then 4 else i
  }

  function Voting(i: nat): nat {
    if CertView(i) == 0 then 0 else CertView(i) - 1
  }

  function Lock(s: nat): Option<nat> {
    if s <= 5 then None else if s == 6 then Some(1) else if s == 7 then Some(3) else if s == 8 then Some(2)
    else if s == 9 then Some(7) else Some(8)
  }

  function Twice(): Shape {
    Shape(11, Header, Parent, Parent, CertView, Voting, 10, Order, s => s + 1, s => true, s => true, Lock)
  }

  /** The branch of 2. */
  function Lower(): nat -> bool {
    i => i == 2 || i >= 7
  }

  lemma TwiceStep(s: nat)
    requires s < 10
    ensures HandledAt(Twice(), s) && ClimbsAt(Twice(), s)
  {
  }

  lemma TwiceBlock(i: nat)
    requires 1 <= i < 11
    ensures PlacedAt(Twice(), i)
  {
  }

  lemma TwiceIsWellShaped()
    ensures WellShaped(Twice()) && Climbs(Twice()) && VotesInOrder(Twice()) && Separates(Twice(), Lower())
  {
    forall s | 0 <= s < 10
      ensures HandledAt(Twice(), s) && ClimbsAt(Twice(), s)
    {
      TwiceStep(s);
    }
    forall i | 1 <= i < 11
      ensures PlacedAt(Twice(), i)
    {
      TwiceBlock(i);
    }
  }

  lemma VotesTwice(w: World, bs: seq<Block>, store: Store)
    requires IsForkRun(w, Twice(), bs, store)
    ensures !VotesAreSingle(w.sha, RunOf(w, Twice(), bs, store))
  {
    var run := RunOf(w, Twice(), bs, store);
    assert "P1" == HONEST[0];
    assert "P1" in run.trace;
    var steps := run.trace["P1"];
    assert steps[0].voted && steps[2].voted && steps[0].block == steps[2].block;
  }

  lemma TwiceChains()
    ensures IsChain(Twice(), Chain(6, 5, 4, 1)) && IsChain(Twice(), Chain(10, 9, 8, 7))
    ensures IsConsecutive(Twice(), Chain(6, 5, 4, 1)) && IsConsecutive(Twice(), Chain(10, 9, 8, 7))
    ensures Justified(Twice()) && Stocked(Twice())
  {
  }

  /** Every other hypothesis holds, growing and consecutive views included, and two branches are committed. */
  lemma {:induction false} RepeatedVotesBreakAgreement(w: World, bs: seq<Block>) returns (run: Run)
    requires IsFork(w, Twice(), bs)
    ensures WellVoted(w.sha, run, w.verify) && NoCycles(w.sha, run) && run.faulty == {"P4"}
    ensures ParentsAreJustified(run) && LocksAreMonotone(w.sha, run) && VotesAreOrdered(run) && AncestorsStored(run)
    ensures !VotesAreSingle(w.sha, run)
    ensures Committed(w.sha, run, bs[1]) && Committed(w.sha, run, bs[7])
    ensures Forked(w.sha, run, bs[1], bs[7])
  {
    TwiceIsWellShaped();
    TwiceChains();
    var store: Store;
    run, store := ForkedRun(w, Twice(), bs, Lower(), Chain(6, 5, 4, 1), Chain(10, 9, 8, 7));
    VotesTwice(w, bs, store);
  }

  /** Such blocks exist, for any scheme that accepts its own signatures. */
  lemma {:induction false} TwiceExists(key: nat -> Key, sign: (nat, Hash) -> Bytes, verify: Verifier) returns
      (w: World, bs: seq<Block>)
    requires forall k: nat, h :: k < 3 ==> verify(Some(key(k)), h, sign(k, h))
    ensures w.verify == verify && IsFork(w, Twice(), bs)
  {
    TwiceIsWellShaped();
    w, bs := ForkExists(Twice(), key, sign, verify);
  }
}
