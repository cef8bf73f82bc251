/**
 * One old proposal handled a second time breaks agreement: the two-chain rule assigns its parent's justify to the
 * lock without comparing views, so the lock falls back behind a committed block.
 *
 *   0 - 1 - 2 - 3 - 4          1 is committed by 4, 3, 2; then 2 is handled again, without a vote
 *    \ 5 - 6 - 7 - 8           5 extends the lock that is left, and is committed by 8, 7, 6
 */
module StaleLock {
  import opened Types
  import opened Encoding
  import opened Committee
  import opened Quorum
  import opened Ancestry
  import opened Safety
  import opened Agreement
  import opened Forks

  /** The certificate the two-chain rule assigns, if this proposal meets it. */
  function Assigned(sha: Sha, bStar: Block, store: Store): Option<QuorumCert> {
    match Certified(store, bStar)
    case None => None
    case Some(bDouble) =>
      match Certified(store, bDouble)
      case None => None
      case Some(bPrime) =>
        if bStar.parentHash == HashBlock(sha, bDouble) && bDouble.parentHash == HashBlock(sha, bPrime)
        then bDouble.justify
        else None
  }

  /** A lock falls back if and only if the proposal tops a stored two-chain whose certificate is older than the lock. */
  lemma LockFallsBackIff(sha: Sha, s: SafetyVars, bStar: Block, store: Store)
    requires s.lockedQC.Some?
    ensures !LockNotOlder(s, AfterPropose(sha, s, bStar, store)) <==>
            Assigned(sha, bStar, store).Some? && Assigned(sha, bStar, store).value.view < s.lockedQC.value.view
  {
  }

  // ---------------------------------------------------------------- handling without a vote

  /** The run in which a member handles one more proposal. */
  function Handling(run: Run, id: string, s: Step): Run
    requires id in run.trace
  {
    run.(trace := run.trace[id := run.trace[id] + [s]])
  }

  /** A received proposal handled without a vote, with a sound store, in any view. */
  ghost predicate OnlyHandled(sha: Sha, run: Run, s: Step) {
    && !s.voted && s.block in run.blocks
    && forall h :: h in s.store ==> s.store[h] in run.blocks && HashBlock(sha, s.store[h]) == h
  }

  lemma {:induction false} EarlierStates(sha: Sha, run: Run, id: string, s: Step, i: nat)
    requires id in run.trace && i <= |run.trace[id]|
    ensures SafetyAfter(sha, Handling(run, id, s).trace[id][..i]) == SafetyAfter(sha, run.trace[id][..i])
    ensures SafetyAfter(sha, Handling(run, id, s).trace[id]) ==
            AfterPropose(sha, SafetyAfter(sha, run.trace[id]), s.block, s.store)
  {
    var t, t' := run.trace[id], run.trace[id] + [s];
    assert t'[..i] == t[..i];
    assert t'[..|t'| - 1] == t;
  }

  lemma {:induction false} DescendsStill(sha: Sha, run: Run, run': Run, h: Hash, a: Hash, k: nat)
    requires run'.blocks == run.blocks && Descends(sha, run', h, a, k)
    ensures Descends(sha, run, h, a, k)
    decreases k
  {
    if k > 0 {
      var b :| b in run'.blocks && b.parentHash == a && Descends(sha, run', h, HashBlock(sha, b), k - 1);
      DescendsStill(sha, run, run', h, HashBlock(sha, b), k - 1);
    }
  }

  lemma {:induction false} VotesStay(sha: Sha, run: Run, verify: Verifier, id: string, s: Step)
    requires WellVoted(sha, run, verify) && id in run.trace && OnlyHandled(sha, run, s)
    ensures WellVoted(sha, Handling(run, id, s), verify)
  {
    var run' := Handling(run, id, s);
    forall b, v | b in run.blocks && b.justify.Some? && v in b.justify.value.signers && Honest(run', v)
      ensures exists i :: Voted(sha, run', v, i, b.justify.value.view, b.justify.value.blockHash)
    {
      assert Honest(run, v);
      var i :| Voted(sha, run, v, i, b.justify.value.view, b.justify.value.blockHash);
      assert Voted(sha, run', v, i, b.justify.value.view, b.justify.value.blockHash);
    }
    forall v, i | v in run'.trace && 0 <= i < |run'.trace[v]| && run'.trace[v][i].voted
      ensures SafeNode(SafetyAfter(sha, run'.trace[v][..i]), run'.trace[v][i].block, run'.trace[v][i].block.justify,
                       run'.trace[v][i].store)
    {
      if v == id {
        EarlierStates(sha, run, id, s, i);
        assert run'.trace[id][i] == run.trace[id][i];
      }
    }
  }

  lemma {:induction false} LocksStayIff(sha: Sha, run: Run, id: string, s: Step)
    requires LocksAreMonotone(sha, run) && id in run.trace
    ensures LocksAreMonotone(sha, Handling(run, id, s)) <==>
            var now := SafetyAfter(sha, run.trace[id]);
            LockNotOlder(now, AfterPropose(sha, now, s.block, s.store))
  {
    var run', n := Handling(run, id, s), |run.trace[id]|;
    assert run.trace[id][..n] == run.trace[id] && run'.trace[id][..n + 1] == run'.trace[id];
    EarlierStates(sha, run, id, s, n);
    assert LocksAreMonotone(sha, run') ==>
             LockNotOlder(SafetyAfter(sha, run'.trace[id][..n]), SafetyAfter(sha, run'.trace[id][..n + 1]));
    forall v, i | v in run.trace && 0 <= i < |run.trace[v]|
      ensures LockNotOlder(SafetyAfter(sha, run'.trace[v][..i]), SafetyAfter(sha, run'.trace[v][..i + 1]))
    {
      assert LockNotOlder(SafetyAfter(sha, run.trace[v][..i]), SafetyAfter(sha, run.trace[v][..i + 1]));
      if v == id {
        EarlierStates(sha, run, id, s, i);
        EarlierStates(sha, run, id, s, i + 1);
      }
    }
  }

  /** In whatever view, a proposal may be handled without a vote exactly if the lock does not fall back. */
  lemma {:induction false} UnvotedStepIsAdmissibleIff(sha: Sha, run: Run, verify: Verifier, id: string, s: Step)
    requires Admissible(sha, run, verify) && id in run.trace && OnlyHandled(sha, run, s)
    ensures Admissible(sha, Handling(run, id, s), verify) <==>
            var now := SafetyAfter(sha, run.trace[id]);
            LockNotOlder(now, AfterPropose(sha, now, s.block, s.store))
  {
    var run' := Handling(run, id, s);
    VotesStay(sha, run, verify, id, s);
    LocksStayIff(sha, run, id, s);
    forall h, k: nat | k >= 1
      ensures !Descends(sha, run', h, h, k)
    {
      if Descends(sha, run', h, h, k) {
        DescendsStill(sha, run, run', h, h, k);
      }
    }
  }

  // ---------------------------------------------------------------- the run

  const AGAIN: nat := 5

  function Parent(i: nat): nat {
    if i <= 1 then 0 else if i == 5 then 0 else i - 1
  }

  /** Steps 0 to 4 handle blocks 0 to 4, step 5 block 2 again, steps 6 to 8 blocks 5 to 7. */
  function Order(s: nat): nat {
    if s < AGAIN then s else if s == AGAIN then 2 else s - 1
  }

  function View(s: nat): nat {
    if s < AGAIN then s + 1 else s
  }

  function Lock(s: nat): Option<nat> {
    if s <= 2 then None else if s == 3 then Some(1) else if s == 4 then Some(2) else if s == 5 then Some(3)
    else if s <= 7 then Some(1) else if s == 8 then Some(5) else Some(6)
  }

  /** The step in which what block i certifies was voted for. */
  function Voting(i: nat): nat {
    if Parent(i) < AGAIN then Parent(i) else Parent(i) + 1
  }

  function Repeated(): Shape {
    Shape(9, i => i, Parent, Parent, i => Parent(i) + 1, Voting, 9, Order, View, s => true, s => s != AGAIN, Lock)
  }

  function Late(): nat -> bool {
    i => i >= 5
  }

  lemma RepeatedStep(s: nat)
    requires s < 9
    ensures HandledAt(Repeated(), s)
  {
  }

  lemma RepeatedBlock(i: nat)
    requires 1 <= i < 9
    ensures PlacedAt(Repeated(), i)
  {
  }

  lemma RepeatedIsWellShaped()
    ensures WellShaped(Repeated()) && VotesInOrder(Repeated()) && VotesOnce(Repeated()) && Separates(Repeated(), Late())
  {
    forall s | 0 <= s < 9
      ensures HandledAt(Repeated(), s)
    {
      RepeatedStep(s);
    }
    forall i | 1 <= i < 9
      ensures PlacedAt(Repeated(), i)
    {
      RepeatedBlock(i);
    }
  }

  lemma LockFalls(w: World, bs: seq<Block>, store: Store)
    requires IsForkRun(w, Repeated(), bs, store)
    ensures !LocksAreMonotone(w.sha, RunOf(w, Repeated(), bs, store))
  {
    var run := RunOf(w, Repeated(), bs, store);
    LockAt(w, Repeated(), bs, store, AGAIN);
    LockAt(w, Repeated(), bs, store, AGAIN + 1);
    assert ChildAt(w, Repeated(), bs, 3) && ChildAt(w, Repeated(), bs, 1);
    assert "P1" == HONEST[0];
    assert "P1" in run.trace && |run.trace["P1"]| == 9;
    var trace := run.trace["P1"];
    assert !LockNotOlder(SafetyAfter(w.sha, trace[..AGAIN]), SafetyAfter(w.sha, trace[..AGAIN + 1]));
  }

  lemma RepeatedChains()
    ensures IsChain(Repeated(), Chain(4, 3, 2, 1)) && IsChain(Repeated(), Chain(8, 7, 6, 5))
    ensures IsConsecutive(Repeated(), Chain(4, 3, 2, 1)) && IsConsecutive(Repeated(), Chain(8, 7, 6, 5))
    ensures Justified(Repeated()) && Stocked(Repeated())
  {
  }

  /** Every hypothesis holds but the one on locks, and two branches are committed. */
  lemma {:induction false} StaleLockBreaksAgreement(w: World, bs: seq<Block>) returns (run: Run)
    requires IsFork(w, Repeated(), bs)
    ensures WellVoted(w.sha, run, w.verify) && NoCycles(w.sha, run) && run.faulty == {"P4"}
    ensures ParentsAreJustified(run) && VotesAreOrdered(run) && VotesAreSingle(w.sha, run) && AncestorsStored(run)
    ensures !LocksAreMonotone(w.sha, run)
    ensures Committed(w.sha, run, bs[1]) && Committed(w.sha, run, bs[5])
    ensures Forked(w.sha, run, bs[1], bs[5])
  {
    RepeatedIsWellShaped();
    RepeatedChains();
    var store: Store;
    run, store := ForkedRun(w, Repeated(), bs, Late(), Chain(4, 3, 2, 1), Chain(8, 7, 6, 5));
    LockFalls(w, bs, store);
  }

  /** Such blocks exist, for any scheme that accepts its own signatures. */
  lemma {:induction false} RepeatedExists(key: nat -> Key, sign: (nat, Hash) -> Bytes, verify: Verifier) returns
      (w: World, bs: seq<Block>)
    requires forall k: nat, h :: k < 3 ==> verify(Some(key(k)), h, sign(k, h))
    ensures w.verify == verify && IsFork(w, Repeated(), bs)
  {
    RepeatedIsWellShaped();
    w, bs := ForkExists(Repeated(), key, sign, verify);
  }
}
