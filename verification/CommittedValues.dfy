/**
 * What agreement on branches means for values. The block hash covers parent hash and height, so agreement fixes
 * headers; it fixes the delivered values exactly when no received block shares a committed header and differs.
 */
module CommittedValues {
  import opened Types
  import opened Encoding
  import opened Committee
  import opened Quorum
  import opened Agreement
  import opened Forks

  ghost predicate SameHeader(b: Block, c: Block) {
    HeaderPreimage(b) == HeaderPreimage(c)
  }

  ghost predicate CommitsAgree(sha: Sha, run: Run) {
    forall b, c :: Committed(sha, run, b) && Committed(sha, run, c) && HashBlock(sha, b) == HashBlock(sha, c) ==> b == c
  }

  /** What a replica could check of the blocks it received. */
  ghost predicate HeadersFixCommits(sha: Sha, run: Run) {
    forall b, c :: Committed(sha, run, b) && c in run.blocks && SameHeader(b, c) ==> b == c
  }

  /** Being committed is a matter of the header. */
  lemma HeaderCommits(sha: Sha, run: Run, b: Block, c: Block)
    requires Committed(sha, run, b) && c in run.blocks && SameHeader(b, c)
    ensures Committed(sha, run, c)
  {
    var b3, b2, b1 :| ThreeChain(sha, run, b3, b2, b1, b) && ConsecutiveViews(b3, b2, b1);
    assert ThreeChain(sha, run, b3, b2, b1, c);
  }

  lemma CommitOfHash(sha: Sha, run: Run, b: Block, c: Block)
    requires IdealDigest(sha, run) && Committed(sha, run, b) && Committed(sha, run, c)
    requires HashBlock(sha, b) == HashBlock(sha, c)
    ensures c in run.blocks && SameHeader(b, c)
  {
    assert b in run.blocks && c in run.blocks;
    assert !Collide(sha, b, c);
  }

  /** Commits of one hash are one value if and only if no other received block has a committed header. */
  lemma {:induction false} ValuesAgreeIffHeadersFixThem(sha: Sha, run: Run)
    requires IdealDigest(sha, run)
    ensures CommitsAgree(sha, run) <==> HeadersFixCommits(sha, run)
  {
    forall b, c | Committed(sha, run, b) && c in run.blocks && SameHeader(b, c)
      ensures Committed(sha, run, c) && HashBlock(sha, b) == HashBlock(sha, c)
    {
      HeaderCommits(sha, run, b, c);
    }
    forall b, c | Committed(sha, run, b) && Committed(sha, run, c) && HashBlock(sha, b) == HashBlock(sha, c)
      ensures c in run.blocks && SameHeader(b, c)
    {
      CommitOfHash(sha, run, b, c);
    }
  }

  // ---------------------------------------------------------------- the batch is not fixed

  function WithBatch(run: Run, b: Block, batch: seq<Request>): Run {
    run.(blocks := run.blocks + {b.(batch := batch)})
  }

  lemma StaysSound(sha: Sha, run: Run, verify: Verifier, b: Block, batch: seq<Request>)
    requires Admissible(sha, run, verify) && b in run.blocks
    ensures IdealDigest(sha, WithBatch(run, b, batch))
    ensures ParentsAreJustified(WithBatch(run, b, batch)) && JustifiesAreValid(WithBatch(run, b, batch), verify)
    ensures Unforgeable(sha, WithBatch(run, b, batch))
  {
    var twin, run' := b.(batch := batch), WithBatch(run, b, batch);
    forall x, y | x in run'.blocks && y in run'.blocks
      ensures !Collide(sha, x, y)
    {
      assert !Collide(sha, if x == twin then b else x, if y == twin then b else y);
    }
    forall x, id | x in run'.blocks && x.justify.Some? && id in x.justify.value.signers && Honest(run', id)
      ensures exists i :: Voted(sha, run', id, i, x.justify.value.view, x.justify.value.blockHash)
    {
      var y := if x == twin then b else x;
      assert Honest(run, id);
      var i :| Voted(sha, run, id, i, y.justify.value.view, y.justify.value.blockHash);
      assert Voted(sha, run', id, i, x.justify.value.view, x.justify.value.blockHash);
    }
  }

  /** The twin's links are the block's. */
  lemma {:induction false} TwinDescends(sha: Sha, run: Run, b: Block, batch: seq<Request>, h: Hash, a: Hash, k: nat)
    requires b in run.blocks && Descends(sha, WithBatch(run, b, batch), h, a, k)
    ensures Descends(sha, run, h, a, k)
    decreases k
  {
    if k > 0 {
      var run' := WithBatch(run, b, batch);
      var c :| c in run'.blocks && c.parentHash == a && Descends(sha, run', h, HashBlock(sha, c), k - 1);
      TwinDescends(sha, run, b, batch, h, HashBlock(sha, c), k - 1);
      var d := if c == b.(batch := batch) then b else c;
      assert d in run.blocks && d.parentHash == a && Descends(sha, run, h, HashBlock(sha, d), k - 1);
    }
  }

  lemma StaysAcyclic(sha: Sha, run: Run, b: Block, batch: seq<Request>)
    requires NoCycles(sha, run) && b in run.blocks
    ensures NoCycles(sha, WithBatch(run, b, batch))
  {
    forall h, k: nat | k >= 1
      ensures !Descends(sha, WithBatch(run, b, batch), h, h, k)
    {
      if Descends(sha, WithBatch(run, b, batch), h, h, k) {
        TwinDescends(sha, run, b, batch, h, h, k);
      }
    }
  }

  lemma {:induction false} StaysAdmissible(sha: Sha, run: Run, verify: Verifier, b: Block, batch: seq<Request>)
    requires Admissible(sha, run, verify) && b in run.blocks
    ensures Admissible(sha, WithBatch(run, b, batch), verify)
  {
    StaysSound(sha, run, verify, b, batch);
    StaysAcyclic(sha, run, b, batch);
  }

  lemma {:induction false} CommitStays(sha: Sha, run: Run, b: Block, batch: seq<Request>)
    requires Committed(sha, run, b)
    ensures b in run.blocks
    ensures Committed(sha, WithBatch(run, b, batch), b) && Committed(sha, WithBatch(run, b, batch), b.(batch := batch))
  {
    var run' := WithBatch(run, b, batch);
    var b3, b2, b1 :| ThreeChain(sha, run, b3, b2, b1, b) && ConsecutiveViews(b3, b2, b1);
    assert ThreeChain(sha, run', b3, b2, b1, b);
    HeaderCommits(sha, run', b, b.(batch := batch));
  }

  /** Proposing a committed block once more with any other batch keeps a run admissible and commits both. */
  lemma {:induction false} BatchIsNotFixed(sha: Sha, run: Run, verify: Verifier, b: Block, batch: seq<Request>)
    requires Admissible(sha, run, verify) && Committed(sha, run, b)
    ensures var run' := WithBatch(run, b, batch);
            Admissible(sha, run', verify) && Committed(sha, run', b) && Committed(sha, run', b.(batch := batch))
  {
    CommitStays(sha, run, b, batch);
    StaysAdmissible(sha, run, verify, b, batch);
  }

  // ---------------------------------------------------------------- one value per height

  /** Heights fit 64 bits and grow along parent links, as `propose` makes them; a replica does not check this. */
  ghost predicate HeightsGrow(sha: Sha, run: Run) {
    && (forall b :: b in run.blocks ==> b.height < MAX64)
    && (forall b, c :: b in run.blocks && c in run.blocks && c.parentHash == HashBlock(sha, b) ==> b.height < c.height)
  }

  lemma {:induction false} DescendantsAreHigher(sha: Sha, run: Run, b: Block, c: Block, k: nat)
    requires IdealDigest(sha, run) && HeightsGrow(sha, run) && b in run.blocks && c in run.blocks
    requires k >= 1 && Descends(sha, run, HashBlock(sha, c), HashBlock(sha, b), k)
    ensures b.height < c.height
    decreases k
  {
    var h := HashBlock(sha, c);
    var d :|
      d in run.blocks && d.parentHash == HashBlock(sha, b) && Descends(sha, run, h, HashBlock(sha, d), k - 1);
    if k == 1 {
      EqualHashesEqualHeaders(sha, run.blocks, c, d);
    } else {
      DescendantsAreHigher(sha, run, d, c, k - 1);
    }
  }

  /** Where heights grow there is no cycle. */
  lemma GrowingHeightsHaveNoCycles(sha: Sha, run: Run)
    requires IdealDigest(sha, run) && HeightsGrow(sha, run)
    ensures NoCycles(sha, run)
  {
    forall h, k: nat | k >= 1
      ensures !Descends(sha, run, h, h, k)
    {
      if Descends(sha, run, h, h, k) {
        var b := TopIsBlock(sha, run, h, h, k);
        DescendantsAreHigher(sha, run, b, b, k);
      }
    }
  }

  lemma BranchFixesHeight(sha: Sha, run: Run, b: Block, c: Block)
    requires IdealDigest(sha, run) && HeightsGrow(sha, run) && b in run.blocks && c in run.blocks
    requires OnBranch(sha, run, HashBlock(sha, c), HashBlock(sha, b)) && b.height == c.height
    ensures HashBlock(sha, b) == HashBlock(sha, c)
  {
    var k: nat :| Descends(sha, run, HashBlock(sha, c), HashBlock(sha, b), k);
    if k > 0 {
      DescendantsAreHigher(sha, run, b, c, k);
    }
  }

  /** Theorem 10: at one height only one value is committed. */
  lemma {:induction false} OneValuePerHeight(sha: Sha, run: Run, verify: Verifier, b: Block, c: Block)
    requires Admissible(sha, run, verify) && HeightsGrow(sha, run) && HeadersFixCommits(sha, run)
    requires Committed(sha, run, b) && Committed(sha, run, c) && b.height == c.height
    ensures b == c
  {
    Agreement.Agreement(sha, run, verify, b, c);
    if OnBranch(sha, run, HashBlock(sha, c), HashBlock(sha, b)) {
      BranchFixesHeight(sha, run, b, c);
    } else {
      BranchFixesHeight(sha, run, c, b);
    }
    ValuesAgreeIffHeadersFixThem(sha, run);
  }

  // ---------------------------------------------------------------- runs that meet the premises

  function Before(i: nat): nat {
    if i == 0 then 0 else i - 1
  }

  /** Nine blocks in one line. */
  function Line(): Shape {
    InOrder(8, Before, Before, i => if i <= 2 then None else Some(i - 2))
  }

  lemma LineIsWellShaped()
    ensures WellShaped(Line()) && Climbs(Line()) && VotesInOrder(Line()) && VotesOnce(Line())
  {
    forall s | 0 <= s < 8
      ensures HandledAt(Line(), s) && ClimbsAt(Line(), s)
    {
    }
  }

  /** Such blocks exist, for any scheme that accepts its own signatures. */
  lemma {:induction false} LinesExist(key: nat -> Key, sign: (nat, Hash) -> Bytes, verify: Verifier) returns
      (w: World, bs: seq<Block>)
    requires forall k: nat, h :: k < 3 ==> verify(Some(key(k)), h, sign(k, h))
    ensures w.verify == verify && IsFork(w, Line(), bs)
  {
    LineIsWellShaped();
    w, bs := ForkExists(Line(), key, sign, verify);
  }

  lemma {:induction false} LineIsAdmissible(w: World, bs: seq<Block>) returns (run: Run)
    requires IsFork(w, Line(), bs)
    ensures Admissible(w.sha, run, w.verify) && run.blocks == Elements(bs)
    ensures Committed(w.sha, run, bs[1])
  {
    LineIsWellShaped();
    var store := MakeRun(w, Line(), bs);
    run := RunOf(w, Line(), bs, store);
    HypothesesHold(w, Line(), bs, store);
    ChainAt(w, Line(), bs, run, Chain(4, 3, 2, 1));
  }

  /** Two batches committed at one height, for any ideal digest and any nine blocks in a line. */
  lemma {:induction false} TwoBatchesCommitted(w: World, bs: seq<Block>, batch: seq<Request>) returns (run: Run)
    requires IsFork(w, Line(), bs)
    ensures Admissible(w.sha, run, w.verify)
    ensures Committed(w.sha, run, bs[1]) && Committed(w.sha, run, bs[1].(batch := batch))
  {
    var line := LineIsAdmissible(w, bs);
    BatchIsNotFixed(w.sha, line, w.verify, bs[1], batch);
    run := WithBatch(line, bs[1], batch);
  }

  lemma HeightAbove(w: World, bs: seq<Block>, b: Block, c: Block)
    requires IsFork(w, Line(), bs) && b in bs && c in bs && c.parentHash == HashBlock(w.sha, b)
    ensures b.height < c.height
  {
    var i :| 0 <= i < 9 && bs[i] == b;
    var m := ChildOf(w, Line(), bs, c, i);
    assert HeightAt(Line(), bs, i) && HeightAt(Line(), bs, m);
  }

  lemma HeaderIsBlock(w: World, bs: seq<Block>, b: Block, c: Block)
    requires IsFork(w, Line(), bs) && b in bs && c in bs && SameHeader(b, c)
    ensures b == c
  {
    var i :| 0 <= i < 9 && bs[i] == b;
    var j :| 0 <= j < 9 && bs[j] == c;
    HashIsHeader(w, Line(), bs, i, j);
  }

  /** Where nobody proposes a header twice, every premise of `OneValuePerHeight` holds. */
  lemma {:induction false} LineHasOneValuePerHeight(w: World, bs: seq<Block>, run: Run)
    requires IsFork(w, Line(), bs) && run.blocks == Elements(bs)
    ensures HeightsGrow(w.sha, run) && HeadersFixCommits(w.sha, run)
  {
    forall b | b in bs
      ensures b.height < MAX64
    {
      var i :| 0 <= i < 9 && bs[i] == b;
      HeightsFit(w, Line(), bs, i);
    }
    forall b, c | b in bs && c in bs && c.parentHash == HashBlock(w.sha, b)
      ensures b.height < c.height
    {
      HeightAbove(w, bs, b, c);
    }
    forall b, c | b in bs && c in bs && SameHeader(b, c)
      ensures b == c
    {
      HeaderIsBlock(w, bs, b, c);
    }
    assert forall b :: Committed(w.sha, run, b) ==> b in run.blocks;
  }
}
