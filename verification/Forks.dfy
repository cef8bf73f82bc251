/**
 * Runs over a few blocks in which three honest members handle some of them in a given order, built from a table of
 * parents and certificates. P4 is faulty and proposes what no honest replica would.
 */
module Forks {
  import opened Types
  import opened Encoding
  import opened Committee
  import opened Quorum
  import opened Ancestry
  import opened Safety
  import opened Agreement

  /** A digest, and a signature scheme: the key of P(k + 1), what it signs a hash with, and the verifier. */
  datatype World = World(sha: Sha, key: nat -> Key, sign: (nat, Hash) -> Bytes, verify: Verifier)

  /**
   * Block i has the header of block `header(i)`, block `parent(i)` as parent, and certifies block `cert(i)` in view
   * `certView(i)`, for which everyone voted in step `voting(i)`. Step s handles block `order(s)` in view `view(s)`,
   * with all blocks in store or none as `stocked(s)` says, and votes for it if `votes(s)`. After s steps the lock is
   * the justify of block `lock(s)`.
   */
  datatype Shape = Shape(
    count: nat,
    header: nat -> nat,
    parent: nat -> nat,
    cert: nat -> nat,
    certView: nat -> nat,
    voting: nat -> nat,
    steps: nat,
    order: nat -> nat,
    view: nat -> nat,
    stocked: nat -> bool,
    votes: nat -> bool,
    lock: nat -> Option<nat>)

  /** Nine blocks with nine headers, the first so many handled in order, with a vote for each in the next view. */
  function InOrder(steps: nat, parent: nat -> nat, cert: nat -> nat, lock: nat -> Option<nat>): Shape {
    Shape(9, i => i, parent, cert, i => cert(i) + 1, cert, steps, s => s, s => s + 1, s => true, s => true, lock)
  }

  /** Handling block i meets the two-chain rule. */
  predicate Relocks(f: Shape, i: nat) {
    i > 0 && f.cert(i) > 0 && f.parent(i) == f.cert(i) && f.parent(f.cert(i)) == f.cert(f.cert(i))
  }

  function LockAfter(f: Shape, s: nat): Option<nat> {
    if f.stocked(s) && Relocks(f, f.order(s)) then Some(f.cert(f.order(s))) else f.lock(s)
  }

  /** Blocks of one header have one parent, and links lead down to the first block of a header. */
  predicate LinkedAt(f: Shape, i: nat) {
    && 0 < f.header(i) <= i && f.header(f.header(i)) == f.header(i) && f.parent(f.header(i)) == f.parent(i)
    && f.parent(i) < i && f.header(f.parent(i)) == f.parent(i)
    && f.cert(i) < i && f.header(f.cert(i)) == f.cert(i)
  }

  /** What is certified has been voted for. */
  predicate PlacedAt(f: Shape, i: nat) {
    && LinkedAt(f, i)
    && f.voting(i) < f.steps && f.votes(f.voting(i))
    && f.order(f.voting(i)) == f.cert(i) && f.view(f.voting(i)) == f.certView(i)
  }

  /** A vote is safe under the lock, which moves by the two-chain rule. */
  predicate HandledAt(f: Shape, s: nat) {
    && f.order(s) < f.count
    && (f.votes(s) && f.order(s) > 0 ==> f.certView(f.order(s)) < f.view(s))
    && f.lock(s + 1) == LockAfter(f, s)
    && (f.lock(s).Some? ==>
          var k := f.lock(s).value;
          && 0 < k < f.count
          && (f.votes(s) ==>
                f.order(s) > 0 && (f.certView(f.order(s)) > f.certView(k) || f.parent(f.order(s)) == f.cert(k))))
  }

  ghost predicate WellShaped(f: Shape) {
    && 0 < f.count < MAX64
    && f.header(0) == 0
    && f.lock(0) == None
    && (forall i {:trigger PlacedAt(f, i)} :: 1 <= i < f.count ==> PlacedAt(f, i))
    && (forall s {:trigger HandledAt(f, s)} :: 0 <= s < f.steps ==> HandledAt(f, s))
  }

  /** The lock does not go back in step s. */
  predicate ClimbsAt(f: Shape, s: nat) {
    f.lock(s).Some? ==> f.lock(s + 1).Some? && f.certView(f.lock(s).value) <= f.certView(f.lock(s + 1).value)
  }

  ghost predicate Climbs(f: Shape) {
    forall s {:trigger ClimbsAt(f, s)} :: 0 <= s < f.steps ==> ClimbsAt(f, s)
  }

  predicate OrderedAt(f: Shape, s: nat, t: nat) {
    f.votes(s) && f.votes(t) ==> f.view(s) < f.view(t)
  }

  /** Votes are cast in growing views. */
  ghost predicate VotesInOrder(f: Shape) {
    forall s, t {:trigger OrderedAt(f, s, t)} :: 0 <= s < t < f.steps ==> OrderedAt(f, s, t)
  }

  predicate SingleAt(f: Shape, s: nat, t: nat) {
    f.votes(s) && f.votes(t) ==> f.header(f.order(s)) != f.header(f.order(t))
  }

  /** No header is voted for in two steps. */
  ghost predicate VotesOnce(f: Shape) {
    forall s, t {:trigger SingleAt(f, s, t)} :: 0 <= s < t < f.steps ==> SingleAt(f, s, t)
  }

  /** Every block's parent is the block it certifies. */
  ghost predicate Justified(f: Shape) {
    forall i :: 1 <= i < f.count ==> f.parent(i) == f.cert(i)
  }

  ghost predicate Stocked(f: Shape) {
    forall s :: 0 <= s < f.steps && f.votes(s) ==> f.stocked(s)
  }

  const HONEST: seq<string> := ["P1", "P2", "P3"]

  function Replicas(w: World): seq<Replica> {
    [Replica("P1", "", Some(w.key(0))), Replica("P2", "", Some(w.key(1))), Replica("P3", "", Some(w.key(2))),
     Replica("P4", "", Some(w.key(3)))]
  }

  function CertOf(w: World, b: Block, view: nat): QuorumCert {
    var h := HashBlock(w.sha, b);
    QuorumCert(view, 0, h, [w.sign(0, h), w.sign(1, h), w.sign(2, h)], HONEST)
  }

  /** The three signatures on a block's hash verify. */
  ghost predicate SignedAt(w: World, b: Block) {
    var h := HashBlock(w.sha, b);
    && w.verify(Some(w.key(0)), h, w.sign(0, h))
    && w.verify(Some(w.key(1)), h, w.sign(1, h))
    && w.verify(Some(w.key(2)), h, w.sign(2, h))
  }

  ghost predicate ChildAt(w: World, f: Shape, bs: seq<Block>, i: nat)
    requires 1 <= i < |bs|
  {
    && PlacedAt(f, i)
    && bs[i].parentHash == HashBlock(w.sha, bs[f.parent(i)])
    && bs[i].justify == Some(CertOf(w, bs[f.cert(i)], f.certView(i)))
  }

  predicate HeightAt(f: Shape, bs: seq<Block>, i: nat)
    requires i < |bs|
  {
    bs[i].height == f.header(i) + 1
  }

  ghost predicate IsFork(w: World, f: Shape, bs: seq<Block>) {
    && WellShaped(f)
    && |bs| == f.count
    && (forall i {:trigger HeightAt(f, bs, i)} :: 0 <= i < f.count ==> HeightAt(f, bs, i))
    && bs[0].parentHash == [] && bs[0].justify == None
    && (forall i {:trigger ChildAt(w, f, bs, i)} :: 1 <= i < f.count ==> ChildAt(w, f, bs, i))
    && (forall i {:trigger SignedAt(w, bs[i])} :: 0 <= i < f.count ==> SignedAt(w, bs[i]))
    && CollisionFree(w.sha, Elements(bs))
    && forall x :: w.sha(x) != []
  }

  lemma HeightsFit(w: World, f: Shape, bs: seq<Block>, i: nat)
    requires IsFork(w, f, bs) && i < f.count
    ensures bs[i].height < MAX64
  {
    assert HeightAt(f, bs, i) && (i > 0 ==> ChildAt(w, f, bs, i));
  }

  lemma HashOfHeader(w: World, f: Shape, bs: seq<Block>, i: nat)
    requires IsFork(w, f, bs) && i < f.count
    ensures f.header(i) < f.count && HashBlock(w.sha, bs[i]) == HashBlock(w.sha, bs[f.header(i)])
  {
    if i > 0 {
      assert ChildAt(w, f, bs, i) && ChildAt(w, f, bs, f.header(i));
      assert HeightAt(f, bs, i) && HeightAt(f, bs, f.header(i));
    }
  }

  /** Two blocks have one hash if and only if they have one header. */
  lemma HashIsHeader(w: World, f: Shape, bs: seq<Block>, i: nat, j: nat)
    requires IsFork(w, f, bs) && i < f.count && j < f.count
    ensures HashBlock(w.sha, bs[i]) == HashBlock(w.sha, bs[j]) <==> f.header(i) == f.header(j)
  {
    assert HeightAt(f, bs, i) && HeightAt(f, bs, j);
    if HashBlock(w.sha, bs[i]) == HashBlock(w.sha, bs[j]) {
      HeightsFit(w, f, bs, i);
      HeightsFit(w, f, bs, j);
      EqualHashesEqualHeaders(w.sha, Elements(bs), bs[i], bs[j]);
    }
    HashOfHeader(w, f, bs, i);
    HashOfHeader(w, f, bs, j);
  }

  // ---------------------------------------------------------------- such blocks exist

  lemma {:induction false} BuildFork(w: World, f: Shape, n: nat) returns (bs: seq<Block>)
    requires WellShaped(f) && 1 <= n <= f.count
    ensures |bs| == n && bs[0] == Block([], [], None, 1, 0)
    ensures forall i {:trigger HeightAt(f, bs, i)} :: 0 <= i < n ==> HeightAt(f, bs, i)
    ensures forall i {:trigger ChildAt(w, f, bs, i)} :: 1 <= i < n ==> ChildAt(w, f, bs, i)
  {
    if n == 1 {
      bs := [Block([], [], None, 1, 0)];
    } else {
      var init := BuildFork(w, f, n - 1);
      assert PlacedAt(f, n - 1);
      var justify := CertOf(w, init[f.cert(n - 1)], f.certView(n - 1));
      bs := init + [Block(HashBlock(w.sha, init[f.parent(n - 1)]), [], Some(justify), f.header(n - 1) + 1, 0)];
      forall i | 0 <= i < n - 1
        ensures HeightAt(f, bs, i) && (i > 0 ==> ChildAt(w, f, bs, i))
      {
        assert HeightAt(f, init, i) && (i > 0 ==> ChildAt(w, f, init, i));
      }
    }
  }

  /** For any scheme that accepts its own signatures, and for instance the digest that only marks its input. */
  lemma ForkExists(f: Shape, key: nat -> Key, sign: (nat, Hash) -> Bytes, verify: Verifier) returns
      (w: World, bs: seq<Block>)
    requires WellShaped(f)
    requires forall k: nat, h :: k < 3 ==> verify(Some(key(k)), h, sign(k, h))
    ensures w.key == key && w.sign == sign && w.verify == verify && IsFork(w, f, bs)
  {
    w := World((x: Bytes) => [1] + x, key, sign, verify);
    bs := BuildFork(w, f, f.count);
    forall i | 0 <= i < f.count
      ensures bs[i].height < MAX64
    {
      assert HeightAt(f, bs, i) && (i > 0 ==> PlacedAt(f, i));
    }
    forall b, c | b in bs && c in bs
      ensures !Collide(w.sha, b, c)
    {
      var p, q := HeaderPreimage(b), HeaderPreimage(c);
      assert ([1] + p)[1..] == p && ([1] + q)[1..] == q;
    }
  }

  /** The store holds block i if it is the first of its header. */
  ghost predicate Keeps(sha: Sha, f: Shape, bs: seq<Block>, store: Store, i: nat)
    requires i < |bs|
  {
    f.header(i) == i ==> HashBlock(sha, bs[i]) in store && store[HashBlock(sha, bs[i])] == bs[i]
  }

  /** The store holds the first block of every header among the first n. */
  ghost predicate IsForkStore(sha: Sha, f: Shape, bs: seq<Block>, store: Store, n: nat)
    requires n <= |bs|
  {
    && (forall h :: h in store ==> store[h] in bs && HashBlock(sha, store[h]) == h)
    && (forall i {:trigger Keeps(sha, f, bs, store, i)} :: 0 <= i < n ==> Keeps(sha, f, bs, store, i))
  }

  lemma StoreNext(w: World, f: Shape, bs: seq<Block>, n: nat, store: Store)
    requires IsFork(w, f, bs) && n < f.count && f.header(n) == n && IsForkStore(w.sha, f, bs, store, n)
    ensures IsForkStore(w.sha, f, bs, store[HashBlock(w.sha, bs[n]) := bs[n]], n + 1)
  {
    var store' := store[HashBlock(w.sha, bs[n]) := bs[n]];
    forall i | 0 <= i < n
      ensures Keeps(w.sha, f, bs, store', i)
    {
      HashIsHeader(w, f, bs, i, n);
      assert Keeps(w.sha, f, bs, store, i);
    }
  }

  lemma MakeStore(w: World, f: Shape, bs: seq<Block>) returns (store: Store)
    requires IsFork(w, f, bs)
    ensures IsForkStore(w.sha, f, bs, store, f.count)
  {
    store := map[];
    for n := 0 to f.count
      invariant IsForkStore(w.sha, f, bs, store, n)
    {
      if f.header(n) == n {
        StoreNext(w, f, bs, n, store);
        store := store[HashBlock(w.sha, bs[n]) := bs[n]];
      }
    }
  }

  // ---------------------------------------------------------------- the run

  function StoreAt(f: Shape, store: Store, s: nat): Store {
    if f.stocked(s) then store else map[]
  }

  function StepsOf(f: Shape, bs: seq<Block>, store: Store): seq<Step>
    requires forall s :: 0 <= s < f.steps ==> f.order(s) < |bs|
  {
    seq(f.steps, s requires 0 <= s < f.steps => Step(f.view(s), bs[f.order(s)], StoreAt(f, store, s), f.votes(s)))
  }

  /** A fork with a store of its blocks; every member works from that store. */
  ghost predicate IsForkRun(w: World, f: Shape, bs: seq<Block>, store: Store) {
    && IsFork(w, f, bs) && IsForkStore(w.sha, f, bs, store, f.count)
    && forall s :: 0 <= s < f.steps ==> f.order(s) < f.count
  }

  function RunOf(w: World, f: Shape, bs: seq<Block>, store: Store): Run
    requires forall s :: 0 <= s < f.steps ==> f.order(s) < |bs|
  {
    Run(NewCommittee(0, Replicas(w)), {"P4"}, Elements(bs), map id | id in HONEST :: StepsOf(f, bs, store))
  }

  lemma MakeRun(w: World, f: Shape, bs: seq<Block>) returns (store: Store)
    requires IsFork(w, f, bs)
    ensures IsForkRun(w, f, bs, store)
  {
    store := MakeStore(w, f, bs);
    forall s | 0 <= s < f.steps
      ensures f.order(s) < f.count
    {
      assert HandledAt(f, s);
    }
  }

  lemma CertifiedIsCert(w: World, f: Shape, bs: seq<Block>, store: Store, i: nat)
    requires IsForkRun(w, f, bs, store) && i < f.count
    ensures i > 0 ==> f.cert(i) < f.count
    ensures Certified(store, bs[i]) == if i == 0 then None else Some(bs[f.cert(i)])
  {
    if i > 0 {
      assert ChildAt(w, f, bs, i) && Keeps(w.sha, f, bs, store, f.cert(i));
    }
  }

  /** The table's rule is the code's. */
  lemma LockAfterStep(w: World, f: Shape, bs: seq<Block>, store: Store, v: SafetyVars, i: nat)
    requires IsForkRun(w, f, bs, store) && i < f.count
    ensures Relocks(f, i) ==> f.cert(i) < f.count
    ensures AfterPropose(w.sha, v, bs[i], store).lockedQC ==
            if Relocks(f, i) then bs[f.cert(i)].justify else v.lockedQC
  {
    CertifiedIsCert(w, f, bs, store, i);
    if i > 0 {
      assert ChildAt(w, f, bs, i);
      var c := f.cert(i);
      CertifiedIsCert(w, f, bs, store, c);
      HashIsHeader(w, f, bs, f.parent(i), c);
      if c > 0 {
        assert ChildAt(w, f, bs, c);
        HashIsHeader(w, f, bs, f.parent(c), f.cert(c));
      }
    }
  }

  /** The lock as the table has it. */
  ghost predicate LockIs(bs: seq<Block>, lock: Option<QuorumCert>, at: Option<nat>) {
    match at
    case None => lock == None
    case Some(k) => 0 < k < |bs| && bs[k].justify.Some? && lock == bs[k].justify
  }

  lemma LockNext(w: World, f: Shape, bs: seq<Block>, store: Store, v: SafetyVars, s: nat)
    requires IsForkRun(w, f, bs, store) && s < f.steps && LockIs(bs, v.lockedQC, f.lock(s))
    ensures LockIs(bs, AfterPropose(w.sha, v, bs[f.order(s)], StoreAt(f, store, s)).lockedQC, f.lock(s + 1))
  {
    assert HandledAt(f, s);
    LockAfterStep(w, f, bs, store, v, f.order(s));
    if LockAfter(f, s) != f.lock(s) {
      assert ChildAt(w, f, bs, f.cert(f.order(s)));
    }
  }

  lemma {:induction false} StateNext(sha: Sha, steps: seq<Step>, s: nat)
    requires s < |steps|
    ensures SafetyAfter(sha, steps[..s + 1]) ==
            AfterPropose(sha, SafetyAfter(sha, steps[..s]), steps[s].block, steps[s].store)
  {
    assert steps[..s + 1][..s] == steps[..s];
  }

  lemma {:induction false} LockAt(w: World, f: Shape, bs: seq<Block>, store: Store, s: nat)
    requires IsForkRun(w, f, bs, store) && s <= f.steps
    ensures LockIs(bs, SafetyAfter(w.sha, StepsOf(f, bs, store)[..s]).lockedQC, f.lock(s))
  {
    var steps := StepsOf(f, bs, store);
    for t := 0 to s
      invariant LockIs(bs, SafetyAfter(w.sha, steps[..t]).lockedQC, f.lock(t))
    {
      StateNext(w.sha, steps, t);
      LockNext(w, f, bs, store, SafetyAfter(w.sha, steps[..t]), t);
    }
  }

  lemma VoteIsSafe(w: World, f: Shape, bs: seq<Block>, store: Store, s: nat)
    requires IsForkRun(w, f, bs, store) && s < f.steps && f.votes(s)
    ensures var b := bs[f.order(s)];
            SafeNode(SafetyAfter(w.sha, StepsOf(f, bs, store)[..s]), b, b.justify, StoreAt(f, store, s))
  {
    LockAt(w, f, bs, store, s);
    assert HandledAt(f, s);
    if f.lock(s).Some? {
      var b := bs[f.order(s)];
      assert ChildAt(w, f, bs, f.order(s)) && ChildAt(w, f, bs, f.lock(s).value);
      assert Hop(StoreAt(f, store, s), b.parentHash, 0) == Some(b.parentHash);
    }
  }

  // ---------------------------------------------------------------- the hypotheses hold

  lemma CertIsValid(w: World, b: Block, view: nat)
    requires SignedAt(w, b)
    ensures ValidQC(CertOf(w, b, view), NewCommittee(0, Replicas(w)), w.verify)
  {
    var qc := CertOf(w, b, view);
    MembersAre(w);
    forall k | 0 <= k < 3
      ensures Find(Replicas(w), qc.signers[k]) == Some(Replicas(w)[k])
    {
      FindMember(w, k);
    }
  }

  lemma MembersAre(w: World)
    ensures Ids(Replicas(w)) == HONEST + ["P4"]
    ensures Distinct(Ids(Replicas(w))) && Distinct(HONEST)
  {
    assert "P1"[1] != "P2"[1] && "P1"[1] != "P3"[1] && "P1"[1] != "P4"[1];
    assert "P2"[1] != "P3"[1] && "P2"[1] != "P4"[1] && "P3"[1] != "P4"[1];
  }

  lemma {:induction false} FindMember(w: World, k: nat)
    requires k < 3
    ensures Find(Replicas(w), HONEST[k]) == Some(Replicas(w)[k])
  {
    MembersAre(w);
    assert Ids(Replicas(w))[k] == HONEST[k];
    FindDistinct(Replicas(w), k);
  }

  lemma JustifyHolds(w: World, f: Shape, bs: seq<Block>, i: nat)
    requires IsFork(w, f, bs) && i < f.count && bs[i].justify.Some?
    ensures ValidQC(bs[i].justify.value, NewCommittee(0, Replicas(w)), w.verify)
  {
    assert ChildAt(w, f, bs, i) && SignedAt(w, bs[f.cert(i)]);
    CertIsValid(w, bs[f.cert(i)], f.certView(i));
  }

  lemma JustifiesHold(w: World, f: Shape, bs: seq<Block>, store: Store)
    requires IsForkRun(w, f, bs, store)
    ensures JustifiesAreValid(RunOf(w, f, bs, store), w.verify)
  {
    forall b | b in bs && b.justify.Some?
      ensures ValidQC(b.justify.value, NewCommittee(0, Replicas(w)), w.verify)
    {
      var i :| 0 <= i < |bs| && bs[i] == b;
      JustifyHolds(w, f, bs, i);
    }
  }

  /** The certificate block k carries was voted for by every honest member. */
  lemma VotedFor(w: World, f: Shape, bs: seq<Block>, store: Store, id: string, k: nat) returns (s: nat)
    requires IsForkRun(w, f, bs, store) && id in HONEST && k < f.count && bs[k].justify.Some?
    ensures var qc := bs[k].justify.value;
            Voted(w.sha, RunOf(w, f, bs, store), id, s, qc.view, qc.blockHash) && qc.signers == HONEST
  {
    assert ChildAt(w, f, bs, k);
    s := f.voting(k);
  }

  lemma SignersVoted(w: World, f: Shape, bs: seq<Block>, store: Store)
    requires IsForkRun(w, f, bs, store)
    ensures Unforgeable(w.sha, RunOf(w, f, bs, store))
  {
    var run := RunOf(w, f, bs, store);
    forall b, id | b in run.blocks && b.justify.Some? && id in b.justify.value.signers && Honest(run, id)
      ensures exists i :: Voted(w.sha, run, id, i, b.justify.value.view, b.justify.value.blockHash)
    {
      var k :| 0 <= k < f.count && bs[k] == b;
      var s := VotedFor(w, f, bs, store, id, k);
    }
  }

  lemma VotesStaySafe(w: World, f: Shape, bs: seq<Block>, store: Store)
    requires IsForkRun(w, f, bs, store)
    ensures VotesAreSafe(w.sha, RunOf(w, f, bs, store))
  {
    var steps := StepsOf(f, bs, store);
    forall s | 0 <= s < |steps| && steps[s].voted
      ensures SafeNode(SafetyAfter(w.sha, steps[..s]), steps[s].block, steps[s].block.justify, steps[s].store)
    {
      VoteIsSafe(w, f, bs, store, s);
    }
  }

  lemma VotesAreLater(w: World, f: Shape, bs: seq<Block>, store: Store)
    requires IsForkRun(w, f, bs, store)
    ensures ViewsGrow(RunOf(w, f, bs, store))
  {
    forall s | 0 <= s < f.steps && f.votes(s) && bs[f.order(s)].justify.Some?
      ensures bs[f.order(s)].justify.value.view < f.view(s)
    {
      assert HandledAt(f, s) && ChildAt(w, f, bs, f.order(s));
    }
  }

  lemma RunIsWellVoted(w: World, f: Shape, bs: seq<Block>, store: Store)
    requires IsForkRun(w, f, bs, store)
    ensures WellVoted(w.sha, RunOf(w, f, bs, store), w.verify)
  {
    JustifiesHold(w, f, bs, store);
    SignersVoted(w, f, bs, store);
    VotesStaySafe(w, f, bs, store);
    MembersAre(w);
  }

  // ---------------------------------------------------------------- those that a table may break

  lemma VotesClimb(w: World, f: Shape, bs: seq<Block>, store: Store)
    requires IsForkRun(w, f, bs, store) && VotesInOrder(f)
    ensures VotesAreOrdered(RunOf(w, f, bs, store))
  {
    var steps := StepsOf(f, bs, store);
    forall s, t | 0 <= s < t < |steps| && steps[s].voted && steps[t].voted
      ensures steps[s].view < steps[t].view
    {
      assert OrderedAt(f, s, t);
    }
  }

  lemma VotesAreOnce(w: World, f: Shape, bs: seq<Block>, store: Store)
    requires IsForkRun(w, f, bs, store) && VotesOnce(f)
    ensures VotesAreSingle(w.sha, RunOf(w, f, bs, store))
  {
    var steps := StepsOf(f, bs, store);
    forall s, t | 0 <= s < t < |steps| && steps[s].voted && steps[t].voted
      ensures HashBlock(w.sha, steps[s].block) != HashBlock(w.sha, steps[t].block)
    {
      assert SingleAt(f, s, t);
      HashIsHeader(w, f, bs, f.order(s), f.order(t));
    }
  }

  lemma AncestorsAt(w: World, f: Shape, bs: seq<Block>, store: Store, s: nat)
    requires IsForkRun(w, f, bs, store) && s < f.steps && f.stocked(s)
    ensures StoredAt(StepsOf(f, bs, store)[s])
  {
    CertifiedIsCert(w, f, bs, store, f.order(s));
    if f.order(s) > 0 {
      CertifiedIsCert(w, f, bs, store, f.cert(f.order(s)));
    }
  }

  lemma VotersAreStocked(w: World, f: Shape, bs: seq<Block>, store: Store)
    requires IsForkRun(w, f, bs, store) && Stocked(f)
    ensures AncestorsStored(RunOf(w, f, bs, store))
  {
    forall s | 0 <= s < f.steps && f.votes(s)
      ensures StoredAt(StepsOf(f, bs, store)[s])
    {
      AncestorsAt(w, f, bs, store, s);
    }
  }

  lemma LockClimbs(w: World, f: Shape, bs: seq<Block>, store: Store, s: nat)
    requires IsForkRun(w, f, bs, store) && Climbs(f) && s < f.steps
    ensures LockNotOlder(SafetyAfter(w.sha, StepsOf(f, bs, store)[..s]),
                         SafetyAfter(w.sha, StepsOf(f, bs, store)[..s + 1]))
  {
    LockAt(w, f, bs, store, s);
    LockAt(w, f, bs, store, s + 1);
    assert ClimbsAt(f, s);
    if f.lock(s).Some? {
      assert ChildAt(w, f, bs, f.lock(s).value) && ChildAt(w, f, bs, f.lock(s + 1).value);
    }
  }

  lemma LocksClimb(w: World, f: Shape, bs: seq<Block>, store: Store)
    requires IsForkRun(w, f, bs, store) && Climbs(f)
    ensures LocksAreMonotone(w.sha, RunOf(w, f, bs, store))
  {
    var steps := StepsOf(f, bs, store);
    forall s | 0 <= s < |steps|
      ensures LockNotOlder(SafetyAfter(w.sha, steps[..s]), SafetyAfter(w.sha, steps[..s + 1]))
    {
      LockClimbs(w, f, bs, store, s);
    }
  }

  /** Blocks whose parent is the one they certify have the honest shape. */
  lemma HonestShapeAt(w: World, f: Shape, bs: seq<Block>, i: nat)
    requires IsFork(w, f, bs) && i < f.count && (i > 0 ==> f.parent(i) == f.cert(i))
    ensures ParentIsJustified(bs[i])
  {
    assert i > 0 ==> ChildAt(w, f, bs, i);
  }

  lemma AllHaveHonestShape(w: World, f: Shape, bs: seq<Block>, store: Store)
    requires IsForkRun(w, f, bs, store) && Justified(f)
    ensures ParentsAreJustified(RunOf(w, f, bs, store))
  {
    forall b | b in bs
      ensures ParentIsJustified(b)
    {
      var i :| 0 <= i < f.count && bs[i] == b;
      HonestShapeAt(w, f, bs, i);
    }
  }

  lemma ChildOf(w: World, f: Shape, bs: seq<Block>, b: Block, i: nat) returns (m: nat)
    requires IsFork(w, f, bs) && i < f.count && b in bs && b.parentHash == HashBlock(w.sha, bs[i])
    ensures 1 <= m < f.count && bs[m] == b && f.parent(m) == f.header(i)
  {
    m :| 0 <= m < f.count && bs[m] == b;
    assert m > 0;
    assert ChildAt(w, f, bs, m);
    HashIsHeader(w, f, bs, f.parent(m), i);
  }

  lemma ChildIsHigher(f: Shape, m: nat)
    requires WellShaped(f) && 1 <= m < f.count
    ensures f.parent(m) < f.header(m)
  {
    assert PlacedAt(f, m) && PlacedAt(f, f.header(m));
  }

  /** Headers are numbered upwards along a branch. */
  lemma {:induction false} DescentClimbs(w: World, f: Shape, bs: seq<Block>, run: Run, j: nat, i: nat, k: nat)
    requires IsFork(w, f, bs) && run.blocks == Elements(bs) && j < f.count && i < f.count && k >= 1
    requires Descends(w.sha, run, HashBlock(w.sha, bs[j]), HashBlock(w.sha, bs[i]), k)
    ensures f.header(i) < f.header(j)
    decreases k
  {
    var h, a := HashBlock(w.sha, bs[j]), HashBlock(w.sha, bs[i]);
    var b :| b in run.blocks && b.parentHash == a && Descends(w.sha, run, h, HashBlock(w.sha, b), k - 1);
    var m := ChildOf(w, f, bs, b, i);
    ChildIsHigher(f, m);
    if k == 1 {
      HashIsHeader(w, f, bs, j, m);
    } else {
      DescentClimbs(w, f, bs, run, j, m, k - 1);
    }
  }

  lemma NothingCycles(w: World, f: Shape, bs: seq<Block>, run: Run)
    requires IsFork(w, f, bs) && run.blocks == Elements(bs)
    ensures NoCycles(w.sha, run)
  {
    forall h, k: nat | k >= 1
      ensures !Descends(w.sha, run, h, h, k)
    {
      if Descends(w.sha, run, h, h, k) {
        var b := TopIsBlock(w.sha, run, h, h, k);
        var i :| 0 <= i < |bs| && bs[i] == b;
        DescentClimbs(w, f, bs, run, i, i, k);
      }
    }
  }

  /** Every hypothesis that the table respects holds of the run. */
  lemma HypothesesHold(w: World, f: Shape, bs: seq<Block>, store: Store)
    requires IsForkRun(w, f, bs, store)
    ensures var run := RunOf(w, f, bs, store);
            && WellVoted(w.sha, run, w.verify) && run.faulty == {"P4"} && run.blocks == Elements(bs)
            && NoCycles(w.sha, run) && ViewsGrow(run)
            && (Justified(f) ==> ParentsAreJustified(run))
            && (Climbs(f) ==> LocksAreMonotone(w.sha, run))
            && (VotesInOrder(f) ==> VotesAreOrdered(run))
            && (VotesOnce(f) ==> VotesAreSingle(w.sha, run))
            && (Stocked(f) ==> AncestorsStored(run))
  {
    RunIsWellVoted(w, f, bs, store);
    NothingCycles(w, f, bs, RunOf(w, f, bs, store));
    VotesAreLater(w, f, bs, store);
    if Justified(f) {
      AllHaveHonestShape(w, f, bs, store);
    }
    if Climbs(f) {
      LocksClimb(w, f, bs, store);
    }
    if VotesInOrder(f) {
      VotesClimb(w, f, bs, store);
    }
    if VotesOnce(f) {
      VotesAreOnce(w, f, bs, store);
    }
    if Stocked(f) {
      VotersAreStocked(w, f, bs, store);
    }
  }

  // ---------------------------------------------------------------- branches

  /** No parent link above block 0 crosses from one side to the other. */
  ghost predicate Separates(f: Shape, side: nat -> bool) {
    forall m :: 1 <= m < f.count ==>
      side(m) == side(f.header(m)) && (f.parent(m) != 0 ==> side(m) == side(f.parent(m)))
  }

  lemma {:induction false} SidesStayApart(w: World, f: Shape, bs: seq<Block>, run: Run, side: nat -> bool, j: nat,
      i: nat, k: nat)
    requires IsFork(w, f, bs) && run.blocks == Elements(bs) && Separates(f, side)
    requires 1 <= i < f.count && 1 <= j < f.count && side(i) != side(j)
    ensures !Descends(w.sha, run, HashBlock(w.sha, bs[j]), HashBlock(w.sha, bs[i]), k)
    decreases k
  {
    var h, a := HashBlock(w.sha, bs[j]), HashBlock(w.sha, bs[i]);
    if k == 0 {
      HashIsHeader(w, f, bs, i, j);
    } else {
      forall b | b in run.blocks && b.parentHash == a
        ensures !Descends(w.sha, run, h, HashBlock(w.sha, b), k - 1)
      {
        var m := ChildOf(w, f, bs, b, i);
        assert PlacedAt(f, i);
        SidesStayApart(w, f, bs, run, side, j, m, k - 1);
      }
    }
  }

  lemma NotOnBranch(w: World, f: Shape, bs: seq<Block>, run: Run, side: nat -> bool, j: nat, i: nat)
    requires IsFork(w, f, bs) && run.blocks == Elements(bs) && Separates(f, side)
    requires 1 <= i < f.count && 1 <= j < f.count && side(i) != side(j)
    ensures !OnBranch(w.sha, run, HashBlock(w.sha, bs[j]), HashBlock(w.sha, bs[i]))
  {
    forall k: nat
      ensures !Descends(w.sha, run, HashBlock(w.sha, bs[j]), HashBlock(w.sha, bs[i]), k)
    {
      SidesStayApart(w, f, bs, run, side, j, i, k);
    }
  }

  /** Two blocks of the run on different branches. */
  ghost predicate Forked(sha: Sha, run: Run, b: Block, c: Block) {
    && !OnBranch(sha, run, HashBlock(sha, b), HashBlock(sha, c))
    && !OnBranch(sha, run, HashBlock(sha, c), HashBlock(sha, b))
  }

  lemma ForkedAt(w: World, f: Shape, bs: seq<Block>, run: Run, side: nat -> bool, j: nat, i: nat)
    requires IsFork(w, f, bs) && run.blocks == Elements(bs) && Separates(f, side)
    requires 1 <= i < f.count && 1 <= j < f.count && side(i) != side(j)
    ensures Forked(w.sha, run, bs[j], bs[i])
  {
    NotOnBranch(w, f, bs, run, side, j, i);
    NotOnBranch(w, f, bs, run, side, i, j);
  }

  lemma LinkAt(w: World, f: Shape, bs: seq<Block>, j: nat, i: nat)
    requires IsFork(w, f, bs) && 1 <= j < f.count && i < f.count && f.parent(j) == f.header(i)
    ensures bs[j].parentHash == HashBlock(w.sha, bs[i])
    ensures bs[j].justify.Some? && bs[j].justify.value.view == f.certView(j)
  {
    assert ChildAt(w, f, bs, j);
    HashIsHeader(w, f, bs, f.parent(j), i);
  }

  /** Four blocks of the table, each the parent of the one before it. */
  datatype Chain = Chain(bStar: nat, bDouble: nat, bPrime: nat, b: nat)

  predicate IsChain(f: Shape, c: Chain) {
    && 1 <= c.bStar < f.count && 1 <= c.bDouble < f.count && 1 <= c.bPrime < f.count && 1 <= c.b < f.count
    && f.parent(c.bStar) == f.header(c.bDouble) && f.parent(c.bDouble) == f.header(c.bPrime)
    && f.parent(c.bPrime) == f.header(c.b)
  }

  predicate IsConsecutive(f: Shape, c: Chain) {
    f.certView(c.bStar) == f.certView(c.bDouble) + 1 == f.certView(c.bPrime) + 2
  }

  lemma ChainAt(w: World, f: Shape, bs: seq<Block>, run: Run, c: Chain)
    requires IsFork(w, f, bs) && run.blocks == Elements(bs) && IsChain(f, c)
    ensures ThreeChain(w.sha, run, bs[c.bStar], bs[c.bDouble], bs[c.bPrime], bs[c.b])
    ensures IsConsecutive(f, c) ==> Committed(w.sha, run, bs[c.b])
  {
    LinkAt(w, f, bs, c.bStar, c.bDouble);
    LinkAt(w, f, bs, c.bDouble, c.bPrime);
    LinkAt(w, f, bs, c.bPrime, c.b);
    assert IsConsecutive(f, c) ==> ConsecutiveViews(bs[c.bStar], bs[c.bDouble], bs[c.bPrime]);
  }

  /** The run of a table with a chain on either side: what it respects holds, and the chains end on two branches. */
  lemma ForkedRun(w: World, f: Shape, bs: seq<Block>, side: nat -> bool, c: Chain, d: Chain) returns
      (run: Run, store: Store)
    requires IsFork(w, f, bs) && Separates(f, side) && IsChain(f, c) && IsChain(f, d) && side(c.b) != side(d.b)
    ensures IsForkRun(w, f, bs, store) && run == RunOf(w, f, bs, store)
    ensures WellVoted(w.sha, run, w.verify) && run.faulty == {"P4"} && run.blocks == Elements(bs)
    ensures NoCycles(w.sha, run) && ViewsGrow(run)
    ensures Justified(f) ==> ParentsAreJustified(run)
    ensures Climbs(f) ==> LocksAreMonotone(w.sha, run)
    ensures VotesInOrder(f) ==> VotesAreOrdered(run)
    ensures VotesOnce(f) ==> VotesAreSingle(w.sha, run)
    ensures Stocked(f) ==> AncestorsStored(run)
    ensures ThreeChain(w.sha, run, bs[c.bStar], bs[c.bDouble], bs[c.bPrime], bs[c.b])
    ensures ThreeChain(w.sha, run, bs[d.bStar], bs[d.bDouble], bs[d.bPrime], bs[d.b])
    ensures IsConsecutive(f, c) ==> Committed(w.sha, run, bs[c.b])
    ensures IsConsecutive(f, d) ==> Committed(w.sha, run, bs[d.b])
    ensures Forked(w.sha, run, bs[c.b], bs[d.b])
  {
    store := MakeRun(w, f, bs);
    run := RunOf(w, f, bs, store);
    HypothesesHold(w, f, bs, store);
    ChainAt(w, f, bs, run, c);
    ChainAt(w, f, bs, run, d);
    ForkedAt(w, f, bs, run, side, c.b, d.b);
  }
}
