/**
 * The order of delivery. A replica delivers the bottom of each three-chain it sees and not the undelivered blocks
 * below it, so the order in which proposals arrive decides. What it delivers follows the branch exactly when the
 * proposals that complete the chains are handled in the order of their certificates' views.
 */
module TotalOrder {
  import opened Types
  import opened Encoding
  import opened Committee
  import opened Quorum
  import opened Safety
  import opened Agreement
  import opened Pipeline
  import Delivery
  import Engine

  // ---------------------------------------------------------------- what a member hands to its deliverer

  /** A call of the deliverer, with the three blocks above the one handed over. */
  datatype Call = Call(bStar: Block, bDouble: Block, bPrime: Block, block: Block)

  function Targets(calls: seq<Call>): seq<Block> {
    seq(|calls|, i requires 0 <= i < |calls| => calls[i].block)
  }

  /** The call of the three-chain rule. */
  function ChainCall(sha: Sha, s: Step): seq<Call> {
    match Certified(s.store, s.block)
    case None => []
    case Some(bDouble) =>
      match Certified(s.store, bDouble)
      case None => []
      case Some(bPrime) =>
        match Certified(s.store, bPrime)
        case None => []
        case Some(b) =>
          if CheckThreeChain(sha, s.block, bDouble, bPrime, b) then [Call(s.block, bDouble, bPrime, b)] else []
  }

  /** The call of the window, which holds the blocks handled since its last reset. */
  function WindowCall(sha: Sha, window: seq<Block>): seq<Call> {
    var n := |window|;
    if Output(sha, Fed(window)) == None then []
    else [Call(window[n - 2], window[n - 3], window[n - 4], window[n - 5])]
  }

  /** The blocks handled from the last reset before step i to step i. */
  function Window(steps: seq<Step>, reset: nat -> nat, i: nat): (w: seq<Block>)
    requires i < |steps|
    ensures w != [] && w[|w| - 1] == steps[i].block
    ensures forall b :: b in w ==> exists j :: 0 <= j < |steps| && steps[j].block == b
  {
    var first := if reset(i) <= i then reset(i) else i;
    seq(i + 1 - first, k requires 0 <= k < i + 1 - first => steps[first + k].block)
  }

  function CallsAt(sha: Sha, steps: seq<Step>, reset: nat -> nat, i: nat): seq<Call>
    requires i < |steps|
  {
    ChainCall(sha, steps[i]) + WindowCall(sha, Window(steps, reset, i))
  }

  /** All calls of the first n steps, in order. */
  function CallsOf(sha: Sha, steps: seq<Step>, reset: nat -> nat, n: nat): seq<Call>
    requires n <= |steps|
  {
    if n == 0 then [] else CallsOf(sha, steps, reset, n - 1) + CallsAt(sha, steps, reset, n - 1)
  }

  lemma {:induction false} RunJoins(sha: Sha, parse: KeyParser, v: Delivery.DeliverVars, a: seq<Block>, b: seq<Block>)
    ensures Delivery.Run(sha, parse, v, a + b) == Delivery.Run(sha, parse, Delivery.Run(sha, parse, v, a), b)
  {
    if b == [] {
      assert a + b == a;
    } else {
      RunJoins(sha, parse, v, a, b[..|b| - 1]);
      assert (a + b)[..|a + b| - 1] == a + b[..|b| - 1];
    }
  }

  lemma {:induction false} OneDelivery(sha: Sha, parse: KeyParser, v: Delivery.DeliverVars, c: Call)
    ensures Delivery.Run(sha, parse, v, Targets([c])) == Delivery.AfterDeliver(sha, parse, v, c.block).0
  {
    assert Targets([c])[..0] == [];
  }

  lemma {:induction false} TargetsJoin(a: seq<Call>, b: seq<Call>)
    ensures Targets(a + b) == Targets(a) + Targets(b)
  {
  }

  lemma {:induction false} ChainMakesCall(sha: Sha, parse: KeyParser, v: Delivery.DeliverVars, s: Step)
    ensures Engine.Commit(sha, parse, v, s.block, s.store) == Delivery.Run(sha, parse, v, Targets(ChainCall(sha, s)))
  {
    var calls := ChainCall(sha, s);
    if calls != [] {
      assert calls == [calls[0]];
      OneDelivery(sha, parse, v, calls[0]);
    }
  }

  lemma {:induction false} WindowMakesCall(sha: Sha, parse: KeyParser, v: Delivery.DeliverVars, window: seq<Block>)
    ensures Engine.PipelineCommit(sha, parse, v, Fed(window)) ==
            Delivery.Run(sha, parse, v, Targets(WindowCall(sha, window)))
  {
    var calls := WindowCall(sha, window);
    if calls != [] {
      OneDelivery(sha, parse, v, calls[0]);
    }
  }

  /** What the handler of a proposal delivers is these calls and no others. */
  lemma {:induction false} HandlerMakesCalls(sha: Sha, parse: KeyParser, v: Delivery.DeliverVars, steps: seq<Step>,
      reset: nat -> nat, i: nat)
    requires i < |steps|
    ensures Engine.PipelineCommit(sha, parse, Engine.Commit(sha, parse, v, steps[i].block, steps[i].store),
                                  Fed(Window(steps, reset, i))) ==
            Delivery.Run(sha, parse, v, Targets(CallsAt(sha, steps, reset, i)))
  {
    var chain, window := ChainCall(sha, steps[i]), WindowCall(sha, Window(steps, reset, i));
    ChainMakesCall(sha, parse, v, steps[i]);
    WindowMakesCall(sha, parse, Delivery.Run(sha, parse, v, Targets(chain)), Window(steps, reset, i));
    TargetsJoin(chain, window);
    RunJoins(sha, parse, v, Targets(chain), Targets(window));
  }

  /** A deliverer, before each proposal of a trace and after the last one. */
  ghost predicate DelivererRun(sha: Sha, parse: KeyParser, vs: seq<Delivery.DeliverVars>, steps: seq<Step>,
      reset: nat -> nat)
  {
    && |vs| == |steps| + 1
    && forall i {:trigger steps[i]} :: 0 <= i < |steps| ==>
         var committed := Engine.Commit(sha, parse, vs[i], steps[i].block, steps[i].store);
         vs[i + 1] == Engine.PipelineCommit(sha, parse, committed, Fed(Window(steps, reset, i)))
  }

  lemma {:induction false} TraceMakesCalls(sha: Sha, parse: KeyParser, vs: seq<Delivery.DeliverVars>, steps: seq<Step>,
      reset: nat -> nat, n: nat)
    requires DelivererRun(sha, parse, vs, steps, reset) && n <= |steps|
    ensures vs[n] == Delivery.Run(sha, parse, vs[0], Targets(CallsOf(sha, steps, reset, n)))
  {
    assert Targets(CallsOf(sha, steps, reset, 0)) == [];
    for i := 0 to n
      invariant vs[i] == Delivery.Run(sha, parse, vs[0], Targets(CallsOf(sha, steps, reset, i)))
    {
      var before, now := CallsOf(sha, steps, reset, i), CallsAt(sha, steps, reset, i);
      HandlerMakesCalls(sha, parse, vs[i], steps, reset, i);
      TargetsJoin(before, now);
      RunJoins(sha, parse, vs[0], Targets(before), Targets(now));
    }
  }

  lemma {:induction false} ChainCallIsChain(sha: Sha, run: Run, id: string, i: nat, c: Call)
    requires StoresAreSound(sha, run) && id in run.trace && i < |run.trace[id]|
    requires c in ChainCall(sha, run.trace[id][i])
    ensures ThreeChain(sha, run, c.bStar, c.bDouble, c.bPrime, c.block)
  {
    assert run.trace[id][i].block in run.blocks;
  }

  lemma {:induction false} WindowCallIsChain(sha: Sha, run: Run, id: string, reset: nat -> nat, i: nat, c: Call)
    requires StoresAreSound(sha, run) && id in run.trace && i < |run.trace[id]|
    requires c in WindowCall(sha, Window(run.trace[id], reset, i))
    ensures ThreeChain(sha, run, c.bStar, c.bDouble, c.bPrime, c.block)
  {
    var window := Window(run.trace[id], reset, i);
    forall b | b in window
      ensures b in run.blocks
    {
      var j :| 0 <= j < |run.trace[id]| && run.trace[id][j].block == b;
    }
  }

  ghost predicate AreChains(sha: Sha, run: Run, calls: seq<Call>) {
    forall c :: c in calls ==> ThreeChain(sha, run, c.bStar, c.bDouble, c.bPrime, c.block)
  }

  lemma {:induction false} CallsAtAreChains(sha: Sha, run: Run, id: string, reset: nat -> nat, i: nat)
    requires StoresAreSound(sha, run) && id in run.trace && i < |run.trace[id]|
    ensures AreChains(sha, run, CallsAt(sha, run.trace[id], reset, i))
  {
    forall c | c in CallsAt(sha, run.trace[id], reset, i)
      ensures ThreeChain(sha, run, c.bStar, c.bDouble, c.bPrime, c.block)
    {
      if c in ChainCall(sha, run.trace[id][i]) {
        ChainCallIsChain(sha, run, id, i, c);
      } else {
        WindowCallIsChain(sha, run, id, reset, i, c);
      }
    }
  }

  /** Every call is for the bottom of a three-chain of the run. */
  lemma {:induction false} CallsAreChains(sha: Sha, run: Run, id: string, reset: nat -> nat, n: nat)
    requires StoresAreSound(sha, run) && id in run.trace && n <= |run.trace[id]|
    ensures AreChains(sha, run, CallsOf(sha, run.trace[id], reset, n))
  {
    for i := 0 to n
      invariant AreChains(sha, run, CallsOf(sha, run.trace[id], reset, i))
    {
      CallsAtAreChains(sha, run, id, reset, i);
    }
  }

  // ---------------------------------------------------------------- what is delivered

  /** The calls that really deliver: not those the duplicate test drops, and not those that fail. */
  function Delivering(sha: Sha, parse: KeyParser, v: Delivery.DeliverVars, calls: seq<Call>): seq<Call> {
    if calls == [] then []
    else
      var init, last := calls[..|calls| - 1], calls[|calls| - 1];
      Delivering(sha, parse, v, init) +
      if Delivery.Delivers(sha, parse, Delivery.Run(sha, parse, v, Targets(init)), last.block) then [last] else []
  }

  lemma {:induction false} DeliveringDelivers(sha: Sha, parse: KeyParser, v: Delivery.DeliverVars, calls: seq<Call>)
    ensures Targets(Delivering(sha, parse, v, calls)) == Delivery.DeliveredIn(sha, parse, v, Targets(calls))
    ensures forall c :: c in Delivering(sha, parse, v, calls) ==> c in calls
  {
    if calls != [] {
      var init, last := calls[..|calls| - 1], calls[|calls| - 1];
      DeliveringDelivers(sha, parse, v, init);
      assert calls == init + [last] && Targets(calls)[..|calls| - 1] == Targets(init);
      TargetsJoin(Delivering(sha, parse, v, init), [last]);
    }
  }

  /** The calls that deliver in a member's trace, whose window is reset in the given steps. */
  function DeliveriesOf(sha: Sha, parse: KeyParser, genesis: Config, steps: seq<Step>, reset: nat -> nat): seq<Call> {
    Delivering(sha, parse, Delivery.Start(genesis), CallsOf(sha, steps, reset, |steps|))
  }

  ghost predicate ChainsAreConsecutive(calls: seq<Call>) {
    forall c :: c in calls ==> ConsecutiveViews(c.bStar, c.bDouble, c.bPrime)
  }

  /** The proposals on top of the chains come in the order of the certificates they carry. */
  ghost predicate HandledInOrder(calls: seq<Call>) {
    forall i, j :: 0 <= i < j < |calls| ==> ViewOf(calls[i].bStar.justify) <= ViewOf(calls[j].bStar.justify)
  }

  ghost predicate FollowsBranch(sha: Sha, run: Run, ds: seq<Block>) {
    forall i, j :: 0 <= i < j < |ds| ==> OnBranch(sha, run, HashBlock(sha, ds[j]), HashBlock(sha, ds[i]))
  }

  ghost predicate IsCommit(sha: Sha, run: Run, c: Call) {
    ThreeChain(sha, run, c.bStar, c.bDouble, c.bPrime, c.block) && ConsecutiveViews(c.bStar, c.bDouble, c.bPrime)
  }

  /** The certificate of a committed block is two views older than the one the committing proposal carries. */
  lemma {:induction false} CommitView(sha: Sha, run: Run, verify: Verifier, c: Call) returns (p: QuorumCert)
    requires Admissible(sha, run, verify) && IsCommit(sha, run, c)
    ensures Committed(sha, run, c.block)
    ensures Cert(run, p) && p.blockHash == HashBlock(sha, c.block) && ViewOf(c.bStar.justify) == p.view + 2
  {
    assert ParentIsJustified(c.bPrime);
    p := c.bPrime.justify.value;
  }

  /** Of two commits, one descends from the other if and only if its proposal carries the later certificate. */
  lemma {:induction false} BranchIsProposalOrder(sha: Sha, run: Run, verify: Verifier, c: Call, d: Call)
    requires Admissible(sha, run, verify) && IsCommit(sha, run, c) && IsCommit(sha, run, d)
    ensures OnBranch(sha, run, HashBlock(sha, d.block), HashBlock(sha, c.block)) <==>
            ViewOf(c.bStar.justify) <= ViewOf(d.bStar.justify)
  {
    var p := CommitView(sha, run, verify, c);
    var q := CommitView(sha, run, verify, d);
    CommitsFollowViews(sha, run, verify, c.block, p, d.block, q);
  }

  lemma {:induction false} DeliveriesAreCommits(sha: Sha, parse: KeyParser, genesis: Config, run: Run, id: string,
      reset: nat -> nat)
    requires StoresAreSound(sha, run) && id in run.trace
    requires ChainsAreConsecutive(DeliveriesOf(sha, parse, genesis, run.trace[id], reset))
    ensures forall c :: c in DeliveriesOf(sha, parse, genesis, run.trace[id], reset) ==> IsCommit(sha, run, c)
  {
    var steps := run.trace[id];
    var calls := CallsOf(sha, steps, reset, |steps|);
    DeliveringDelivers(sha, parse, Delivery.Start(genesis), calls);
    CallsAreChains(sha, run, id, reset, |steps|);
  }

  /** What a member delivers follows the branch if and only if it handles the proposals in certificate order. */
  lemma {:induction false} FollowsBranchIff(sha: Sha, parse: KeyParser, genesis: Config, run: Run, verify: Verifier,
      id: string, reset: nat -> nat)
    requires Admissible(sha, run, verify) && id in run.trace
    requires ChainsAreConsecutive(DeliveriesOf(sha, parse, genesis, run.trace[id], reset))
    ensures var ds := DeliveriesOf(sha, parse, genesis, run.trace[id], reset);
            FollowsBranch(sha, run, Targets(ds)) <==> HandledInOrder(ds)
  {
    DeliveriesAreCommits(sha, parse, genesis, run, id, reset);
    CommitsFollowIff(sha, run, verify, DeliveriesOf(sha, parse, genesis, run.trace[id], reset));
  }

  lemma {:induction false} CommitsFollowIff(sha: Sha, run: Run, verify: Verifier, ds: seq<Call>)
    requires Admissible(sha, run, verify) && forall c :: c in ds ==> IsCommit(sha, run, c)
    ensures FollowsBranch(sha, run, Targets(ds)) <==> HandledInOrder(ds)
  {
    forall i, j | 0 <= i < j < |ds|
      ensures OnBranch(sha, run, HashBlock(sha, Targets(ds)[j]), HashBlock(sha, Targets(ds)[i])) <==>
              ViewOf(ds[i].bStar.justify) <= ViewOf(ds[j].bStar.justify)
    {
      BranchIsProposalOrder(sha, run, verify, ds[i], ds[j]);
    }
  }

  // ---------------------------------------------------------------- two members

  /** One list has g before h and the other h before g. */
  ghost predicate Opposed(gs: seq<Hash>, hs: seq<Hash>) {
    exists i, j, k, l :: 0 <= i < j < |gs| && 0 <= k < l < |hs| && gs[i] == hs[l] && gs[j] == hs[k]
  }

  lemma {:induction false} OneOrder(sha: Sha, run: Run, verify: Verifier, c: Call, d: Call, c': Call, d': Call)
    requires Admissible(sha, run, verify)
    requires IsCommit(sha, run, c) && IsCommit(sha, run, d) && IsCommit(sha, run, c') && IsCommit(sha, run, d')
    requires ViewOf(c.bStar.justify) <= ViewOf(d.bStar.justify)
    requires ViewOf(d'.bStar.justify) <= ViewOf(c'.bStar.justify)
    requires HashBlock(sha, c.block) == HashBlock(sha, c'.block) && HashBlock(sha, d.block) == HashBlock(sha, d'.block)
    ensures HashBlock(sha, c.block) == HashBlock(sha, d.block)
  {
    var p := CommitView(sha, run, verify, c);
    var q := CommitView(sha, run, verify, d);
    var p' := CommitView(sha, run, verify, c');
    var q' := CommitView(sha, run, verify, d');
    CertsMatch(sha, run, verify, p, p');
    CertsMatch(sha, run, verify, q, q');
    CertsMatch(sha, run, verify, p, q);
  }

  /** These are commits of different headers. */
  ghost predicate AreCommits(sha: Sha, run: Run, ds: seq<Call>) {
    && (forall c :: c in ds ==> IsCommit(sha, run, c))
    && Distinct(Delivery.Hashes(sha, Targets(ds)))
  }

  lemma {:induction false} NeverOpposed(sha: Sha, run: Run, verify: Verifier, ds: seq<Call>, ds': seq<Call>)
    requires Admissible(sha, run, verify) && AreCommits(sha, run, ds) && AreCommits(sha, run, ds')
    requires HandledInOrder(ds) && HandledInOrder(ds')
    ensures !Opposed(Delivery.Hashes(sha, Targets(ds)), Delivery.Hashes(sha, Targets(ds')))
  {
    var gs, hs := Delivery.Hashes(sha, Targets(ds)), Delivery.Hashes(sha, Targets(ds'));
    forall i, j, k, l | 0 <= i < j < |gs| && 0 <= k < l < |hs|
      ensures gs[i] != hs[l] || gs[j] != hs[k]
    {
      if gs[i] == hs[l] && gs[j] == hs[k] {
        OneOrder(sha, run, verify, ds[i], ds[j], ds'[l], ds'[k]);
      }
    }
  }

  lemma {:induction false} DeliveriesDiffer(sha: Sha, parse: KeyParser, genesis: Config, steps: seq<Step>,
      reset: nat -> nat)
    ensures Distinct(Delivery.Hashes(sha, Targets(DeliveriesOf(sha, parse, genesis, steps, reset))))
  {
    var calls := CallsOf(sha, steps, reset, |steps|);
    DeliveringDelivers(sha, parse, Delivery.Start(genesis), calls);
    Delivery.DeliveredOnce(sha, parse, genesis, Targets(calls));
  }

  /** Theorem 7: two members that handle proposals in certificate order never deliver two headers in opposite orders. */
  lemma {:induction false} TotalOrderOfDeliveries(sha: Sha, parse: KeyParser, genesis: Config, run: Run,
      verify: Verifier, id: string, reset: nat -> nat, id': string, reset': nat -> nat)
    requires Admissible(sha, run, verify) && id in run.trace && id' in run.trace
    requires var ds := DeliveriesOf(sha, parse, genesis, run.trace[id], reset);
             ChainsAreConsecutive(ds) && HandledInOrder(ds)
    requires var ds' := DeliveriesOf(sha, parse, genesis, run.trace[id'], reset');
             ChainsAreConsecutive(ds') && HandledInOrder(ds')
    ensures !Opposed(Delivery.Hashes(sha, Targets(DeliveriesOf(sha, parse, genesis, run.trace[id], reset))),
                     Delivery.Hashes(sha, Targets(DeliveriesOf(sha, parse, genesis, run.trace[id'], reset'))))
  {
    DeliveriesAreCommits(sha, parse, genesis, run, id, reset);
    DeliveriesAreCommits(sha, parse, genesis, run, id', reset');
    DeliveriesDiffer(sha, parse, genesis, run.trace[id], reset);
    DeliveriesDiffer(sha, parse, genesis, run.trace[id'], reset');
    NeverOpposed(sha, run, verify, DeliveriesOf(sha, parse, genesis, run.trace[id], reset),
                 DeliveriesOf(sha, parse, genesis, run.trace[id'], reset'));
  }
}
