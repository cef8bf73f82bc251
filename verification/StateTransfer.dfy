/** Execution histories and the tallies by which a joining replica trusts one, or a latest block. */
module StateTransfer {
  import opened Types
  import opened Encoding
  import opened Committee

  // ---------------------------------------------------------------- histories

  ghost predicate Contiguous(blocks: seq<Block>) {
    forall i :: 0 <= i < |blocks| ==> blocks[i].height == i
  }

  class ExecutionHistory {
    var blocks: seq<Block>

    constructor ()
      ensures blocks == []
    {
      blocks := [];
    }

    /** Refused unless the height is the next one, so a history stays contiguous. */
    method Append(block: Block) returns (ok: bool)
      modifies this
      ensures ok <==> block.height == |old(blocks)|
      ensures blocks == if ok then old(blocks) + [block] else old(blocks)
      ensures Contiguous(old(blocks)) ==> Contiguous(blocks)
    {
      ok := block.height == |blocks|;
      if ok {
        blocks := blocks + [block];
      }
    }

    /** The blocks at or above a height, in order: a contiguous history's suffix from that height on. */
    function Since(height: nat): (r: seq<Block>)
      reads this
      ensures Contiguous(blocks) ==> forall b :: b in r <==> b in blocks && b.height >= height
      ensures Contiguous(blocks) ==> forall k :: 0 <= k < |r| ==> r[k].height == height + k
    {
      if height >= |blocks| then []
      else
        var r := blocks[height..];
        assert Contiguous(blocks) ==>
          forall b :: b in blocks && b.height >= height ==> b == blocks[b.height] == r[b.height - height];
        r
    }

    function LatestHeight(): (h: int)
      reads this
      ensures blocks == [] ==> h == -1
      ensures Contiguous(blocks) ==> forall b :: b in blocks ==> b.height <= h
      ensures Contiguous(blocks) && blocks != [] ==> exists b :: b in blocks && b.height == h
    {
      assert blocks != [] ==> blocks[|blocks| - 1] in blocks;
      |blocks| - 1
    }
  }

  method HistoryFromProto(resp: seq<Block>) returns (hist: Option<seq<Block>>)
    ensures hist == if Contiguous(resp) then Some(resp) else None
  {
    var blocks: seq<Block> := [];
    for i := 0 to |resp|
      invariant blocks == resp[..i] && Contiguous(blocks)
    {
      if resp[i].height != i {
        return None;
      }
      blocks := blocks + [resp[i]];
    }
    assert blocks == resp;
    hist := Some(blocks);
  }

  function Digests(sha: Sha, blocks: seq<Block>): Bytes {
    if blocks == [] then [] else Digests(sha, blocks[..|blocks| - 1]) + HashBlock(sha, blocks[|blocks| - 1])
  }

  function HistoryHash(sha: Sha, blocks: seq<Block>): Hash {
    sha(Digests(sha, blocks))
  }

  method ComputeHistoryHash(sha: Sha, blocks: seq<Block>) returns (h: Hash)
    ensures h == HistoryHash(sha, blocks)
  {
    var written: Bytes := [];
    for i := 0 to |blocks|
      invariant written == Digests(sha, blocks[..i])
    {
      assert blocks[..i + 1][..i] == blocks[..i];
      var digest := HashBlockUnrolled(sha, blocks[i]);
      written := written + digest;
    }
    assert blocks[..|blocks|] == blocks;
    h := sha(written);
  }

  /** The digests stand in the order of the blocks. */
  lemma {:induction false} DigestsInOrder(sha: Sha, blocks: seq<Block>, i: nat)
    requires (forall x :: |sha(x)| == 32) && i < |blocks|
    ensures |Digests(sha, blocks)| == 32 * |blocks|
    ensures Digests(sha, blocks)[32 * i..32 * i + 32] == HashBlock(sha, blocks[i])
  {
    var init, last := blocks[..|blocks| - 1], blocks[|blocks| - 1];
    if init != [] {
      DigestsInOrder(sha, init, if i < |init| then i else 0);
      var before := Digests(sha, init);
      assert i < |init| ==> (before + HashBlock(sha, last))[32 * i..32 * i + 32] == before[32 * i..32 * i + 32];
    }
  }

  ghost predicate Collides(sha: Sha, a: seq<Block>, b: seq<Block>) {
    Digests(sha, a) != Digests(sha, b) && HistoryHash(sha, a) == HistoryHash(sha, b)
  }

  /** SHA-256 as far as these two histories need it: 32-byte digests, no collision between their preimages. */
  ghost predicate Distinguishes(sha: Sha, a: seq<Block>, b: seq<Block>) {
    && (forall x :: |sha(x)| == 32)
    && CollisionFree(sha, Elements(a) + Elements(b))
    && !Collides(sha, a, b)
  }

  ghost predicate SameHeaders(a: seq<Block>, b: seq<Block>) {
    |a| == |b| && forall i :: 0 <= i < |a| ==> a[i].parentHash == b[i].parentHash && a[i].height == b[i].height
  }

  lemma {:induction false} DigestsSplit(sha: Sha, all: set<Block>, a: seq<Block>, b: seq<Block>)
    requires (forall x :: |sha(x)| == 32) && CollisionFree(sha, all) && Elements(a) + Elements(b) <= all
    requires Digests(sha, a) == Digests(sha, b)
    ensures |a| == |b| && forall i :: 0 <= i < |a| ==> a[i].parentHash == b[i].parentHash
  {
    if a == [] || b == [] {
      assert a != [] ==> |Digests(sha, a)| >= 32;
      assert b != [] ==> |Digests(sha, b)| >= 32;
    } else {
      var x, y := a[|a| - 1], b[|b| - 1];
      SuffixSplit(Digests(sha, a[..|a| - 1]), HashBlock(sha, x), Digests(sha, b[..|b| - 1]), HashBlock(sha, y));
      assert x in Elements(a) && y in Elements(b);
      EqualHashesEqualHeaders(sha, all, x, y);
      DigestsSplit(sha, all, a[..|a| - 1], b[..|b| - 1]);
    }
  }

  /** Equal history hashes fix the whole header chain. */
  lemma {:induction false} EqualHistoryHashes(sha: Sha, a: seq<Block>, b: seq<Block>)
    requires Distinguishes(sha, a, b) && Contiguous(a) && Contiguous(b)
    requires HistoryHash(sha, a) == HistoryHash(sha, b)
    ensures SameHeaders(a, b)
  {
    DigestsSplit(sha, Elements(a) + Elements(b), a, b);
  }

  // ---------------------------------------------------------------- the history tally

  /** A response in arrival order: None stands for any error, including a history that does not parse. */
  datatype Response = Response(from: string, history: Option<seq<Block>>)

  ghost predicate Parsed(responses: seq<Response>) {
    forall i :: 0 <= i < |responses| && responses[i].history.Some? ==> Contiguous(responses[i].history.value)
  }

  /** The digest tells the reported histories apart. */
  ghost predicate NoCollisions(sha: Sha, responses: seq<Response>) {
    forall i, j ::
      && 0 <= i < |responses| && responses[i].history.Some?
      && 0 <= j < |responses| && responses[j].history.Some?
      ==> Distinguishes(sha, responses[i].history.value, responses[j].history.value)
  }

  predicate Reports(sha: Sha, r: Response, hash: Hash) {
    r.history.Some? && HistoryHash(sha, r.history.value) == hash
  }

  function Reported(sha: Sha, responses: seq<Response>, hash: Hash): nat {
    if responses == [] then 0
    else
      Reported(sha, responses[..|responses| - 1], hash) +
      if Reports(sha, responses[|responses| - 1], hash) then 1 else 0
  }

  function FirstWith(sha: Sha, responses: seq<Response>, hash: Hash): Option<seq<Block>> {
    if responses == [] then None
    else
      var before := FirstWith(sha, responses[..|responses| - 1], hash);
      if before.Some? then before
      else if Reports(sha, responses[|responses| - 1], hash) then responses[|responses| - 1].history
      else None
  }

  /** The first history whose hash reaches the threshold. */
  function Trusted(sha: Sha, responses: seq<Response>, needed: nat): Option<seq<Block>> {
    if responses == [] then None
    else
      var before := Trusted(sha, responses[..|responses| - 1], needed);
      var last := responses[|responses| - 1];
      if before.Some? then before
      else if last.history == None then None
      else
        var hash := HistoryHash(sha, last.history.value);
        if Reported(sha, responses, hash) >= needed then FirstWith(sha, responses, hash) else None
  }

  lemma {:induction false} TrustedStays(sha: Sha, responses: seq<Response>, i: nat, needed: nat)
    requires i <= |responses| && Trusted(sha, responses[..i], needed).Some?
    ensures Trusted(sha, responses, needed) == Trusted(sha, responses[..i], needed)
  {
    if i == |responses| {
      assert responses[..i] == responses;
    } else {
      assert responses[..|responses| - 1][..i] == responses[..i];
      TrustedStays(sha, responses[..|responses| - 1], i, needed);
    }
  }

  lemma {:induction false} NoneReported(sha: Sha, responses: seq<Response>, hash: Hash)
    ensures Reported(sha, responses, hash) == 0 <==> FirstWith(sha, responses, hash) == None
    ensures Reported(sha, responses, hash) <= |responses|
  {
    if responses != [] {
      NoneReported(sha, responses[..|responses| - 1], hash);
    }
  }

  /** The two maps hold, per hash, how often it was reported and by which history first. */
  ghost predicate Tallied(sha: Sha, responses: seq<Response>, hashCount: map<Hash, nat>, hashHist: map<Hash,
      seq<Block>>) {
    && (forall h :: h in hashCount <==> h in hashHist)
    && (forall h :: (if h in hashCount then hashCount[h] else 0) == Reported(sha, responses, h))
    && (forall h :: h in hashHist ==> FirstWith(sha, responses, h) == Some(hashHist[h]))
    && (forall h :: h in hashCount ==> hashCount[h] > 0)
  }

  lemma TallyNext(sha: Sha, before: seq<Response>, r: Response, hashCount: map<Hash, nat>, hashHist: map<Hash,
      seq<Block>>)
    requires Tallied(sha, before, hashCount, hashHist)
    ensures r.history == None ==> Tallied(sha, before + [r], hashCount, hashHist)
    ensures r.history.Some? ==>
              var h := HistoryHash(sha, r.history.value);
              Tallied(sha, before + [r], hashCount[h := (if h in hashCount then hashCount[h] else 0) + 1],
                      if h in hashHist then hashHist else hashHist[h := r.history.value])
  {
    assert (before + [r])[..|before + [r]| - 1] == before;
    if r.history.Some? {
      NoneReported(sha, before, HistoryHash(sha, r.history.value));
    }
  }

  /** `RequestHistory`: what arrives before the deadline is tallied; running out of responses is an error. */
  method RequestHistory(sha: Sha, mc: Config, responses: seq<Response>) returns (hist: Option<seq<Block>>)
    requires |responses| <= |mc.replicas|
    ensures hist == Trusted(sha, responses, 2 * mc.faultCap + 1)
  {
    var needed := 2 * mc.faultCap + 1;
    var hashCount: map<Hash, nat> := map[];
    var hashHist: map<Hash, seq<Block>> := map[];
    for received := 0 to |responses|
      invariant Trusted(sha, responses[..received], needed) == None
      invariant Tallied(sha, responses[..received], hashCount, hashHist)
    {
      var r := responses[received];
      assert responses[..received + 1][..received] == responses[..received];
      assert responses[..received + 1] == responses[..received] + [r];
      TallyNext(sha, responses[..received], r, hashCount, hashHist);
      if r.history == None {
        continue;
      }
      var hash := HistoryHash(sha, r.history.value);
      hashCount := hashCount[hash := (if hash in hashCount then hashCount[hash] else 0) + 1];
      if hash !in hashHist {
        hashHist := hashHist[hash := r.history.value];
      }
      if hashCount[hash] >= needed {
        TrustedStays(sha, responses, received + 1, needed);
        return Some(hashHist[hash]);
      }
    }
    assert responses[..|responses|] == responses;
    hist := None;
  }

  // ---------------------------------------------------------------- what a trusted history means

  function Senders(responses: seq<Response>): seq<string> {
    seq(|responses|, i requires 0 <= i < |responses| => responses[i].from)
  }

  /** One response per replica. */
  ghost predicate OnePerReplica(mc: Config, responses: seq<Response>) {
    Distinct(Senders(responses)) && forall id :: id in Senders(responses) ==> id in Ids(mc.replicas)
  }

  function Reporters(sha: Sha, responses: seq<Response>, hash: Hash): set<string> {
    set i | 0 <= i < |responses| && Reports(sha, responses[i], hash) :: responses[i].from
  }

  lemma {:induction false} ReportersNext(sha: Sha, init: seq<Response>, last: Response, hash: Hash)
    requires Distinct(Senders(init + [last]))
    ensures Distinct(Senders(init)) && last.from !in Reporters(sha, init, hash)
    ensures Reporters(sha, init + [last], hash) ==
            Reporters(sha, init, hash) + if Reports(sha, last, hash) then {last.from} else {}
  {
    var all := init + [last];
    forall i | 0 <= i < |init|
      ensures Senders(all)[i] == all[i].from == init[i].from == Senders(init)[i] != last.from
    {
      assert Senders(all)[i] != Senders(all)[|init|];
    }
    assert all[|init|] == last;
  }

  lemma {:induction false} ReportersCount(sha: Sha, responses: seq<Response>, hash: Hash)
    requires Distinct(Senders(responses))
    ensures |Reporters(sha, responses, hash)| == Reported(sha, responses, hash)
  {
    if responses != [] {
      var init, last := responses[..|responses| - 1], responses[|responses| - 1];
      assert responses == init + [last];
      ReportersNext(sha, init, last, hash);
      ReportersCount(sha, init, hash);
    }
  }

  lemma {:induction false} FirstWithReports(sha: Sha, responses: seq<Response>, hash: Hash)
    requires FirstWith(sha, responses, hash).Some?
    ensures HistoryHash(sha, FirstWith(sha, responses, hash).value) == hash
    ensures exists i :: 0 <= i < |responses| && responses[i].history == FirstWith(sha, responses, hash)
  {
    var init := responses[..|responses| - 1];
    if FirstWith(sha, init, hash).Some? {
      FirstWithReports(sha, init, hash);
      var i :| 0 <= i < |init| && init[i].history == FirstWith(sha, init, hash);
      assert responses[i].history == FirstWith(sha, responses, hash);
    }
  }

  /** The hash of a trusted history was reported often enough, and the history is one of those reported. */
  lemma {:induction false} TrustedIsReported(sha: Sha, responses: seq<Response>, needed: nat)
    requires Trusted(sha, responses, needed).Some?
    ensures Reported(sha, responses, HistoryHash(sha, Trusted(sha, responses, needed).value)) >= needed
    ensures exists i :: 0 <= i < |responses| && responses[i].history == Trusted(sha, responses, needed)
  {
    var init := responses[..|responses| - 1];
    if Trusted(sha, init, needed).Some? {
      TrustedIsReported(sha, init, needed);
      var i :| 0 <= i < |init| && init[i].history == Trusted(sha, init, needed);
      assert responses[i].history == Trusted(sha, responses, needed);
    } else {
      FirstWithReports(sha, responses, HistoryHash(sha, responses[|responses| - 1].history.value));
    }
  }

  /** Some hash reaching the threshold is enough for a trusted history. */
  lemma {:induction false} ThresholdIsFound(sha: Sha, responses: seq<Response>, hash: Hash, needed: nat)
    requires Reported(sha, responses, hash) >= needed >= 1
    ensures Trusted(sha, responses, needed).Some?
  {
    var init, last := responses[..|responses| - 1], responses[|responses| - 1];
    if Reported(sha, init, hash) >= needed {
      ThresholdIsFound(sha, init, hash, needed);
    } else {
      assert Reports(sha, last, hash);
      NoneReported(sha, responses, hash);
    }
  }

  /** Responses with one hash carry one header chain. */
  lemma SameHashSameHeaders(sha: Sha, responses: seq<Response>, i: nat, j: nat)
    requires Parsed(responses) && NoCollisions(sha, responses) && i < |responses| && j < |responses|
    requires responses[i].history.Some? && Reports(sha, responses[j], HistoryHash(sha, responses[i].history.value))
    ensures SameHeaders(responses[j].history.value, responses[i].history.value)
  {
    EqualHistoryHashes(sha, responses[j].history.value, responses[i].history.value);
  }

  lemma {:induction false} HonestReporters(sha: Sha, mc: Config, responses: seq<Response>, faulty: set<string>,
      hash: Hash)
    requires OnePerReplica(mc, responses) && |faulty| <= mc.faultCap
    requires Reported(sha, responses, hash) >= 2 * mc.faultCap + 1
    ensures |Reporters(sha, responses, hash) - faulty| >= mc.faultCap + 1
  {
    ReportersCount(sha, responses, hash);
    var all := Reporters(sha, responses, hash);
    SubsetCardinality(all * faulty, faulty);
    assert |all - faulty| == |all| - |all * faulty|;
  }

  /** At least fc + 1 honest members reported the header chain of a trusted history. */
  lemma {:induction false} TrustedHistoryIsAuthentic(sha: Sha, mc: Config, responses: seq<Response>,
      faulty: set<string>)
    requires OnePerReplica(mc, responses) && |faulty| <= mc.faultCap
    requires Parsed(responses) && NoCollisions(sha, responses)
    requires Trusted(sha, responses, 2 * mc.faultCap + 1).Some?
    ensures var hist := Trusted(sha, responses, 2 * mc.faultCap + 1).value;
            && Contiguous(hist)
            && |Reporters(sha, responses, HistoryHash(sha, hist)) - faulty| >= mc.faultCap + 1
            && forall i :: 0 <= i < |responses| && Reports(sha, responses[i], HistoryHash(sha, hist)) ==>
                 SameHeaders(responses[i].history.value, hist)
  {
    var hist := Trusted(sha, responses, 2 * mc.faultCap + 1);
    TrustedIsReported(sha, responses, 2 * mc.faultCap + 1);
    HonestReporters(sha, mc, responses, faulty, HistoryHash(sha, hist.value));
    var k :| 0 <= k < |responses| && responses[k].history == hist;
    forall i | 0 <= i < |responses| && Reports(sha, responses[i], HistoryHash(sha, hist.value))
      ensures SameHeaders(responses[i].history.value, hist.value)
    {
      SameHashSameHeaders(sha, responses, k, i);
    }
  }

  /** If the honest members answer and agree, the threshold is reached, whatever the faulty ones do. */
  lemma {:induction false} HonestReachThreshold(sha: Sha, mc: Config, responses: seq<Response>, faulty: set<string>,
      truth: seq<Block>)
    requires mc == NewCommittee(mc.number, mc.replicas) && mc.replicas != [] && Distinct(Ids(mc.replicas))
    requires OnePerReplica(mc, responses) && |faulty| <= mc.faultCap
    requires Elements(Ids(mc.replicas)) - faulty <= Elements(Senders(responses))
    requires forall i :: 0 <= i < |responses| && responses[i].from !in faulty ==> responses[i].history == Some(truth)
    ensures Reported(sha, responses, HistoryHash(sha, truth)) >= 2 * mc.faultCap + 1
  {
    var hash := HistoryHash(sha, truth);
    QuorumArithmetic(mc.number, mc.replicas);
    DistinctCardinality(Ids(mc.replicas));
    var ids := Elements(Ids(mc.replicas));
    SubsetCardinality(ids * faulty, faulty);
    assert |ids - faulty| == |ids| - |ids * faulty|;
    forall id | id in ids - faulty
      ensures id in Reporters(sha, responses, hash)
    {
      assert id in Elements(Senders(responses));
      var i :| 0 <= i < |responses| && Senders(responses)[i] == id;
      assert Reports(sha, responses[i], hash);
    }
    SubsetCardinality(ids - faulty, Reporters(sha, responses, hash));
    ReportersCount(sha, responses, hash);
  }

  /** The honest members all answer and send the truth; a faulty one may send anything or nothing. */
  ghost predicate HonestAgree(sha: Sha, mc: Config, responses: seq<Response>, faulty: set<string>, truth: seq<Block>) {
    && mc == NewCommittee(mc.number, mc.replicas) && mc.replicas != [] && Distinct(Ids(mc.replicas))
    && OnePerReplica(mc, responses) && Parsed(responses) && NoCollisions(sha, responses) && |faulty| <= mc.faultCap
    && Elements(Ids(mc.replicas)) - faulty <= Elements(Senders(responses))
    && forall i :: 0 <= i < |responses| && responses[i].from !in faulty ==> responses[i].history == Some(truth)
  }

  /** Then a history is found, and it has the honest members' headers. */
  lemma {:induction false} HonestHistoryIsFound(sha: Sha, mc: Config, responses: seq<Response>, faulty: set<string>,
      truth: seq<Block>)
    requires HonestAgree(sha, mc, responses, faulty, truth)
    ensures var hist := Trusted(sha, responses, 2 * mc.faultCap + 1);
            hist.Some? && SameHeaders(truth, hist.value)
  {
    HonestReachThreshold(sha, mc, responses, faulty, truth);
    ThresholdIsFound(sha, responses, HistoryHash(sha, truth), 2 * mc.faultCap + 1);
    TrustedHistoryIsAuthentic(sha, mc, responses, faulty);
    var hash := HistoryHash(sha, Trusted(sha, responses, 2 * mc.faultCap + 1).value);
    var honest := Reporters(sha, responses, hash) - faulty;
    assert honest != {};
    var id :| id in honest;
    var i :| 0 <= i < |responses| && Reports(sha, responses[i], hash) && responses[i].from == id;
    assert responses[i].history == Some(truth);
  }

  /** Two different hashes cannot both reach the threshold when 4fc + 2 > nc. */
  lemma {:induction false} ThresholdIsUnique(sha: Sha, mc: Config, responses: seq<Response>, g: Hash, h: Hash)
    requires OnePerReplica(mc, responses) && 4 * mc.faultCap + 2 > |mc.replicas|
    requires Reported(sha, responses, g) >= 2 * mc.faultCap + 1 && Reported(sha, responses, h) >= 2 * mc.faultCap + 1
    ensures g == h
  {
    var id := CommonReporter(sha, mc, responses, g, h);
    var i :| 0 <= i < |responses| && Reports(sha, responses[i], g) && responses[i].from == id;
    var j :| 0 <= j < |responses| && Reports(sha, responses[j], h) && responses[j].from == id;
    assert Senders(responses)[i] == Senders(responses)[j];
  }

  lemma CommonReporter(sha: Sha, mc: Config, responses: seq<Response>, g: Hash, h: Hash) returns (id: string)
    requires OnePerReplica(mc, responses) && 4 * mc.faultCap + 2 > |mc.replicas|
    requires Reported(sha, responses, g) >= 2 * mc.faultCap + 1 && Reported(sha, responses, h) >= 2 * mc.faultCap + 1
    ensures id in Reporters(sha, responses, g) && id in Reporters(sha, responses, h)
  {
    ReportersCount(sha, responses, g);
    ReportersCount(sha, responses, h);
    var rg, rh := Reporters(sha, responses, g), Reporters(sha, responses, h);
    DistinctCardinality(Ids(mc.replicas));
    assert forall i :: 0 <= i < |responses| ==> responses[i].from == Senders(responses)[i];
    SubsetCardinality(rg + rh, Elements(Ids(mc.replicas)));
    assert |rg + rh| == |rg| + |rh| - |rg * rh|;
    id :| id in rg * rh;
  }

  // ---------------------------------------------------------------- two winners

  /** Every one of these members sends this history. */
  function Sent(ids: seq<string>, hist: seq<Block>): seq<Response> {
    seq(|ids|, i requires 0 <= i < |ids| => Response(ids[i], Some(hist)))
  }

  lemma {:induction false} ReportedBySenders(sha: Sha, ids: seq<string>, hist: seq<Block>, hash: Hash)
    ensures Reported(sha, Sent(ids, hist), hash) == if HistoryHash(sha, hist) == hash then |ids| else 0
  {
    if ids != [] {
      var init := ids[..|ids| - 1];
      ReportedBySenders(sha, init, hist, hash);
      assert Sent(ids, hist)[..|ids| - 1] == Sent(init, hist);
    }
  }

  lemma {:induction false} ReportedConcat(sha: Sha, xs: seq<Response>, ys: seq<Response>, hash: Hash)
    ensures Reported(sha, xs + ys, hash) == Reported(sha, xs, hash) + Reported(sha, ys, hash)
  {
    if ys == [] {
      assert xs + ys == xs;
    } else {
      assert (xs + ys)[..|xs + ys| - 1] == xs + ys[..|ys| - 1];
      ReportedConcat(sha, xs, ys[..|ys| - 1], hash);
    }
  }

  lemma SendersAreTrusted(sha: Sha, ids: seq<string>, hist: seq<Block>, needed: nat)
    requires 1 <= needed <= |ids|
    ensures Trusted(sha, Sent(ids, hist), needed) == Some(hist)
  {
    ReportedBySenders(sha, ids, hist, HistoryHash(sha, hist));
    ThresholdIsFound(sha, Sent(ids, hist), HistoryHash(sha, hist), needed);
    TrustedIsReported(sha, Sent(ids, hist), needed);
  }

  lemma SendersOf(ids: seq<string>, jds: seq<string>, a: seq<Block>, b: seq<Block>)
    ensures Senders(Sent(ids, a) + Sent(jds, b)) == ids + jds
  {
  }

  /** Both halves of 4fc + 2 members, each with its own history. */
  function Split(mc: Config, a: seq<Block>, b: seq<Block>, aFirst: bool): seq<Response>
    requires 4 * mc.faultCap + 2 <= |mc.replicas|
  {
    var ids, n := Ids(mc.replicas), 2 * mc.faultCap + 1;
    if aFirst then Sent(ids[..n], a) + Sent(ids[n..2 * n], b) else Sent(ids[n..2 * n], b) + Sent(ids[..n], a)
  }

  lemma {:induction false} SwappedDistinct(ids: seq<string>, n: nat)
    requires Distinct(ids) && 2 * n <= |ids|
    ensures Distinct(ids[..n] + ids[n..2 * n]) && Distinct(ids[n..2 * n] + ids[..n])
    ensures forall id :: id in ids[..n] || id in ids[n..2 * n] ==> id in ids
  {
    var swapped := ids[n..2 * n] + ids[..n];
    assert ids[..n] + ids[n..2 * n] == ids[..2 * n];
    assert forall k :: 0 <= k < 2 * n ==> swapped[k] == ids[if k < n then n + k else k - n];
  }

  lemma {:induction false} SplitIsOnePerReplica(mc: Config, a: seq<Block>, b: seq<Block>, aFirst: bool)
    requires Distinct(Ids(mc.replicas)) && 4 * mc.faultCap + 2 <= |mc.replicas|
    ensures OnePerReplica(mc, Split(mc, a, b, aFirst))
  {
    var ids, n := Ids(mc.replicas), 2 * mc.faultCap + 1;
    SendersOf(ids[..n], ids[n..2 * n], a, b);
    SendersOf(ids[n..2 * n], ids[..n], b, a);
    SwappedDistinct(ids, n);
  }

  /** With room for it, any two histories can both reach the threshold, and the order of arrival picks the winner. */
  lemma {:induction false} TwoWinners(sha: Sha, mc: Config, a: seq<Block>, b: seq<Block>)
    requires Distinct(Ids(mc.replicas)) && 4 * mc.faultCap + 2 <= |mc.replicas|
    requires HistoryHash(sha, a) != HistoryHash(sha, b)
    ensures var xs, ys, needed := Split(mc, a, b, true), Split(mc, a, b, false), 2 * mc.faultCap + 1;
            && OnePerReplica(mc, xs) && OnePerReplica(mc, ys) && multiset(xs) == multiset(ys)
            && Reported(sha, xs, HistoryHash(sha, a)) == Reported(sha, xs, HistoryHash(sha, b)) == needed
            && Trusted(sha, xs, needed) == Some(a) && Trusted(sha, ys, needed) == Some(b)
  {
    var ids, n := Ids(mc.replicas), 2 * mc.faultCap + 1;
    var left, right := Sent(ids[..n], a), Sent(ids[n..2 * n], b);
    SplitIsOnePerReplica(mc, a, b, true);
    SplitIsOnePerReplica(mc, a, b, false);
    forall hash
      ensures Reported(sha, left + right, hash) == Reported(sha, left, hash) + Reported(sha, right, hash)
    {
      ReportedConcat(sha, left, right, hash);
    }
    ReportedBySenders(sha, ids[..n], a, HistoryHash(sha, a));
    ReportedBySenders(sha, ids[..n], a, HistoryHash(sha, b));
    ReportedBySenders(sha, ids[n..2 * n], b, HistoryHash(sha, a));
    ReportedBySenders(sha, ids[n..2 * n], b, HistoryHash(sha, b));
    SendersAreTrusted(sha, ids[..n], a, n);
    SendersAreTrusted(sha, ids[n..2 * n], b, n);
    assert (left + right)[..n] == left && (right + left)[..n] == right;
    TrustedStays(sha, left + right, n, n);
    TrustedStays(sha, right + left, n, n);
  }

  /** In no run of responses do two hashes reach the threshold. */
  ghost predicate AtMostOneWinner(sha: Sha, mc: Config) {
    forall responses, g, h ::
      && OnePerReplica(mc, responses)
      && Reported(sha, responses, g) >= 2 * mc.faultCap + 1
      && Reported(sha, responses, h) >= 2 * mc.faultCap + 1
      ==> g == h
  }

  /** Given any two histories of different hash, the winner is unique if and only if 4fc + 2 > nc. */
  lemma {:induction false} UniqueWithoutRoom(sha: Sha, mc: Config, a: seq<Block>, b: seq<Block>)
    requires Distinct(Ids(mc.replicas)) && HistoryHash(sha, a) != HistoryHash(sha, b)
    ensures AtMostOneWinner(sha, mc) <==> 4 * mc.faultCap + 2 > |mc.replicas|
  {
    if 4 * mc.faultCap + 2 > |mc.replicas| {
      forall responses, g, h |
        && OnePerReplica(mc, responses)
        && Reported(sha, responses, g) >= 2 * mc.faultCap + 1
        && Reported(sha, responses, h) >= 2 * mc.faultCap + 1
        ensures g == h
      {
        ThresholdIsUnique(sha, mc, responses, g, h);
      }
    } else {
      TwoWinners(sha, mc, a, b);
    }
  }

  /** Among committees of four or more, that is every size but six. */
  lemma {:induction false} SixIsTheException(sha: Sha, number: nat, replicas: seq<Replica>, a: seq<Block>,
      b: seq<Block>)
    requires |replicas| >= 4 && Distinct(Ids(replicas)) && HistoryHash(sha, a) != HistoryHash(sha, b)
    ensures AtMostOneWinner(sha, NewCommittee(number, replicas)) <==> |replicas| != 6
  {
    UniqueWithoutRoom(sha, NewCommittee(number, replicas), a, b);
  }

  lemma SplitCarries(mc: Config, a: seq<Block>, b: seq<Block>)
    requires 4 * mc.faultCap + 2 <= |mc.replicas|
    ensures forall r :: r in Split(mc, a, b, true) ==> r.history == Some(a) || r.history == Some(b)
    ensures Contiguous(a) && Contiguous(b) ==> Parsed(Split(mc, a, b, true))
  {
  }

  /**
   * Six members, nobody faulty, three of them one block behind (`SplitCarries` says what they send): which history
   * is returned depends on who answers first.
   */
  lemma {:induction false} SixSplit(sha: Sha, mc: Config, behind: seq<Block>, ahead: seq<Block>)
    requires mc == NewCommittee(mc.number, mc.replicas) && |mc.replicas| == 6 && Distinct(Ids(mc.replicas))
    requires Contiguous(behind) && Contiguous(ahead) && |ahead| == |behind| + 1 && behind <= ahead
    requires HistoryHash(sha, behind) != HistoryHash(sha, ahead)
    ensures var xs, ys := Split(mc, behind, ahead, true), Split(mc, behind, ahead, false);
            && |xs| == 6 && OnePerReplica(mc, xs) && Parsed(xs) && multiset(xs) == multiset(ys)
            && Trusted(sha, xs, 3) == Some(behind) && Trusted(sha, ys, 3) == Some(ahead)
  {
    TwoWinners(sha, mc, behind, ahead);
    SplitCarries(mc, behind, ahead);
  }

  // ---------------------------------------------------------------- whose batches are returned

  lemma {:induction false} HeadersFixDigests(sha: Sha, a: seq<Block>, b: seq<Block>)
    requires SameHeaders(a, b)
    ensures Digests(sha, a) == Digests(sha, b) && HistoryHash(sha, a) == HistoryHash(sha, b)
  {
    if a != [] {
      HeadersFixDigests(sha, a[..|a| - 1], b[..|b| - 1]);
    }
  }

  lemma {:induction false} FirstWithAt(sha: Sha, responses: seq<Response>, hash: Hash, i: nat)
    requires i < |responses| && Reports(sha, responses[i], hash)
    requires forall j :: 0 <= j < i ==> !Reports(sha, responses[j], hash)
    ensures FirstWith(sha, responses, hash) == responses[i].history
  {
    var init := responses[..|responses| - 1];
    if i < |init| {
      FirstWithAt(sha, init, hash, i);
    } else {
      NobodyYet(sha, init, hash);
    }
  }

  lemma {:induction false} NobodyYet(sha: Sha, responses: seq<Response>, hash: Hash)
    requires forall j :: 0 <= j < |responses| ==> !Reports(sha, responses[j], hash)
    ensures FirstWith(sha, responses, hash) == None
  {
    if responses != [] {
      NobodyYet(sha, responses[..|responses| - 1], hash);
    }
  }

  /** A trusted history is the first reported one of its hash. */
  lemma {:induction false} TrustedIsFirst(sha: Sha, responses: seq<Response>, needed: nat)
    requires Trusted(sha, responses, needed).Some?
    ensures Trusted(sha, responses, needed) ==
            FirstWith(sha, responses, HistoryHash(sha, Trusted(sha, responses, needed).value))
  {
    var init := responses[..|responses| - 1];
    if Trusted(sha, init, needed).Some? {
      TrustedIsFirst(sha, init, needed);
    } else {
      FirstWithReports(sha, responses, HistoryHash(sha, responses[|responses| - 1].history.value));
    }
  }

  ghost predicate HasHeadersOf(r: Response, hist: seq<Block>) {
    r.history.Some? && SameHeaders(r.history.value, hist)
  }

  /**
   * All reporters of the returned hash sent the returned blocks if and only if no response has its headers and
   * differs.
   */
  lemma {:induction false} BatchesAreFixedIff(sha: Sha, responses: seq<Response>, needed: nat)
    requires Parsed(responses) && NoCollisions(sha, responses) && Trusted(sha, responses, needed).Some?
    ensures var hist := Trusted(sha, responses, needed).value;
            (forall r :: r in responses && Reports(sha, r, HistoryHash(sha, hist)) ==> r.history == Some(hist)) <==>
            (forall r :: r in responses && HasHeadersOf(r, hist) ==> r.history == Some(hist))
  {
    var hist := Trusted(sha, responses, needed).value;
    TrustedIsReported(sha, responses, needed);
    var k :| 0 <= k < |responses| && responses[k].history == Some(hist);
    forall r | r in responses
      ensures Reports(sha, r, HistoryHash(sha, hist)) <==> HasHeadersOf(r, hist)
    {
      var i :| 0 <= i < |responses| && responses[i] == r;
      if Reports(sha, r, HistoryHash(sha, hist)) {
        SameHashSameHeaders(sha, responses, k, i);
      }
      if HasHeadersOf(r, hist) {
        HeadersFixDigests(sha, r.history.value, hist);
      }
    }
  }

  lemma {:induction false} HonestAnswer(sha: Sha, mc: Config, responses: seq<Response>, faulty: set<string>,
      truth: seq<Block>) returns (k: nat)
    requires HonestAgree(sha, mc, responses, faulty, truth)
    ensures k < |responses| && responses[k].history == Some(truth)
  {
    HonestReachThreshold(sha, mc, responses, faulty, truth);
    HonestReporters(sha, mc, responses, faulty, HistoryHash(sha, truth));
    var honest := Reporters(sha, responses, HistoryHash(sha, truth)) - faulty;
    assert honest != {};
    var id :| id in honest;
    k :| 0 <= k < |responses| && Reports(sha, responses[k], HistoryHash(sha, truth)) && responses[k].from == id;
  }

  /** Then the first response with the honest headers decides which blocks are returned, whoever sent it. */
  lemma {:induction false} FirstReporterDecides(sha: Sha, mc: Config, responses: seq<Response>, faulty: set<string>,
      truth: seq<Block>, i: nat)
    requires HonestAgree(sha, mc, responses, faulty, truth)
    requires i < |responses| && HasHeadersOf(responses[i], truth)
    requires forall j :: 0 <= j < i ==> !HasHeadersOf(responses[j], truth)
    ensures Trusted(sha, responses, 2 * mc.faultCap + 1) == responses[i].history
  {
    var hash := HistoryHash(sha, truth);
    HonestHistoryIsFound(sha, mc, responses, faulty, truth);
    TrustedIsFirst(sha, responses, 2 * mc.faultCap + 1);
    HeadersFixDigests(sha, truth, Trusted(sha, responses, 2 * mc.faultCap + 1).value);
    HeadersFixDigests(sha, responses[i].history.value, truth);
    var k := HonestAnswer(sha, mc, responses, faulty, truth);
    forall j | 0 <= j < i
      ensures !Reports(sha, responses[j], hash)
    {
      if Reports(sha, responses[j], hash) {
        SameHashSameHeaders(sha, responses, k, j);
      }
    }
    FirstWithAt(sha, responses, hash, i);
  }

  /** In every committee that tolerates a fault, one faulty member that answers first has its own batches returned. */
  lemma {:induction false} ForgedBatchWins(sha: Sha, mc: Config, truth: seq<Block>, forged: seq<Block>) returns
      (responses: seq<Response>, faulty: set<string>)
    requires mc == NewCommittee(mc.number, mc.replicas) && mc.faultCap >= 1 && Distinct(Ids(mc.replicas))
    requires Contiguous(truth) && SameHeaders(forged, truth) && Distinguishes(sha, forged, truth)
    ensures HonestAgree(sha, mc, responses, faulty, truth)
    ensures Trusted(sha, responses, 2 * mc.faultCap + 1) == Some(forged)
  {
    var ids := Ids(mc.replicas);
    faulty := {ids[0]};
    responses := Sent(ids[..1], forged) + Sent(ids[1..], truth);
    SendersOf(ids[..1], ids[1..], forged, truth);
    assert ids[..1] + ids[1..] == ids;
    assert SameHeaders(responses[0].history.value, truth);
    ForgedAgrees(sha, mc, responses, truth, forged);
    FirstReporterDecides(sha, mc, responses, faulty, truth, 0);
  }

  lemma ForgedAgrees(sha: Sha, mc: Config, responses: seq<Response>, truth: seq<Block>, forged: seq<Block>)
    requires Contiguous(truth) && SameHeaders(forged, truth) && Distinguishes(sha, forged, truth)
    requires forall r :: r in responses ==> r.history == Some(truth) || r.history == Some(forged)
    ensures Parsed(responses) && NoCollisions(sha, responses)
  {
    HeadersFixDigests(sha, forged, truth);
  }

  // ---------------------------------------------------------------- the latest-block tally

  /** None stands for an error; a responder may also have no block to send. */
  datatype Update = Update(from: string, reply: Option<Option<Block>>)

  function Good(updates: seq<Update>): nat {
    if updates == [] then 0 else Good(updates[..|updates| - 1]) + if updates[|updates| - 1].reply.Some? then 1 else 0
  }

  function BlockOf(u: Update): Option<Block> {
    match u.reply
    case None => None
    case Some(b) => b
  }

  function Best(updates: seq<Update>): Option<Block> {
    if updates == [] then None
    else
      var before, b := Best(updates[..|updates| - 1]), BlockOf(updates[|updates| - 1]);
      if b.Some? && (before == None || b.value.height > before.value.height) then b else before
  }

  /** The best block at the first moment when enough good responses and a block are in. */
  function Latest(updates: seq<Update>, needed: int): Option<Block> {
    if updates == [] then None
    else
      var before := Latest(updates[..|updates| - 1], needed);
      if before.Some? then before
      else if Good(updates) >= needed then Best(updates)
      else None
  }

  lemma {:induction false} LatestStays(updates: seq<Update>, i: nat, needed: int)
    requires i <= |updates| && Latest(updates[..i], needed).Some?
    ensures Latest(updates, needed) == Latest(updates[..i], needed)
  {
    if i == |updates| {
      assert updates[..i] == updates;
    } else {
      assert updates[..|updates| - 1][..i] == updates[..i];
      LatestStays(updates[..|updates| - 1], i, needed);
    }
  }

  /** An error changes nothing, so skipping the test after one is sound. */
  lemma {:induction false} NotYetLatest(updates: seq<Update>, needed: int)
    requires Latest(updates, needed) == None
    ensures Good(updates) < needed || Best(updates) == None
  {
  }

  /** The loop of `Syncer.RequestUpdate`; when the responses run out early, the context has ended. */
  method RequestUpdate(mc: Config, updates: seq<Update>) returns (block: Option<Block>)
    requires |updates| <= |mc.replicas|
    ensures block == Latest(updates, |mc.replicas| - mc.faultCap)
  {
    var needed := |mc.replicas| - mc.faultCap;
    var bestBlock: Option<Block> := None;
    var received, good := 0, 0;
    while received < |mc.replicas|
      invariant received <= |updates|
      invariant good == Good(updates[..received]) && bestBlock == Best(updates[..received])
      invariant Latest(updates[..received], needed) == None
    {
      NotYetLatest(updates[..received], needed);
      if received == |updates| {
        assert updates[..received] == updates;
        if good >= needed && bestBlock.Some? {
          return bestBlock;
        }
        return None;
      }
      var r := updates[received];
      assert updates[..received + 1][..received] == updates[..received];
      received := received + 1;
      if r.reply == None {
        continue;
      }
      good := good + 1;
      if r.reply.value.Some? {
        if bestBlock == None || r.reply.value.value.height > bestBlock.value.height {
          bestBlock := r.reply.value;
        }
      }
      if good >= needed && bestBlock.Some? {
        LatestStays(updates, received, needed);
        return bestBlock;
      }
    }
    assert updates[..|updates|] == updates;
    NotYetLatest(updates, needed);
    if good >= needed && bestBlock.Some? {
      assert false;
    }
    block := None;
  }

  /** The loop of `Discovery.requestUpdates`, over a channel that closes after the last response. */
  method DiscoverUpdate(mc: Config, updates: seq<Update>) returns (block: Option<Block>)
    ensures block == Latest(updates, |mc.replicas| - mc.faultCap)
  {
    var needed := |mc.replicas| - mc.faultCap;
    var bestBlock: Option<Block> := None;
    var good := 0;
    for i := 0 to |updates|
      invariant good == Good(updates[..i]) && bestBlock == Best(updates[..i])
      invariant Latest(updates[..i], needed) == None
    {
      var r := updates[i];
      assert updates[..i + 1][..i] == updates[..i];
      NotYetLatest(updates[..i], needed);
      if r.reply == None {
        continue;
      }
      good := good + 1;
      if r.reply.value.Some? {
        if bestBlock == None || r.reply.value.value.height > bestBlock.value.height {
          bestBlock := r.reply.value;
        }
      }
      if good >= needed && bestBlock.Some? {
        LatestStays(updates, i + 1, needed);
        return bestBlock;
      }
    }
    assert updates[..|updates|] == updates;
    NotYetLatest(updates, needed);
    if good >= needed && bestBlock.Some? {
      assert false;
    }
    block := None;
  }

  lemma {:induction false} BestIsHighest(updates: seq<Update>, i: nat)
    requires i < |updates| && BlockOf(updates[i]).Some?
    ensures Best(updates).Some? && BlockOf(updates[i]).value.height <= Best(updates).value.height
  {
    if i < |updates| - 1 {
      BestIsHighest(updates[..|updates| - 1], i);
    }
  }

  /** The best block is the first of the highest. */
  lemma {:induction false} BestIsFirst(updates: seq<Update>) returns (i: nat)
    requires Best(updates).Some?
    ensures i < |updates| && BlockOf(updates[i]) == Best(updates)
    ensures forall j :: 0 <= j < i && BlockOf(updates[j]).Some? ==>
              BlockOf(updates[j]).value.height < Best(updates).value.height
  {
    var init, last := updates[..|updates| - 1], updates[|updates| - 1];
    var before, b := Best(init), BlockOf(last);
    if b.Some? && (before == None || b.value.height > before.value.height) {
      i := |init|;
      forall j | 0 <= j < i && BlockOf(updates[j]).Some?
        ensures BlockOf(updates[j]).value.height < b.value.height
      {
        assert init[j] == updates[j];
        BestIsHighest(init, j);
      }
    } else {
      i := BestIsFirst(init);
      assert forall j :: 0 <= j < |init| ==> init[j] == updates[j];
    }
  }

  lemma {:induction false} BestWasSent(updates: seq<Update>)
    requires Best(updates).Some?
    ensures exists i :: 0 <= i < |updates| && BlockOf(updates[i]) == Best(updates)
  {
    var init, last := updates[..|updates| - 1], updates[|updates| - 1];
    if Best(updates) == BlockOf(last) {
      assert BlockOf(updates[|updates| - 1]) == Best(updates);
    } else {
      BestWasSent(init);
      var i :| 0 <= i < |init| && BlockOf(init[i]) == Best(init);
      assert BlockOf(updates[i]) == Best(updates);
    }
  }

  /** The prefix of responses that decided. */
  lemma {:induction false} LatestPrefix(updates: seq<Update>, needed: int) returns (k: nat)
    requires Latest(updates, needed).Some?
    ensures k <= |updates| && Good(updates[..k]) >= needed && Best(updates[..k]) == Latest(updates, needed)
  {
    var init := updates[..|updates| - 1];
    if Latest(init, needed).Some? {
      k := LatestPrefix(init, needed);
      assert init[..k] == updates[..k];
    } else {
      k := |updates|;
      assert updates[..k] == updates;
    }
  }

  /** The positions of the answers that are no error. */
  function Answers(updates: seq<Update>): set<int> {
    set i | 0 <= i < |updates| && updates[i].reply.Some?
  }

  lemma {:induction false} AnswersNext(init: seq<Update>, last: Update)
    ensures Answers(init + [last]) == Answers(init) + if last.reply.Some? then {|init|} else {}
  {
    var all := init + [last];
    assert forall i :: 0 <= i < |init| ==> all[i] == init[i];
    assert all[|init|] == last;
  }

  lemma {:induction false} GoodAreAnswers(updates: seq<Update>)
    ensures Good(updates) == |Answers(updates)|
  {
    if updates != [] {
      var init, last := updates[..|updates| - 1], updates[|updates| - 1];
      GoodAreAnswers(init);
      AnswersNext(init, last);
      assert updates == init + [last];
    }
  }

  /** So many answers without an error, and a block in one of them. */
  ghost predicate Enough(updates: seq<Update>, needed: int) {
    |Answers(updates)| >= needed && exists i :: 0 <= i < |updates| && BlockOf(updates[i]).Some?
  }

  lemma {:induction false} EnoughIsGood(updates: seq<Update>, needed: int)
    ensures Enough(updates, needed) <==> Good(updates) >= needed && Best(updates).Some?
  {
    GoodAreAnswers(updates);
    if Best(updates).Some? {
      BestWasSent(updates);
    }
    if i :| 0 <= i < |updates| && BlockOf(updates[i]).Some? {
      BestIsHighest(updates, i);
    }
  }

  /** A block is found if and only if there are enough answers at some point, and at the first such point. */
  lemma {:induction false} UpdateIsFoundIff(updates: seq<Update>, needed: int) returns (k: nat)
    ensures k <= |updates| && forall j :: 0 <= j < k ==> !Enough(updates[..j], needed)
    ensures if Enough(updates[..k], needed) then Latest(updates, needed) == Best(updates[..k])
            else k == |updates| && Latest(updates, needed) == None
  {
    k := 0;
    while k < |updates| && !Enough(updates[..k], needed)
      invariant k <= |updates| && forall j :: 0 <= j < k ==> !Enough(updates[..j], needed)
      invariant k > 0 ==> Latest(updates[..k - 1], needed) == None
    {
      EnoughIsGood(updates[..k], needed);
      assert k > 0 ==> updates[..k][..k - 1] == updates[..k - 1];
      k := k + 1;
    }
    EnoughIsGood(updates[..k], needed);
    assert k > 0 ==> updates[..k][..k - 1] == updates[..k - 1];
    assert updates[..|updates|] == updates;
    if Enough(updates[..k], needed) {
      LatestStays(updates, k, needed);
    }
  }

  function Answered(updates: seq<Update>): set<string> {
    set i | 0 <= i < |updates| && updates[i].reply.Some? :: updates[i].from
  }

  function UpdateSenders(updates: seq<Update>): seq<string> {
    seq(|updates|, i requires 0 <= i < |updates| => updates[i].from)
  }

  lemma {:induction false} AnsweredCount(updates: seq<Update>)
    requires Distinct(UpdateSenders(updates))
    ensures |Answered(updates)| == Good(updates)
  {
    if updates != [] {
      var init, last := updates[..|updates| - 1], updates[|updates| - 1];
      assert UpdateSenders(updates) == UpdateSenders(init) + [last.from];
      DistinctAppend(UpdateSenders(init), last.from);
      AnsweredCount(init);
      AnsweredAppend(init, last);
      assert updates == init + [last];
    }
  }

  lemma AnsweredAppend(init: seq<Update>, last: Update)
    requires last.from !in UpdateSenders(init)
    ensures last.from !in Answered(init)
    ensures Answered(init + [last]) == Answered(init) + if last.reply.Some? then {last.from} else {}
  {
    var all := init + [last];
    assert forall i :: 0 <= i < |init| ==> all[i] == init[i] && UpdateSenders(init)[i] == init[i].from;
    assert all[|init|] == last;
  }

  lemma {:induction false} HonestRemain(all: set<string>, faulty: set<string>, bound: nat)
    requires |faulty| <= bound
    ensures |all - faulty| >= |all| - bound
  {
    SubsetCardinality(all * faulty, faulty);
    assert |all - faulty| == |all| - |all * faulty|;
  }

  lemma PrefixSenders(updates: seq<Update>, k: nat)
    requires Distinct(UpdateSenders(updates)) && k <= |updates|
    ensures Distinct(UpdateSenders(updates[..k]))
  {
    assert forall i :: 0 <= i < k ==> UpdateSenders(updates[..k])[i] == UpdateSenders(updates)[i];
  }

  lemma SentWithin(updates: seq<Update>, k: nat)
    requires k <= |updates| && Best(updates[..k]).Some?
    ensures exists i :: 0 <= i < |updates| && BlockOf(updates[i]) == Best(updates[..k])
  {
    BestWasSent(updates[..k]);
    var i :| 0 <= i < k && BlockOf(updates[..k][i]) == Best(updates[..k]);
    assert BlockOf(updates[i]) == Best(updates[..k]);
  }

  lemma {:induction false} AnsweredWithin(updates: seq<Update>, k: nat, id: string)
    requires k <= |updates| && id in Answered(updates[..k])
    ensures exists i :: 0 <= i < |updates| && updates[i].from == id && updates[i].reply.Some?
  {
    var j :| 0 <= j < k && updates[..k][j].reply.Some? && updates[..k][j].from == id;
    assert updates[j].from == id;
  }

  /** A replica that answered within the prefix sent nothing higher than the best block of the prefix. */
  lemma BestDominates(updates: seq<Update>, k: nat, i: nat)
    requires Distinct(UpdateSenders(updates)) && k <= |updates| && i < |updates|
    requires updates[i].from in Answered(updates[..k]) && BlockOf(updates[i]).Some?
    ensures Best(updates[..k]).Some? && BlockOf(updates[i]).value.height <= Best(updates[..k]).value.height
  {
    var j :| 0 <= j < k && updates[..k][j].reply.Some? && updates[..k][j].from == updates[i].from;
    assert UpdateSenders(updates)[i] == UpdateSenders(updates)[j];
    BestIsHighest(updates[..k], i);
  }

  /**
   * The block found was sent by someone and is at least as high as what any of fc + 1 or more honest answers carried.
   */
  lemma {:induction false} LatestIsHigh(mc: Config, updates: seq<Update>, faulty: set<string>)
      returns (honest: set<string>)
    requires mc == NewCommittee(mc.number, mc.replicas) && mc.replicas != []
    requires Distinct(UpdateSenders(updates)) && |faulty| <= mc.faultCap
    requires Latest(updates, |mc.replicas| - mc.faultCap).Some?
    ensures var block := Latest(updates, |mc.replicas| - mc.faultCap).value;
            && honest !! faulty && |honest| >= mc.faultCap + 1
            && (forall id :: id in honest ==>
                  exists i :: 0 <= i < |updates| && updates[i].from == id && updates[i].reply.Some?)
            && (forall i :: 0 <= i < |updates| && updates[i].from in honest && BlockOf(updates[i]).Some? ==>
                  BlockOf(updates[i]).value.height <= block.height)
            && (exists i :: 0 <= i < |updates| && BlockOf(updates[i]) == Some(block))
  {
    var k := LatestPrefix(updates, |mc.replicas| - mc.faultCap);
    var prefix := updates[..k];
    QuorumArithmetic(mc.number, mc.replicas);
    PrefixSenders(updates, k);
    AnsweredCount(prefix);
    honest := Answered(prefix) - faulty;
    HonestRemain(Answered(prefix), faulty, mc.faultCap);
    forall i | 0 <= i < |updates| && updates[i].from in honest && BlockOf(updates[i]).Some?
      ensures BlockOf(updates[i]).value.height <= Best(prefix).value.height
    {
      BestDominates(updates, k, i);
    }
    forall id | id in honest
      ensures exists i :: 0 <= i < |updates| && updates[i].from == id && updates[i].reply.Some?
    {
      AnsweredWithin(updates, k, id);
    }
    SentWithin(updates, k);
  }
}
