/** Reputation scores and the leader selection built on them. Scores are exact reals. */
module Reputation {
  import opened Types
  import opened Committee

  const ALPHA: real := 0.6
  const BETA: real := 0.4

  datatype Stats = Stats(rounds: nat, commits: nat, timeouts: nat, lastLed: nat) {

    function CommitRate(): real {
      if rounds == 0 then 1.0 else commits as real / rounds as real
    }

    function Novelty(currentHeight: nat): real {
      if currentHeight == 0 then 1.0
      else
        var gap := if lastLed > currentHeight then 0 else currentHeight - lastLed;
        gap as real / currentHeight as real
    }
  }

  type StatsMap = map<string, Stats>

  function Get(stats: StatsMap, id: string): Stats {
    if id in stats then stats[id] else Stats(0, 0, 0, 0)
  }

  function WithLeaderRound(stats: StatsMap, id: string): StatsMap {
    var st := Get(stats, id);
    stats[id := st.(rounds := st.rounds + 1)]
  }

  function WithCommit(stats: StatsMap, id: string, height: nat): StatsMap {
    var st := Get(stats, id);
    stats[id := st.(commits := st.commits + 1, lastLed := if height > st.lastLed then height else st.lastLed)]
  }

  function WithTimeout(stats: StatsMap, id: string): StatsMap {
    var st := Get(stats, id);
    stats[id := st.(timeouts := st.timeouts + 1)]
  }

  function Score(stats: StatsMap, id: string, currentHeight: nat): real {
    if id !in stats then ALPHA * 1.0 + BETA * 1.0
    else ALPHA * stats[id].CommitRate() + BETA * stats[id].Novelty(currentHeight)
  }

  /** Commits of rounds, and heights led by others of heights: all of one without rounds, or at height 0. */
  datatype Parts = Parts(commits: nat, rounds: nat, gap: nat, height: nat)

  function PartsOf(st: Stats, height: nat): (r: Parts)
    ensures r.rounds > 0 && r.height > 0
  {
    var gap := if st.lastLed > height then 0 else height - st.lastLed;
    var (commits, rounds) := if st.rounds == 0 then (1, 1) else (st.commits, st.rounds);
    if height == 0 then Parts(commits, rounds, 1, 1) else Parts(commits, rounds, gap, height)
  }

  lemma {:induction false} ScoreOfParts(stats: StatsMap, id: string, height: nat)
    ensures var r := PartsOf(Get(stats, id), height);
            Score(stats, id, height) ==
            0.6 * (r.commits as real / r.rounds as real) + 0.4 * (r.gap as real / r.height as real)
  {
  }

  lemma {:induction false} Scale(x: real, y: real, z: real)
    requires y > 0.0
    ensures (x / y) * (y * z) == x * z
  {
    var q := x / y;
    assert q * y == x;
    assert q * (y * z) == (q * y) * z;
  }

  /** A score times five, its own two denominators, and another one. */
  lemma {:induction false} ScaledScore(p: real, q: real, g: real, h: real, r: real)
    requires q > 0.0 && h > 0.0
    ensures (0.6 * (p / q) + 0.4 * (g / h)) * (5.0 * (q * h * r)) == 3.0 * (p * h * r) + 2.0 * (g * q * r)
  {
    var x, y, c := p / q, g / h, q * h * r;
    Scale(p, q, h * r);
    Scale(g, h, q * r);
    assert c == q * (h * r) && c == h * (q * r);
    assert x * c == p * h * r && y * c == g * q * r;
    assert (0.6 * x + 0.4 * y) * (5.0 * c) == 3.0 * (x * c) + 2.0 * (y * c);
  }

  lemma {:induction false} CompareScaled(s: real, t: real, c: real)
    requires c > 0.0
    ensures s > t <==> s * c > t * c
  {
    assert (s - t) * c == s * c - t * c;
  }

  lemma {:induction false} Positive(q: real, h: real, r: real)
    requires q > 0.0 && h > 0.0 && r > 0.0
    ensures 5.0 * (q * h * r) > 0.0
  {
    assert q * h > 0.0;
  }

  lemma {:induction false} CompareReal(s: real, t: real, p: real, q: real, g: real, h: real, p': real, q': real,
      g': real)
    requires q > 0.0 && h > 0.0 && q' > 0.0
    requires s == 0.6 * (p / q) + 0.4 * (g / h) && t == 0.6 * (p' / q') + 0.4 * (g' / h)
    ensures s > t <==> 3.0 * (p * h * q') + 2.0 * (g * q * q') > 3.0 * (p' * h * q) + 2.0 * (g' * q' * q)
  {
    Positive(q, h, q');
    CompareScaled(s, t, 5.0 * (q * h * q'));
    ScaledScore(p, q, g, h, q');
    ScaledScore(p', q', g', h, q);
    assert q' * h * q == q * h * q';
  }

  lemma {:induction false} ProductAsReal(x: nat, y: nat, z: nat)
    ensures (x * y * z) as real == x as real * y as real * z as real
  {
  }

  lemma {:induction false} CompareWhole(s: real, t: real, p: nat, q: nat, g: nat, h: nat, p': nat, q': nat, g': nat)
    requires q > 0 && h > 0 && q' > 0
    requires s == 0.6 * (p as real / q as real) + 0.4 * (g as real / h as real)
    requires t == 0.6 * (p' as real / q' as real) + 0.4 * (g' as real / h as real)
    ensures s > t <==> 3 * (p * h * q') + 2 * (g * q * q') > 3 * (p' * h * q) + 2 * (g' * q' * q)
  {
    CompareReal(s, t, p as real, q as real, g as real, h as real, p' as real, q' as real, g' as real);
    ProductAsReal(p, h, q');
    ProductAsReal(g, q, q');
    ProductAsReal(p', h, q);
    ProductAsReal(g', q', q);
  }

  /** Who has the higher score, in whole numbers: three parts commit rate and two parts novelty, over one height. */
  lemma {:induction false} HigherScoreIff(stats: StatsMap, a: string, b: string, height: nat)
    ensures var r, s := PartsOf(Get(stats, a), height), PartsOf(Get(stats, b), height);
            Score(stats, a, height) > Score(stats, b, height) <==>
            3 * (r.commits * r.height * s.rounds) + 2 * (r.gap * r.rounds * s.rounds) >
            3 * (s.commits * r.height * r.rounds) + 2 * (s.gap * s.rounds * r.rounds)
  {
    var r, s := PartsOf(Get(stats, a), height), PartsOf(Get(stats, b), height);
    ScoreOfParts(stats, a, height);
    ScoreOfParts(stats, b, height);
    CompareWhole(Score(stats, a, height), Score(stats, b, height), r.commits, r.rounds, r.gap, r.height, s.commits,
                 s.rounds, s.gap);
  }

  // ---------------------------------------------------------------- order of candidates

  /** Go's `<` on strings. */
  predicate StringLess(a: string, b: string) {
    if b == [] then false
    else if a == [] then true
    else if a[0] != b[0] then a[0] < b[0]
    else StringLess(a[1..], b[1..])
  }

  lemma {:induction false} StringOrder(a: string, b: string, c: string)
    ensures !StringLess(a, a)
    ensures StringLess(a, b) || StringLess(b, a) || a == b
    ensures StringLess(a, b) && StringLess(b, c) ==> StringLess(a, c)
  {
    if a != [] {
      StringOrder(a[1..], if b == [] then [] else b[1..], if c == [] then [] else c[1..]);
      assert b != [] ==> (a == b <==> a[0] == b[0] && a[1..] == b[1..]) by {
        if b != [] && a[0] == b[0] && a[1..] == b[1..] {
          assert a == [a[0]] + a[1..] == b;
        }
      }
    }
  }

  /** Byte order: a proper prefix, or smaller at the first difference. */
  ghost predicate LessAt(a: string, b: string, k: nat) {
    && k <= |a| && k < |b| && a[..k] == b[..k]
    && (k < |a| ==> a[k] < b[k])
  }

  lemma {:induction false} HeadsAgree(a: string, b: string, k: nat)
    requires LessAt(a, b, k) && k > 0
    ensures a[0] == b[0] && LessAt(a[1..], b[1..], k - 1)
  {
    assert a[0] == a[..k][0] == b[..k][0] == b[0];
    assert a[1..][..k - 1] == a[..k][1..] && b[1..][..k - 1] == b[..k][1..];
  }

  lemma {:induction false} HeadsJoin(a: string, b: string, k: nat)
    requires a != [] && b != [] && a[0] == b[0] && LessAt(a[1..], b[1..], k)
    ensures LessAt(a, b, k + 1)
  {
    assert a[..k + 1] == [a[0]] + a[1..][..k] && b[..k + 1] == [b[0]] + b[1..][..k];
  }

  /** Go's order on strings. */
  lemma {:induction false} StringLessIff(a: string, b: string)
    ensures StringLess(a, b) <==> exists k: nat :: LessAt(a, b, k)
  {
    if a != [] && b != [] && a[0] == b[0] {
      StringLessIff(a[1..], b[1..]);
      if k: nat :| LessAt(a[1..], b[1..], k) {
        HeadsJoin(a, b, k);
      }
      if k: nat :| LessAt(a, b, k) {
        HeadsAgree(a, b, k);
      }
    } else {
      if StringLess(a, b) {
        assert LessAt(a, b, 0);
      }
      if k: nat :| LessAt(a, b, k) {
        if k > 0 {
          HeadsAgree(a, b, k);
        }
      }
    }
  }

  datatype Candidate = Candidate(replica: Replica, score: real)

  /** Higher score first, then smaller id. */
  predicate Before(a: Candidate, b: Candidate) {
    if a.score != b.score then a.score > b.score else StringLess(a.replica.id, b.replica.id)
  }

  lemma BeforeOrder(a: Candidate, b: Candidate, c: Candidate)
    ensures !Before(a, a)
    ensures Before(a, b) || Before(b, a) || (a.score == b.score && a.replica.id == b.replica.id)
    ensures Before(a, b) && Before(b, c) ==> Before(a, c)
  {
    StringOrder(a.replica.id, b.replica.id, c.replica.id);
  }

  ghost predicate SortedCandidates(s: seq<Candidate>) {
    forall i, j :: 0 <= i < j < |s| ==> !Before(s[j], s[i])
  }

  function Insert(s: seq<Candidate>, x: Candidate): seq<Candidate> {
    if s == [] || !Before(x, s[|s| - 1]) then s + [x] else Insert(s[..|s| - 1], x) + [s[|s| - 1]]
  }

  lemma SortedAppend(t: seq<Candidate>, init: seq<Candidate>, x: Candidate, last: Candidate)
    requires SortedCandidates(t) && multiset(t) == multiset(init) + multiset{x}
    requires SortedCandidates(init + [last]) && !Before(last, x)
    ensures SortedCandidates(t + [last])
  {
    forall i | 0 <= i < |t|
      ensures !Before(last, t[i])
    {
      assert t[i] in multiset(t);
      if t[i] != x {
        assert t[i] in init;
        var k :| 0 <= k < |init| && init[k] == t[i];
        assert (init + [last])[k] == t[i] && (init + [last])[|init|] == last;
      }
    }
  }

  lemma {:induction false} InsertSorts(s: seq<Candidate>, x: Candidate)
    requires SortedCandidates(s)
    ensures multiset(Insert(s, x)) == multiset(s) + multiset{x}
    ensures SortedCandidates(Insert(s, x))
  {
    if s == [] || !Before(x, s[|s| - 1]) {
      forall i | 0 <= i < |s|
        ensures !Before(x, s[i])
      {
        if i < |s| - 1 {
          BeforeOrder(x, s[i], s[|s| - 1]);
          BeforeOrder(s[|s| - 1], s[i], x);
          BeforeOrder(s[i], s[|s| - 1], x);
        }
      }
    } else {
      var init, last := s[..|s| - 1], s[|s| - 1];
      InsertSorts(init, x);
      assert s == init + [last];
      BeforeOrder(x, last, x);
      SortedAppend(Insert(init, x), init, x, last);
    }
  }

  /** `Select`'s loop and sort; `sort.Slice` stands here as insertion. */
  method RankCandidates(replicas: seq<Replica>, stats: StatsMap, currentHeight: nat) returns (ranked: seq<Candidate>)
    ensures SortedCandidates(ranked)
    ensures multiset(ranked) == multiset(Candidates(replicas, stats, currentHeight))
  {
    var candidates := new Candidate[|replicas|](_ => Candidate(Replica("", "", None), 0.0));
    for i := 0 to |replicas|
      invariant candidates[..i] == Candidates(replicas, stats, currentHeight)[..i]
    {
      candidates[i] := Candidate(replicas[i], Score(stats, replicas[i].id, currentHeight));
    }
    var all := candidates[..];
    ranked := [];
    for i := 0 to |all|
      invariant SortedCandidates(ranked) && multiset(ranked) == multiset(all[..i])
    {
      InsertSorts(ranked, all[i]);
      assert all[..i + 1] == all[..i] + [all[i]];
      ranked := Insert(ranked, all[i]);
    }
    assert all[..|all|] == all == Candidates(replicas, stats, currentHeight);
  }

  function Candidates(replicas: seq<Replica>, stats: StatsMap, currentHeight: nat): seq<Candidate> {
    seq(|replicas|, i requires 0 <= i < |replicas| =>
      Candidate(replicas[i], Score(stats, replicas[i].id, currentHeight)))
  }

  /** No member ranks before r: what any sorting algorithm puts first. */
  ghost predicate IsBest(r: Replica, replicas: seq<Replica>, stats: StatsMap, currentHeight: nat) {
    r in replicas &&
    forall q :: q in replicas ==>
      !Before(Candidate(q, Score(stats, q.id, currentHeight)), Candidate(r, Score(stats, r.id, currentHeight)))
  }

  method Select(replicas: seq<Replica>, stats: StatsMap, currentHeight: nat) returns (leader: Option<Replica>)
    ensures leader == None <==> replicas == []
    ensures leader.Some? ==> IsBest(leader.value, replicas, stats, currentHeight)
  {
    if replicas == [] {
      return None;
    }
    var ranked := RankCandidates(replicas, stats, currentHeight);
    ghost var all := Candidates(replicas, stats, currentHeight);
    assert all[0] in multiset(all);
    var first := ranked[0];
    assert first in multiset(ranked);
    forall q | q in replicas
      ensures !Before(Candidate(q, Score(stats, q.id, currentHeight)), first)
    {
      var k :| 0 <= k < |replicas| && replicas[k] == q;
      assert all[k] in multiset(all);
      var m :| 0 <= m < |ranked| && ranked[m] == all[k];
      BeforeOrder(first, first, first);
    }
    leader := Some(first.replica);
  }

  /** With distinct ids there is one best member. */
  lemma {:induction false} BestIsUnique(r: Replica, q: Replica, replicas: seq<Replica>, stats: StatsMap,
      currentHeight: nat)
    requires Distinct(Ids(replicas))
    requires IsBest(r, replicas, stats, currentHeight) && IsBest(q, replicas, stats, currentHeight)
    ensures r == q
  {
    var cr, cq := Candidate(r, Score(stats, r.id, currentHeight)), Candidate(q, Score(stats, q.id, currentHeight));
    BeforeOrder(cr, cq, cr);
    var i :| 0 <= i < |replicas| && replicas[i] == r;
    var j :| 0 <= j < |replicas| && replicas[j] == q;
    assert Ids(replicas)[i] == Ids(replicas)[j];
  }

  // ---------------------------------------------------------------- many records

  /** What a list of commits, by replica and height, leaves on the records. */
  function AfterCommits(stats: StatsMap, commits: seq<(string, nat)>): StatsMap {
    if commits == [] then stats
    else
      var last := commits[|commits| - 1];
      WithCommit(AfterCommits(stats, commits[..|commits| - 1]), last.0, last.1)
  }

  function CommitsBy(commits: seq<(string, nat)>, id: string): nat {
    if commits == [] then 0
    else CommitsBy(commits[..|commits| - 1], id) + if commits[|commits| - 1].0 == id then 1 else 0
  }

  /** In whatever order they come: one commit each, and the greatest height is kept. */
  lemma {:induction false} CommitsAddUp(stats: StatsMap, commits: seq<(string, nat)>, id: string)
    ensures var before, after := Get(stats, id), Get(AfterCommits(stats, commits), id);
            && after.commits == before.commits + CommitsBy(commits, id)
            && after.rounds == before.rounds && after.timeouts == before.timeouts
            && after.lastLed >= before.lastLed
            && (forall i :: 0 <= i < |commits| && commits[i].0 == id ==> after.lastLed >= commits[i].1)
            && (after.lastLed == before.lastLed ||
                exists i :: 0 <= i < |commits| && commits[i].0 == id && after.lastLed == commits[i].1)
  {
    if commits != [] {
      var init, last := commits[..|commits| - 1], commits[|commits| - 1];
      CommitsAddUp(stats, init, id);
      assert forall i :: 0 <= i < |init| ==> init[i] == commits[i];
      assert commits[|commits| - 1] == last;
      var mid := Get(AfterCommits(stats, init), id);
      if mid.lastLed != Get(stats, id).lastLed {
        var i :| 0 <= i < |init| && init[i].0 == id && mid.lastLed == init[i].1;
        assert commits[i].0 == id && commits[i].1 == mid.lastLed;
      }
    }
  }

  // ---------------------------------------------------------------- the store

  class Store {
    var stats: StatsMap

    constructor ()
      ensures stats == map[]
    {
      stats := map[];
    }

    /** `get`: the record of id, created on first use. */
    method Ensure(id: string)
      modifies this
      ensures stats == old(stats)[id := Get(old(stats), id)]
    {
      if id !in stats {
        stats := stats[id := Stats(0, 0, 0, 0)];
      }
    }

    method RecordLeaderRound(id: string)
      modifies this
      ensures stats == WithLeaderRound(old(stats), id)
    {
      Ensure(id);
      stats := stats[id := stats[id].(rounds := stats[id].rounds + 1)];
    }

    method RecordCommit(id: string, height: nat)
      modifies this
      ensures stats == WithCommit(old(stats), id, height)
    {
      Ensure(id);
      stats := stats[id := stats[id].(commits := stats[id].commits + 1)];
      if height > stats[id].lastLed {
        stats := stats[id := stats[id].(lastLed := height)];
      }
    }

    method RecordTimeout(id: string)
      modifies this
      ensures stats == WithTimeout(old(stats), id)
    {
      Ensure(id);
      stats := stats[id := stats[id].(timeouts := stats[id].timeouts + 1)];
    }
  }
}
