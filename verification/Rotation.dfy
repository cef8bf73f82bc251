/**
 * What reputation-based selection amounts to over a whole run: a queue that starts with all replicas in id
 * order, sends an honest leader to its tail and a Byzantine one out for good.
 */
module Rotation {
  import opened Types
  import opened Committee
  import opened Reputation

  /** The part of a bench cluster that leader selection reads and a round changes. */
  datatype Ledger = Ledger(stats: StatsMap, curView: nat, curHeight: nat, viewChanges: nat, successes: nat)

  const START := Ledger(map[], 1, 1, 0, 0)

  /** One round led by `leader`. */
  function LedBy(l: Ledger, leader: string, byzantine: set<string>): Ledger {
    var stats := WithLeaderRound(l.stats, leader);
    if leader in byzantine then
      Ledger(WithTimeout(stats, leader), l.curView + 1, l.curHeight, l.viewChanges + 1, l.successes)
    else
      Ledger(WithCommit(stats, leader, l.curHeight), l.curView + 1, l.curHeight + 1, l.viewChanges, l.successes + 1)
  }

  ghost predicate Ascending(ids: seq<string>) {
    forall i, j :: 0 <= i < j < |ids| ==> StringLess(ids[i], ids[j])
  }

  /** `order` lists the committee's ids in ascending order. */
  ghost predicate IdOrder(order: seq<string>, replicas: seq<Replica>) {
    && Ascending(order)
    && Elements(order) == Elements(Ids(replicas))
  }

  // ---------------------------------------------------------------- remainders

  /** x % m by repeated subtraction, which keeps the proofs below linear. */
  function Mod(x: nat, m: nat): (r: nat)
    requires m > 0
    ensures r < m
  {
    if x < m then x else Mod(x - m, m)
  }

  lemma {:induction false} ModIsRemainder(x: nat, m: nat)
    requires m > 0
    ensures Mod(x, m) == x % m
  {
    if x >= m {
      ModIsRemainder(x - m, m);
      SubtractOnce(x, m);
    }
  }

  lemma {:induction false} SubtractOnce(x: nat, m: nat)
    requires 0 < m <= x
    ensures x % m == (x - m) % m
  {
    var q := (x - m) / m;
    assert x == m * (q + 1) + (x - m) % m;
    UniqueRemainder(x, m, q + 1, (x - m) % m);
  }

  lemma {:induction false} UniqueRemainder(x: nat, m: nat, q: nat, r: nat)
    requires r < m && x == m * q + r
    ensures x % m == r
  {
    var d := x / m - q;
    assert m * (x / m) - m * q == m * d;
    assert x == m * (x / m) + x % m;
    assert 0 - m < m * d < m;
    assert d == 0;
  }

  lemma {:induction false} ModPlus(x: nat, m: nat, i: nat)
    requires 0 < m && i <= m
    ensures Mod(x + i, m) == if Mod(x, m) + i < m then Mod(x, m) + i else Mod(x, m) + i - m
    decreases x
  {
    if x >= m {
      ModPlus(x - m, m, i);
      assert x + i - m == x - m + i;
    }
  }

  // ---------------------------------------------------------------- the queue

  function HonestOf(ids: seq<string>, byzantine: set<string>): seq<string> {
    if ids == [] then []
    else HonestOf(ids[..|ids| - 1], byzantine) +
         if ids[|ids| - 1] in byzantine then [] else [ids[|ids| - 1]]
  }

  /** Who leads round t (counted from 0). */
  function LeaderAt(order: seq<string>, byzantine: set<string>, t: nat): string
    requires t >= |order| ==> HonestOf(order, byzantine) != []
  {
    if t < |order| then order[t]
    else
      var honest := HonestOf(order, byzantine);
      honest[Mod(t - |order|, |honest|)]
  }

  /** The queue before round t: replicas that have not led yet, then the honest ones that have, longest ago first. */
  datatype Queue = Queue(waiting: seq<string>, served: seq<string>) {

    predicate NonEmpty() {
      waiting != [] || served != []
    }

    function Head(): string
      requires NonEmpty()
    {
      if waiting != [] then waiting[0] else served[0]
    }

    function Next(byzantine: set<string>): Queue
      requires NonEmpty()
    {
      var again := if Head() in byzantine then [] else [Head()];
      if waiting != [] then Queue(waiting[1..], served + again) else Queue([], served[1..] + again)
    }
  }

  function QueueAt(order: seq<string>, byzantine: set<string>, t: nat): Queue
    requires HonestOf(order, byzantine) != []
  {
    if t < |order| then Queue(order[t..], HonestOf(order[..t], byzantine))
    else
      var honest := HonestOf(order, byzantine);
      var k := Mod(t - |order|, |honest|);
      Queue([], Rotated(honest, k))
  }

  lemma {:induction false} HonestOfMembers(ids: seq<string>, byzantine: set<string>)
    ensures forall id :: id in HonestOf(ids, byzantine) <==> id in ids && id !in byzantine
  {
    if ids != [] {
      var init, last := ids[..|ids| - 1], ids[|ids| - 1];
      HonestOfMembers(init, byzantine);
      assert ids == init + [last];
    }
  }

  lemma {:induction false} HonestOfDistinct(ids: seq<string>, byzantine: set<string>)
    requires Distinct(ids)
    ensures Distinct(HonestOf(ids, byzantine))
  {
    if ids != [] {
      var init, last := ids[..|ids| - 1], ids[|ids| - 1];
      assert ids == init + [last];
      DistinctAppend(init, last);
      HonestOfDistinct(init, byzantine);
      HonestOfMembers(init, byzantine);
      DistinctAppend(HonestOf(init, byzantine), last);
      assert last in byzantine ==> HonestOf(ids, byzantine) == HonestOf(init, byzantine);
    }
  }

  function Rotated(honest: seq<string>, k: nat): seq<string>
    requires k < |honest|
  {
    honest[k..] + honest[..k]
  }

  lemma {:induction false} RotateOnce(honest: seq<string>, k: nat)
    requires k < |honest|
    ensures Rotated(honest, k)[0] == honest[k]
    ensures Rotated(honest, k)[1..] + [honest[k]] == Rotated(honest, if k + 1 == |honest| then 0 else k + 1)
  {
  }

  lemma WaitingMoves(order: seq<string>, byzantine: set<string>, t: nat)
    requires t < |order|
    ensures Queue(order[t..], HonestOf(order[..t], byzantine)).Next(byzantine) ==
            Queue(order[t + 1..], HonestOf(order[..t + 1], byzantine))
  {
    assert order[..t + 1][..t] == order[..t];
    assert order[t..][1..] == order[t + 1..];
  }

  /** Round t is led by the head of its queue, and makes the queue of round t + 1 of it. */
  ghost predicate MovesAt(order: seq<string>, byzantine: set<string>, t: nat)
    requires HonestOf(order, byzantine) != []
  {
    var q := QueueAt(order, byzantine, t);
    && q.NonEmpty() && q.Head() == LeaderAt(order, byzantine, t)
    && q.Next(byzantine) == QueueAt(order, byzantine, t + 1)
  }

  lemma {:induction false} EarlyQueueMoves(order: seq<string>, byzantine: set<string>, t: nat)
    requires HonestOf(order, byzantine) != [] && t < |order|
    ensures MovesAt(order, byzantine, t)
  {
    WaitingMoves(order, byzantine, t);
    if t + 1 == |order| {
      assert order[..t + 1] == order;
      assert Rotated(HonestOf(order, byzantine), 0) == HonestOf(order, byzantine);
    }
  }

  lemma {:induction false} LateQueueMoves(order: seq<string>, byzantine: set<string>, t: nat)
    requires HonestOf(order, byzantine) != [] && t >= |order|
    ensures MovesAt(order, byzantine, t)
  {
    var honest := HonestOf(order, byzantine);
    var r := t - |order|;
    var k := Mod(r, |honest|);
    HonestOfMembers(order, byzantine);
    assert honest[k] in honest;
    RotateOnce(honest, k);
    ModPlus(r, |honest|, 1);
    assert t + 1 - |order| == r + 1;
  }

  lemma {:induction false} QueueMoves(order: seq<string>, byzantine: set<string>, t: nat)
    requires HonestOf(order, byzantine) != []
    ensures MovesAt(order, byzantine, t)
  {
    if t < |order| {
      EarlyQueueMoves(order, byzantine, t);
    } else {
      LateQueueMoves(order, byzantine, t);
    }
  }

  // ---------------------------------------------------------------- what the ledger says about the queue

  /** A led replica's record: an honest one committed every round it led, a Byzantine one none. */
  ghost predicate Served(l: Ledger, id: string) {
    id in l.stats && l.stats[id].rounds == l.stats[id].commits >= 1 && 1 <= l.stats[id].lastLed < l.curHeight
  }

  ghost predicate Expelled(l: Ledger, id: string) {
    id in l.stats && l.stats[id].rounds >= 1 && l.stats[id].commits == 0 && l.stats[id].lastLed == 0
  }

  ghost predicate Represents(l: Ledger, q: Queue, order: seq<string>, byzantine: set<string>) {
    && 1 <= l.curHeight <= l.curView
    && (forall id :: id in q.waiting ==> id in order && id !in l.stats)
    && Ascending(q.waiting)
    && (forall id :: id in q.served ==> id in order && id !in byzantine && Served(l, id))
    && (forall i, j :: 0 <= i < j < |q.served| ==>
          Get(l.stats, q.served[i]).lastLed < Get(l.stats, q.served[j]).lastLed)
    && (forall id :: id in order && id !in q.waiting && id !in q.served ==> id in byzantine && Expelled(l, id))
  }

  lemma {:induction false} Cancel(x: real, y: real, v: real)
    requires v > 0.0 && x * v == y * v
    ensures x == y
  {
    assert (x - y) * v == 0.0;
  }

  lemma Complement(h: real, v: real)
    requires v > 0.0
    ensures (v - h) / v == 1.0 - h / v
  {
    var q := h / v;
    assert (1.0 - q) * v == v - q * v == v - h;
    Cancel((v - h) / v, 1.0 - q, v);
  }

  lemma ServedScore(l: Ledger, id: string)
    requires Served(l, id) && l.curHeight <= l.curView
    ensures Score(l.stats, id, l.curView) == 1.0 - BETA * (l.stats[id].lastLed as real / l.curView as real)
    ensures 0.6 <= Score(l.stats, id, l.curView) < 1.0
  {
    var h, v := l.stats[id].lastLed as real, l.curView as real;
    assert l.stats[id].CommitRate() == 1.0;
    Complement(h, v);
    assert 0.0 < h / v <= 1.0;
  }

  lemma {:induction false} ExpelledScore(l: Ledger, id: string)
    requires Expelled(l, id) && l.curView >= 1
    ensures Score(l.stats, id, l.curView) == 0.4
  {
    assert l.stats[id].CommitRate() == 0.0;
    assert l.stats[id].Novelty(l.curView) == 1.0;
  }

  lemma {:induction false} SmallerFraction(a: nat, b: nat, v: nat)
    requires a < b && v >= 1
    ensures a as real / v as real < b as real / v as real
  {
  }

  /** The head of the queue ranks strictly before every other member. */
  lemma {:induction false} HeadRanksFirst(l: Ledger, q: Queue, order: seq<string>, byzantine: set<string>,
      head: Replica, other: Replica)
    requires Represents(l, q, order, byzantine) && q.NonEmpty()
    requires head.id == q.Head() && other.id in order && other.id != head.id
    ensures Before(Candidate(head, Score(l.stats, head.id, l.curView)),
                   Candidate(other, Score(l.stats, other.id, l.curView)))
  {
    if other.id in q.waiting {
      var k :| 0 <= k < |q.waiting| && q.waiting[k] == other.id;
      assert q.waiting[0] in q.waiting;
      assert StringLess(q.waiting[0], q.waiting[k]);
    } else {
      if other.id in q.served {
        ServedScore(l, other.id);
      } else {
        ExpelledScore(l, other.id);
      }
      if q.waiting != [] {
        assert q.waiting[0] in q.waiting;
      } else {
        assert q.served[0] in q.served;
        ServedScore(l, head.id);
        if other.id in q.served {
          var k :| 0 <= k < |q.served| && q.served[k] == other.id;
          SmallerFraction(l.stats[q.served[0]].lastLed, l.stats[q.served[k]].lastLed, l.curView);
        }
      }
    }
  }

  /** So selection picks the head. */
  lemma {:induction false} BestIsHead(l: Ledger, q: Queue, order: seq<string>, byzantine: set<string>,
      replicas: seq<Replica>, best: Replica)
    requires Represents(l, q, order, byzantine) && q.NonEmpty() && IdOrder(order, replicas)
    requires IsBest(best, replicas, l.stats, l.curView)
    ensures best.id == q.Head()
  {
    assert q.Head() in order;
    assert q.Head() in Elements(order);
    var k :| 0 <= k < |replicas| && Ids(replicas)[k] == q.Head();
    var j :| 0 <= j < |replicas| && replicas[j] == best;
    assert Ids(replicas)[j] in Elements(Ids(replicas));
    if best.id != q.Head() {
      assert best.id in Elements(order);
      assert replicas[k] in replicas;
      HeadRanksFirst(l, q, order, byzantine, replicas[k], best);
    }
  }

  lemma AscendingIsDistinct(ids: seq<string>)
    requires Ascending(ids)
    ensures Distinct(ids)
  {
    forall i, j | 0 <= i < j < |ids|
      ensures ids[i] != ids[j]
    {
      StringOrder(ids[i], ids[j], ids[i]);
    }
  }

  /** Only the leader's record changes; it becomes a served or an expelled one. */
  lemma {:induction false} LeaderRecord(l: Ledger, q: Queue, order: seq<string>, byzantine: set<string>)
    requires Represents(l, q, order, byzantine) && q.NonEmpty()
    ensures var l' := LedBy(l, q.Head(), byzantine);
            && (q.Head() in byzantine ==> Expelled(l', q.Head()))
            && (q.Head() !in byzantine ==> Served(l', q.Head()) && l'.stats[q.Head()].lastLed == l.curHeight)
            && (forall id :: id != q.Head() ==>
                 && (id in l.stats <==> id in l'.stats)
                 && Get(l.stats, id) == Get(l'.stats, id))
            && l.curHeight <= l'.curHeight <= l'.curView
  {
    if q.waiting != [] {
      assert q.waiting[0] in q.waiting;
    } else {
      assert q.served[0] in q.served;
    }
  }

  lemma ServedAreDistinct(l: Ledger, q: Queue, order: seq<string>, byzantine: set<string>)
    requires Represents(l, q, order, byzantine)
    ensures Distinct(q.served) && Distinct(q.waiting)
  {
    AscendingIsDistinct(q.waiting);
    forall i, j | 0 <= i < j < |q.served|
      ensures q.served[i] != q.served[j]
    {
      assert Get(l.stats, q.served[i]).lastLed < Get(l.stats, q.served[j]).lastLed;
    }
  }

  /** The heights at which the served ones last led stay ascending when the leader joins at the end. */
  lemma ServedStayAscending(l: Ledger, l': Ledger, rest: seq<string>, head: string)
    requires forall i, j :: 0 <= i < j < |rest| ==> Get(l.stats, rest[i]).lastLed < Get(l.stats, rest[j]).lastLed
    requires forall id :: id in rest ==> id != head && Served(l, id)
    requires forall id :: id != head ==> Get(l.stats, id) == Get(l'.stats, id)
    requires Get(l'.stats, head).lastLed == l.curHeight
    ensures var s := rest + [head];
            forall i, j :: 0 <= i < j < |s| ==> Get(l'.stats, s[i]).lastLed < Get(l'.stats, s[j]).lastLed
  {
    forall i | 0 <= i < |rest|
      ensures Get(l'.stats, rest[i]) == Get(l.stats, rest[i])
      ensures Get(l.stats, rest[i]).lastLed < l.curHeight
    {
      assert rest[i] in rest;
    }
  }

  /** What is left of the served ones once the head is taken off the queue. */
  function RestServed(q: Queue): seq<string> {
    if q.waiting != [] || q.served == [] then q.served else q.served[1..]
  }

  lemma HeadIsGone(l: Ledger, q: Queue, order: seq<string>, byzantine: set<string>)
    requires Represents(l, q, order, byzantine) && q.NonEmpty()
    ensures q.Head() in order
    ensures forall id :: id in RestServed(q) <==> id in q.served && id != q.Head()
    ensures forall id :: id in q.Next(byzantine).waiting <==> id in q.waiting && id != q.Head()
  {
    ServedAreDistinct(l, q, order, byzantine);
    if q.waiting != [] {
      assert q.waiting[0] in q.waiting;
      assert q.waiting == [q.waiting[0]] + q.waiting[1..];
    } else {
      assert q.served[0] in q.served;
      assert q.served == [q.served[0]] + q.served[1..];
    }
  }

  /** A round led by the head keeps ledger and queue in step. */
  lemma {:induction false} RoundMovesQueue(l: Ledger, q: Queue, order: seq<string>, byzantine: set<string>)
    requires Represents(l, q, order, byzantine) && q.NonEmpty()
    ensures Represents(LedBy(l, q.Head(), byzantine), q.Next(byzantine), order, byzantine)
  {
    var head, l', q' := q.Head(), LedBy(l, q.Head(), byzantine), q.Next(byzantine);
    LeaderRecord(l, q, order, byzantine);
    HeadIsGone(l, q, order, byzantine);
    var rest := RestServed(q);
    if head in byzantine {
      assert q'.served == rest;
      forall i, j | 0 <= i < j < |rest|
        ensures Get(l'.stats, rest[i]).lastLed < Get(l'.stats, rest[j]).lastLed
      {
        assert rest[i] in rest && rest[j] in rest;
      }
    } else {
      assert q'.served == rest + [head];
      ServedStayAscending(l, l', rest, head);
    }
  }

  // ---------------------------------------------------------------- whole runs

  /** A run of rounds in reputation mode: each leader is one selection may return. */
  ghost predicate ReputationRun(ledgers: seq<Ledger>, leaders: seq<string>, replicas: seq<Replica>,
      byzantine: set<string>) {
    && |ledgers| == |leaders| + 1
    && ledgers[0] == START
    && forall t {:trigger leaders[t]} :: 0 <= t < |leaders| ==>
         RotationStep(ledgers[t], leaders[t], replicas, byzantine, ledgers[t + 1])
  }

  ghost predicate RotationStep(l: Ledger, leader: string, replicas: seq<Replica>, byzantine: set<string>, l': Ledger) {
    && (exists best :: IsBest(best, replicas, l.stats, l.curView) && best.id == leader)
    && l' == LedBy(l, leader, byzantine)
  }

  /** How many of the first t rounds this replica led. */
  function RoundsLed(leaders: seq<string>, id: string, t: nat): nat
    requires t <= |leaders|
  {
    if t == 0 then 0 else RoundsLed(leaders, id, t - 1) + if leaders[t - 1] == id then 1 else 0
  }

  /** A record is the rounds led, all of them committed or all of them timed out, and the height led last. */
  lemma {:induction false} RecordsAddUp(ledgers: seq<Ledger>, leaders: seq<string>, replicas: seq<Replica>,
      byzantine: set<string>, t: nat, id: string)
    requires ReputationRun(ledgers, leaders, replicas, byzantine) && t <= |leaders|
    ensures var st, led := Get(ledgers[t].stats, id), RoundsLed(leaders, id, t);
            && st.rounds == led
            && st.commits == (if id in byzantine then 0 else led)
            && st.timeouts == (if id in byzantine then led else 0)
    ensures Get(ledgers[t].stats, id).lastLed <= ledgers[t].curHeight
    ensures t > 0 ==>
              Get(ledgers[t].stats, id).lastLed ==
              if leaders[t - 1] == id && id !in byzantine then ledgers[t - 1].curHeight
              else Get(ledgers[t - 1].stats, id).lastLed
  {
    if t > 0 {
      RecordsAddUp(ledgers, leaders, replicas, byzantine, t - 1, id);
      assert RotationStep(ledgers[t - 1], leaders[t - 1], replicas, byzantine, ledgers[t - 1 + 1]);
    }
  }

  lemma {:induction false} StartRepresents(order: seq<string>, byzantine: set<string>)
    requires Ascending(order) && HonestOf(order, byzantine) != []
    ensures Represents(START, QueueAt(order, byzantine, 0), order, byzantine)
  {
    assert order != [];
    assert order[0..] == order;
  }

  /** Before every round the ledger is the queue of the closed form. */
  lemma {:induction false} RunFollowsQueue(ledgers: seq<Ledger>, leaders: seq<string>, replicas: seq<Replica>,
      byzantine: set<string>, order: seq<string>, t: nat)
    requires ReputationRun(ledgers, leaders, replicas, byzantine) && IdOrder(order, replicas)
    requires HonestOf(order, byzantine) != [] && t <= |leaders|
    ensures Represents(ledgers[t], QueueAt(order, byzantine, t), order, byzantine)
    ensures t < |leaders| ==> leaders[t] == LeaderAt(order, byzantine, t)
  {
    if t == 0 {
      StartRepresents(order, byzantine);
    } else {
      RunFollowsQueue(ledgers, leaders, replicas, byzantine, order, t - 1);
      assert RotationStep(ledgers[t - 1], leaders[t - 1], replicas, byzantine, ledgers[t - 1 + 1]);
      QueueMoves(order, byzantine, t - 1);
      RoundMovesQueue(ledgers[t - 1], QueueAt(order, byzantine, t - 1), order, byzantine);
    }
    if t < |leaders| {
      assert RotationStep(ledgers[t], leaders[t], replicas, byzantine, ledgers[t + 1]);
      var best :| IsBest(best, replicas, ledgers[t].stats, ledgers[t].curView) && best.id == leaders[t];
      QueueMoves(order, byzantine, t);
      BestIsHead(ledgers[t], QueueAt(order, byzantine, t), order, byzantine, replicas, best);
    }
  }

  /**
   * The first n rounds are led by each replica once, in id order; from then on the honest ones take turns in
   * that order, no Byzantine replica leads, and the leader is the one that last led at the lowest height.
   */
  lemma {:induction false} LeadersTakeTurns(ledgers: seq<Ledger>, leaders: seq<string>, replicas: seq<Replica>,
      byzantine: set<string>, order: seq<string>, t: nat)
    requires ReputationRun(ledgers, leaders, replicas, byzantine) && IdOrder(order, replicas)
    requires HonestOf(order, byzantine) != [] && t < |leaders|
    ensures leaders[t] == LeaderAt(order, byzantine, t)
    ensures t >= |order| ==> leaders[t] !in byzantine
    ensures t >= |order| ==> forall id :: id in order && id !in byzantine && id != leaders[t] ==>
              && id in ledgers[t].stats && leaders[t] in ledgers[t].stats
              && ledgers[t].stats[leaders[t]].lastLed < ledgers[t].stats[id].lastLed
  {
    RunFollowsQueue(ledgers, leaders, replicas, byzantine, order, t);
    QueueMoves(order, byzantine, t);
    HonestOfMembers(order, byzantine);
    if t >= |order| {
      var served := QueueAt(order, byzantine, t).served;
      assert served[0] in served;
      forall id | id in order && id !in byzantine && id != leaders[t]
        ensures id in served
      {
      }
    }
  }

  lemma {:induction false} NoneYet(order: seq<string>, byzantine: set<string>)
    ensures |byzantine * Elements(order[..0])| == 0
  {
    assert byzantine * Elements(order[..0]) == {};
  }

  lemma CountNext(order: seq<string>, byzantine: set<string>, t: nat)
    requires Distinct(order) && t < |order|
    ensures |byzantine * Elements(order[..t + 1])| ==
            |byzantine * Elements(order[..t])| + if order[t] in byzantine then 1 else 0
  {
    var before, now := byzantine * Elements(order[..t]), byzantine * Elements(order[..t + 1]);
    assert order[..t + 1] == order[..t] + [order[t]];
    assert order[t] !in order[..t];
    assert now == if order[t] in byzantine then before + {order[t]} else before;
  }

  /** Every round is a success or a view change, and enters the next view. */
  lemma {:induction false} RoundsAddUp(ledgers: seq<Ledger>, leaders: seq<string>, replicas: seq<Replica>,
      byzantine: set<string>, t: nat)
    requires ReputationRun(ledgers, leaders, replicas, byzantine) && t <= |leaders|
    ensures ledgers[t].curView == 1 + ledgers[t].successes + ledgers[t].viewChanges == 1 + t
    ensures t < |leaders| ==>
              ledgers[t + 1].viewChanges == ledgers[t].viewChanges + if leaders[t] in byzantine then 1 else 0
  {
    if t > 0 {
      RoundsAddUp(ledgers, leaders, replicas, byzantine, t - 1);
      assert RotationStep(ledgers[t - 1], leaders[t - 1], replicas, byzantine, ledgers[t - 1 + 1]);
    }
    if t < |leaders| {
      assert RotationStep(ledgers[t], leaders[t], replicas, byzantine, ledgers[t + 1]);
    }
  }

  /** View changes while the first n rounds last. */
  lemma {:induction false} ViewChangesEarly(ledgers: seq<Ledger>, leaders: seq<string>, replicas: seq<Replica>,
      byzantine: set<string>, order: seq<string>, t: nat)
    requires ReputationRun(ledgers, leaders, replicas, byzantine) && IdOrder(order, replicas)
    requires HonestOf(order, byzantine) != [] && t <= |leaders| && t <= |order|
    ensures ledgers[t].viewChanges == |byzantine * Elements(order[..t])|
  {
    NoneYet(order, byzantine);
    AscendingIsDistinct(order);
    for i := 0 to t
      invariant ledgers[i].viewChanges == |byzantine * Elements(order[..i])|
    {
      LeadersTakeTurns(ledgers, leaders, replicas, byzantine, order, i);
      RoundsAddUp(ledgers, leaders, replicas, byzantine, i);
      CountNext(order, byzantine, i);
    }
  }

  /** From the n-th round on: exactly one view change per Byzantine replica, for good. */
  lemma {:induction false} ViewChangesExact(ledgers: seq<Ledger>, leaders: seq<string>, replicas: seq<Replica>,
      byzantine: set<string>, order: seq<string>, t: nat)
    requires ReputationRun(ledgers, leaders, replicas, byzantine) && IdOrder(order, replicas)
    requires HonestOf(order, byzantine) != [] && |order| <= t <= |leaders|
    ensures ledgers[t].viewChanges == |byzantine * Elements(Ids(replicas))|
  {
    if t == |order| {
      ViewChangesEarly(ledgers, leaders, replicas, byzantine, order, t);
      assert order[..t] == order;
    } else {
      ViewChangesExact(ledgers, leaders, replicas, byzantine, order, t - 1);
      LeadersTakeTurns(ledgers, leaders, replicas, byzantine, order, t - 1);
      RoundsAddUp(ledgers, leaders, replicas, byzantine, t - 1);
    }
  }

  lemma LeaderAfter(order: seq<string>, byzantine: set<string>, t: nat, i: nat)
    requires HonestOf(order, byzantine) != [] && t >= |order| && i <= |HonestOf(order, byzantine)|
    ensures var honest := HonestOf(order, byzantine);
            var r := Mod(t - |order|, |honest|);
            LeaderAt(order, byzantine, t + i) == honest[if r + i < |honest| then r + i else r + i - |honest|]
  {
    ModPlus(t - |order|, |HonestOf(order, byzantine)|, i);
    assert t - |order| + i == t + i - |order|;
  }

  /**
   * One honest replica's turns are as many rounds apart as there are honest replicas, and nobody leads twice between.
   */
  lemma {:induction false} TurnsAreSpaced(order: seq<string>, byzantine: set<string>, t: nat, i: nat, j: nat)
    requires Distinct(order) && HonestOf(order, byzantine) != [] && t >= |order|
    requires i < j < |HonestOf(order, byzantine)|
    ensures LeaderAt(order, byzantine, t + |HonestOf(order, byzantine)|) == LeaderAt(order, byzantine, t)
    ensures LeaderAt(order, byzantine, t + i) != LeaderAt(order, byzantine, t + j)
  {
    HonestOfDistinct(order, byzantine);
    LeaderAfter(order, byzantine, t, 0);
    LeaderAfter(order, byzantine, t, |HonestOf(order, byzantine)|);
    LeaderAfter(order, byzantine, t, i);
    LeaderAfter(order, byzantine, t, j);
  }

  /** Between two turns of an honest replica every other honest replica leads. */
  lemma {:induction false} EveryHonestReplicaLeads(order: seq<string>, byzantine: set<string>, t: nat, id: string)
      returns (i: nat)
    requires HonestOf(order, byzantine) != [] && t >= |order|
    requires id in order && id !in byzantine
    ensures i < |HonestOf(order, byzantine)| && LeaderAt(order, byzantine, t + i) == id
  {
    var honest := HonestOf(order, byzantine);
    var r := Mod(t - |order|, |honest|);
    HonestOfMembers(order, byzantine);
    var k :| 0 <= k < |honest| && honest[k] == id;
    i := if k >= r then k - r else k - r + |honest|;
    LeaderAfter(order, byzantine, t, i);
  }

  // ---------------------------------------------------------------- round-robin, for comparison

  /** f(v) + ... + f(v + k - 1) */
  function Sum(f: nat -> nat, v: nat, k: nat): nat {
    if k == 0 then 0 else Sum(f, v, k - 1) + f(v + k - 1)
  }

  lemma {:induction false} SumSplit(f: nat -> nat, v: nat, j: nat, k: nat)
    ensures Sum(f, v, j + k) == Sum(f, v, j) + Sum(f, v + j, k)
  {
    if k > 0 {
      SumSplit(f, v, j, k - 1);
      assert v + (j + k) - 1 == (v + j) + k - 1;
    }
  }

  ghost predicate Periodic(f: nat -> nat, n: nat) {
    forall x: nat :: f(x + n) == f(x)
  }

  lemma {:induction false} FullPeriod(f: nat -> nat, n: nat, v: nat)
    requires Periodic(f, n)
    ensures Sum(f, v, n) == Sum(f, 0, n)
  {
    if v > 0 {
      FullPeriod(f, n, v - 1);
      SumSplit(f, v - 1, 1, n);
      SumSplit(f, v - 1, n, 1);
      assert Sum(f, v - 1, 1) == Sum(f, v - 1, 0) + f(v - 1);
      assert Sum(f, v - 1 + n, 1) == Sum(f, v - 1 + n, 0) + f(v - 1 + n);
    }
  }

  lemma {:induction false} ManyPeriods(f: nat -> nat, n: nat, v: nat, turns: nat)
    requires Periodic(f, n)
    ensures Sum(f, v, turns * n) == turns * Sum(f, 0, n)
  {
    if turns > 0 {
      ManyPeriods(f, n, v, turns - 1);
      assert turns * n == (turns - 1) * n + n;
      assert turns * Sum(f, 0, n) == (turns - 1) * Sum(f, 0, n) + Sum(f, 0, n);
      SumSplit(f, v, (turns - 1) * n, n);
      FullPeriod(f, n, v + (turns - 1) * n);
    } else {
      assert turns * n == 0;
    }
  }

  /** What a view costs when replica `view % n` leads it. */
  function ViewCost(ids: seq<string>, byzantine: set<string>): nat -> nat
    requires ids != []
  {
    view => if ids[Mod(view, |ids|)] in byzantine then 1 else 0
  }

  /** The view changes of k round-robin rounds, the first of them in view 1. */
  function RoundRobinChanges(ids: seq<string>, byzantine: set<string>, k: nat): nat
    requires ids != []
  {
    Sum(ViewCost(ids, byzantine), 1, k)
  }

  /** Byzantine replicas among the first k. */
  function CountIn(ids: seq<string>, byzantine: set<string>, k: nat): nat
    requires k <= |ids|
  {
    if k == 0 then 0 else CountIn(ids, byzantine, k - 1) + if ids[k - 1] in byzantine then 1 else 0
  }

  lemma {:induction false} CountInCounts(ids: seq<string>, byzantine: set<string>, k: nat)
    requires Distinct(ids) && k <= |ids|
    ensures CountIn(ids, byzantine, k) == |byzantine * Elements(ids[..k])|
  {
    NoneYet(ids, byzantine);
    for i := 0 to k
      invariant CountIn(ids, byzantine, i) == |byzantine * Elements(ids[..i])|
    {
      CountNext(ids, byzantine, i);
    }
  }

  lemma {:induction false} FirstTurns(ids: seq<string>, byzantine: set<string>, k: nat)
    requires ids != [] && k <= |ids|
    ensures Sum(ViewCost(ids, byzantine), 0, k) == CountIn(ids, byzantine, k)
  {
    if k > 0 {
      FirstTurns(ids, byzantine, k - 1);
    }
  }

  lemma {:induction false} CostIsPeriodic(ids: seq<string>, byzantine: set<string>)
    requires ids != []
    ensures Periodic(ViewCost(ids, byzantine), |ids|)
  {
  }

  lemma {:induction false} OneTurnPays(ids: seq<string>, byzantine: set<string>)
    requires Distinct(ids) && ids != []
    ensures Sum(ViewCost(ids, byzantine), 0, |ids|) == |byzantine * Elements(ids)|
  {
    FirstTurns(ids, byzantine, |ids|);
    CountInCounts(ids, byzantine, |ids|);
    assert ids[..|ids|] == ids;
  }

  /** k full turns cost k view changes per Byzantine replica, and past one turn reputation mode is never worse. */
  lemma {:induction false} RoundRobinKeepsPaying(ids: seq<string>, byzantine: set<string>, turns: nat, rounds: nat)
    requires Distinct(ids) && ids != []
    ensures RoundRobinChanges(ids, byzantine, turns * |ids|) == turns * |byzantine * Elements(ids)|
    ensures rounds >= |ids| ==> RoundRobinChanges(ids, byzantine, rounds) >= |byzantine * Elements(ids)|
  {
    var f, n := ViewCost(ids, byzantine), |ids|;
    CostIsPeriodic(ids, byzantine);
    OneTurnPays(ids, byzantine);
    ManyPeriods(f, n, 1, turns);
    if rounds >= n {
      FullPeriod(f, n, 1);
      SumSplit(f, 1, n, rounds - n);
    }
  }
}
