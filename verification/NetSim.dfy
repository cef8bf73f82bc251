/**
 * The simulated network: before the stabilization time the adversary delays or drops, afterwards delays are bounded.
 */
module NetSim {
  import opened Types

  datatype Message = Message(from: string, to: string, body: Bytes)

  datatype Pending = Pending(msg: Message, deliverAt: int)

  /** What the adversary decides about a message sent before GST; its delay may have either sign. */
  datatype Fate = Fate(drop: bool, delay: int)

  /** Δ, and which replicas the adversary controls. */
  datatype Net = Net(maxDelay: nat, isByzantine: string -> bool)

  /** `jitter` is the random draw used after GST. Times are integers, and the clock may be set back. */
  datatype Event =
    | Send(msg: Message, now: int, fate: Fate, jitter: nat)
    | Tick(now: int)
    | SetGST(t: int)

  const FAR_FUTURE: int := 365 * 24 * 3600 * 1_000_000_000

  datatype NetState = NetState(gst: int, queue: seq<Pending>)

  /** The queue entry of a message, or None when it is dropped: Byzantine senders bypass drops. */
  function Enqueued(net: Net, gst: int, msg: Message, now: int, fate: Fate, jitter: nat): Option<Pending> {
    if now >= gst then Some(Pending(msg, now + jitter))
    else if fate.drop && !net.isByzantine(msg.from) then None
    else Some(Pending(msg, now + fate.delay))
  }

  function Due(queue: seq<Pending>, now: int): seq<Pending> {
    if queue == [] then []
    else
      var last := queue[|queue| - 1];
      Due(queue[..|queue| - 1], now) + if last.deliverAt <= now then [last] else []
  }

  function NotDue(queue: seq<Pending>, now: int): seq<Pending> {
    if queue == [] then []
    else
      var last := queue[|queue| - 1];
      NotDue(queue[..|queue| - 1], now) + if last.deliverAt <= now then [] else [last]
  }

  function Messages(queue: seq<Pending>): seq<Message> {
    seq(|queue|, i requires 0 <= i < |queue| => queue[i].msg)
  }

  lemma FilterNext(queue: seq<Pending>, i: nat, now: int)
    requires i < |queue|
    ensures NotDue(queue[..i + 1], now) ==
            NotDue(queue[..i], now) + if queue[i].deliverAt <= now then [] else [queue[i]]
    ensures Messages(Due(queue[..i + 1], now)) ==
            Messages(Due(queue[..i], now)) + if queue[i].deliverAt <= now then [queue[i].msg] else []
  {
    assert queue[..i + 1][..i] == queue[..i];
  }

  function Step(net: Net, s: NetState, e: Event): NetState {
    match e
    case Send(msg, now, fate, jitter) =>
      (match Enqueued(net, s.gst, msg, now, fate, jitter)
       case None => s
       case Some(p) => s.(queue := s.queue + [p]))
    case Tick(now) => s.(queue := NotDue(s.queue, now))
    case SetGST(t) => s.(gst := t)
  }

  // ---------------------------------------------------------------- the simulator

  class Simulator {
    const net: Net
    var gst: int
    var msgQ: array<Pending>
    var len: nat

    ghost predicate Valid()
      reads this
    {
      len <= msgQ.Length
    }

    ghost function State(): NetState
      requires Valid()
      reads this, msgQ
    {
      NetState(gst, msgQ[..len])
    }

    /** GST starts out a year (in nanoseconds) after the clock's time. */
    constructor (net: Net, now: int)
      ensures Valid() && fresh(msgQ) && this.net == net
      ensures State() == NetState(now + 31_536_000_000_000_000, [])
    {
      this.net, this.gst := net, now + FAR_FUTURE;
      msgQ := new Pending[256](_ => Pending(Message("", "", []), 0));
      len := 0;
    }

    method SetGST(t: int)
      requires Valid()
      modifies this`gst
      ensures Valid() && State() == Step(net, old(State()), Event.SetGST(t))
    {
      gst := t;
    }

    /** Go's `append`: in place while there is room, else in a larger copy. */
    method Append(p: Pending)
      requires Valid()
      modifies this`msgQ, this`len, msgQ
      ensures Valid() && (msgQ == old(msgQ) || fresh(msgQ))
      ensures msgQ[..len] == old(msgQ[..len]) + [p]
    {
      if len == msgQ.Length {
        var full := msgQ;
        msgQ := new Pending[2 * len + 1](k requires 0 <= k reads full => if k < full.Length then full[k] else p);
        assert msgQ[..len] == full[..len];
      }
      msgQ[len] := p;
      len := len + 1;
    }

    method Send(msg: Message, now: int, fate: Fate, jitter: nat)
      requires Valid() && jitter <= net.maxDelay
      modifies this`msgQ, this`len, msgQ
      ensures Valid() && (msgQ == old(msgQ) || fresh(msgQ))
      ensures State() == Step(net, old(State()), Event.Send(msg, now, fate, jitter))
    {
      var isByzFrom := net.isByzantine(msg.from);
      if now < gst {
        if fate.drop && !isByzFrom {
          return;
        }
        Append(Pending(msg, now + fate.delay));
      } else {
        Append(Pending(msg, now + jitter));
      }
    }

    /** `remaining := n.msgQ[:0]`: survivors are moved down in the array they are read from. */
    static method Compact(q: array<Pending>, len: nat, now: int) returns (n: nat, delivered: seq<Message>)
      requires len <= q.Length
      modifies q
      ensures n <= len && q[..n] == NotDue(old(q[..len]), now)
      ensures delivered == Messages(Due(old(q[..len]), now))
    {
      ghost var all := q[..len];
      n, delivered := 0, [];
      for i := 0 to len
        invariant n <= i
        invariant forall k :: i <= k < len ==> q[k] == all[k]
        invariant q[..n] == NotDue(all[..i], now)
        invariant delivered == Messages(Due(all[..i], now))
      {
        FilterNext(all, i, now);
        var m := q[i];
        if m.deliverAt <= now {
          delivered := delivered + [m.msg];
        } else {
          q[n] := m;
          n := n + 1;
        }
      }
      assert all[..len] == all;
    }

    method Tick(now: int) returns (delivered: seq<Message>)
      requires Valid()
      modifies this`len, msgQ
      ensures Valid() && State() == Step(net, old(State()), Event.Tick(now))
      ensures delivered == Messages(Due(old(State().queue), now))
    {
      len, delivered := Compact(msgQ, len, now);
    }

    function PendingCount(): (n: nat)
      requires Valid()
      reads this, msgQ
      ensures n == |State().queue|
    {
      len
    }
  }

  // ---------------------------------------------------------------- runs

  function Run(net: Net, start: NetState, events: seq<Event>): NetState {
    if events == [] then start else Step(net, Run(net, start, events[..|events| - 1]), events[|events| - 1])
  }

  /** What the k-th event put into the queue. */
  function EntryAt(net: Net, start: NetState, events: seq<Event>, k: nat): Option<Pending>
    requires k < |events|
  {
    match events[k]
    case Send(msg, now, fate, jitter) => Enqueued(net, Run(net, start, events[..k]).gst, msg, now, fate, jitter)
    case _ => None
  }

  /** No later tick of the run reached the entry's time. */
  ghost predicate Outstanding(net: Net, start: NetState, events: seq<Event>, k: nat)
    requires k < |events|
  {
    && EntryAt(net, start, events, k).Some?
    && forall j :: k < j < |events| && events[j].Tick? ==>
         events[j].now < EntryAt(net, start, events, k).value.deliverAt
  }

  /** The reference: the outstanding entries of the first n events, in the order they were sent. */
  ghost function OutstandingOf(net: Net, start: NetState, events: seq<Event>, n: nat): seq<Pending>
    requires n <= |events|
  {
    if n == 0 then []
    else
      OutstandingOf(net, start, events, n - 1) +
      if Outstanding(net, start, events, n - 1) then [EntryAt(net, start, events, n - 1).value] else []
  }

  /** One more entry is due or not due. */
  lemma {:induction false} DueOrNotAppend(queue: seq<Pending>, p: Pending, now: int)
    ensures Due(queue + [p], now) == if p.deliverAt <= now then Due(queue, now) + [p] else Due(queue, now)
    ensures NotDue(queue + [p], now) == if p.deliverAt <= now then NotDue(queue, now) else NotDue(queue, now) + [p]
  {
    assert (queue + [p])[..|queue + [p]| - 1] == queue;
  }

  /** One more event leaves an entry outstanding unless it is a tick that reaches it. */
  lemma {:induction false} StaysOutstanding(net: Net, start: NetState, events: seq<Event>, k: nat)
    requires k + 1 < |events|
    ensures var init, last := events[..|events| - 1], events[|events| - 1];
            && EntryAt(net, start, events, k) == EntryAt(net, start, init, k)
            && (Outstanding(net, start, events, k) <==>
                Outstanding(net, start, init, k) &&
                (last.Tick? ==> last.now < EntryAt(net, start, init, k).value.deliverAt))
  {
    assert events[..|events| - 1][..k] == events[..k];
  }

  lemma {:induction false} OutstandingNext(net: Net, start: NetState, events: seq<Event>, n: nat)
    requires n < |events|
    ensures var before := OutstandingOf(net, start, events, n);
            OutstandingOf(net, start, events, n + 1) ==
            if Outstanding(net, start, events, n) then before + [EntryAt(net, start, events, n).value] else before
  {
  }

  /** What an event leaves of a queue: a tick takes the due entries out. */
  function Left(e: Event, queue: seq<Pending>): seq<Pending> {
    if e.Tick? then NotDue(queue, e.now) else queue
  }

  lemma {:induction false} LeftAppend(e: Event, queue: seq<Pending>, p: Pending)
    ensures Left(e, queue + [p]) ==
            if e.Tick? && p.deliverAt <= e.now then Left(e, queue) else Left(e, queue) + [p]
  {
    if e.Tick? {
      DueOrNotAppend(queue, p, e.now);
    }
  }

  lemma {:induction false} LeftNext(net: Net, start: NetState, events: seq<Event>, n: nat)
    requires n + 1 < |events|
    requires var init, last := events[..|events| - 1], events[|events| - 1];
             OutstandingOf(net, start, events, n) == Left(last, OutstandingOf(net, start, init, n))
    ensures var init, last := events[..|events| - 1], events[|events| - 1];
            OutstandingOf(net, start, events, n + 1) == Left(last, OutstandingOf(net, start, init, n + 1))
  {
    var init, last := events[..|events| - 1], events[|events| - 1];
    StaysOutstanding(net, start, events, n);
    OutstandingNext(net, start, init, n);
    OutstandingNext(net, start, events, n);
    if Outstanding(net, start, init, n) {
      LeftAppend(last, OutstandingOf(net, start, init, n), EntryAt(net, start, init, n).value);
    }
  }

  /** One more event filters the outstanding entries exactly as the tick it may be. */
  lemma {:induction false} OneMoreEvent(net: Net, start: NetState, events: seq<Event>)
    requires events != []
    ensures var init, last := events[..|events| - 1], events[|events| - 1];
            OutstandingOf(net, start, events, |init|) == Left(last, OutstandingOf(net, start, init, |init|))
  {
    var init, last := events[..|events| - 1], events[|events| - 1];
    for n := 0 to |init|
      invariant OutstandingOf(net, start, events, n) == Left(last, OutstandingOf(net, start, init, n))
    {
      LeftNext(net, start, events, n);
    }
  }

  /** The last event filters the queue if it is a tick, and adds its entry if it has one. */
  lemma {:induction false} LastEvent(net: Net, start: NetState, events: seq<Event>)
    requires events != []
    ensures var n := |events| - 1;
            var entry := EntryAt(net, start, events, n);
            && (Outstanding(net, start, events, n) <==> entry.Some?)
            && Run(net, start, events).queue ==
                 Left(events[n], Run(net, start, events[..n]).queue) + if entry.Some? then [entry.value] else []
  {
  }

  /** The queue holds the outstanding entries, each once, in sending order: compaction neither loses nor reorders. */
  lemma {:induction false} QueueIsOutstanding(net: Net, start: NetState, events: seq<Event>)
    requires start.queue == []
    ensures Run(net, start, events).queue == OutstandingOf(net, start, events, |events|)
  {
    if events != [] {
      QueueIsOutstanding(net, start, events[..|events| - 1]);
      OneMoreEvent(net, start, events);
      LastEvent(net, start, events);
    }
  }

  // ---------------------------------------------------------------- conservation

  /** Everything a run accepted. */
  function Accepted(net: Net, start: NetState, events: seq<Event>): seq<Pending> {
    if events == [] then []
    else
      var init := events[..|events| - 1];
      Accepted(net, start, init) +
      match EntryAt(net, start, events, |init|)
      case None => []
      case Some(p) => [p]
  }

  /** Everything its ticks delivered. */
  function Delivered(net: Net, start: NetState, events: seq<Event>): seq<Pending> {
    if events == [] then []
    else
      var init, last := events[..|events| - 1], events[|events| - 1];
      Delivered(net, start, init) + if last.Tick? then Due(Run(net, start, init).queue, last.now) else []
  }

  lemma {:induction false} JoinsLeft(a: seq<Pending>, b: seq<Pending>, all: seq<Pending>, p: Pending)
    requires multiset(a) + multiset(b) == multiset(all)
    ensures multiset(a + [p]) + multiset(b) == multiset(all + [p])
  {
    assert multiset(a + [p]) == multiset(a) + multiset{p} && multiset(all + [p]) == multiset(all) + multiset{p};
  }

  lemma {:induction false} DueOrNot(queue: seq<Pending>, now: int)
    ensures multiset(Due(queue, now)) + multiset(NotDue(queue, now)) == multiset(queue)
  {
    if queue != [] {
      var init, last := queue[..|queue| - 1], queue[|queue| - 1];
      assert queue == init + [last];
      DueOrNot(init, now);
      DueOrNotAppend(init, last, now);
      if last.deliverAt <= now {
        JoinsLeft(Due(init, now), NotDue(init, now), init, last);
      } else {
        JoinsLeft(NotDue(init, now), Due(init, now), init, last);
      }
    }
  }

  /** Accepted messages are the disjoint union of delivered and pending ones. */
  lemma {:induction false} NothingLostOrDoubled(net: Net, start: NetState, events: seq<Event>)
    requires start.queue == []
    ensures multiset(Accepted(net, start, events)) ==
            multiset(Delivered(net, start, events)) + multiset(Run(net, start, events).queue)
  {
    if events != [] {
      var init, last := events[..|events| - 1], events[|events| - 1];
      NothingLostOrDoubled(net, start, init);
      if last.Tick? {
        DueOrNot(Run(net, start, init).queue, last.now);
      }
    }
  }

  // ---------------------------------------------------------------- timeliness

  lemma {:induction false} OutstandingIsListed(net: Net, start: NetState, events: seq<Event>, k: nat, n: nat)
    requires k < n <= |events| && Outstanding(net, start, events, k)
    ensures EntryAt(net, start, events, k).value in OutstandingOf(net, start, events, n)
  {
    if k < n - 1 {
      OutstandingIsListed(net, start, events, k, n - 1);
    }
  }

  lemma {:induction false} DueContains(queue: seq<Pending>, p: Pending, now: int)
    requires p in queue && p.deliverAt <= now
    ensures p in Due(queue, now)
  {
    if p != queue[|queue| - 1] {
      assert queue == queue[..|queue| - 1] + [queue[|queue| - 1]];
      DueContains(queue[..|queue| - 1], p, now);
    }
  }

  lemma {:induction false} DueIsDue(queue: seq<Pending>, now: int)
    ensures forall p :: p in Due(queue, now) ==> p in queue && p.deliverAt <= now
  {
    if queue != [] {
      DueIsDue(queue[..|queue| - 1], now);
    }
  }

  /** The first tick past the delivery time of an entry hands it out. */
  lemma FirstTickDelivers(net: Net, start: NetState, events: seq<Event>, k: nat, i: nat)
    requires start.queue == [] && k < i < |events| && EntryAt(net, start, events, k).Some?
    requires Outstanding(net, start, events[..i], k)
    requires events[i].Tick? && EntryAt(net, start, events, k).value.deliverAt <= events[i].now
    ensures EntryAt(net, start, events, k).value in Due(Run(net, start, events[..i]).queue, events[i].now)
  {
    var before := events[..i];
    assert before[..k] == events[..k];
    QueueIsOutstanding(net, start, before);
    OutstandingIsListed(net, start, before, k, i);
    DueContains(Run(net, start, before).queue, EntryAt(net, start, events, k).value, events[i].now);
  }

  /** A message is lost exactly if an honest sender sends it before GST and the adversary drops it. */
  lemma {:induction false} SendIsLostIff(net: Net, start: NetState, events: seq<Event>, k: nat)
    requires k < |events| && events[k].Send?
    ensures var s := Run(net, start, events[..k]);
            var lost := events[k].now < s.gst && events[k].fate.drop && !net.isByzantine(events[k].msg.from);
            && (EntryAt(net, start, events, k) == None <==> lost)
            && (Step(net, s, events[k]) == s <==> lost)
  {
    var s := Run(net, start, events[..k]);
    assert forall p: Pending :: |s.queue + [p]| == |s.queue| + 1;
  }

  /**
   * A message that is let through waits as long as the adversary says before GST, and for its jitter from then on:
   * until that time no tick hands its entry out, and the first tick from that time on does.
   */
  lemma {:induction false} MessageWaits(net: Net, start: NetState, events: seq<Event>, k: nat, i: nat, wait: int)
    requires start.queue == [] && k < i < |events| && events[k].Send? && events[i].Tick?
    requires var early := events[k].now < Run(net, start, events[..k]).gst;
             && wait == (if early then events[k].fate.delay else events[k].jitter)
             && (early ==> !events[k].fate.drop || net.isByzantine(events[k].msg.from))
    requires forall j :: k < j < i && events[j].Tick? ==> events[j].now < events[k].now + wait
    ensures var p, queue := Pending(events[k].msg, events[k].now + wait), Run(net, start, events[..i]).queue;
            p in queue && (p in Due(queue, events[i].now) <==> events[i].now >= events[k].now + wait)
  {
    var before := events[..i];
    assert before[..k] == events[..k] && EntryAt(net, start, before, k) == EntryAt(net, start, events, k);
    var p := EntryAt(net, start, before, k).value;
    assert Outstanding(net, start, before, k);
    QueueIsOutstanding(net, start, before);
    OutstandingIsListed(net, start, before, k, i);
    if events[i].now >= p.deliverAt {
      DueContains(Run(net, start, before).queue, p, events[i].now);
    } else {
      DueIsDue(Run(net, start, before).queue, events[i].now);
    }
  }

  /**
   * A message sent at or after GST is never dropped, and a tick at least Δ after the sending finds it delivered:
   * some tick up to then handed it out, and it is no longer outstanding.
   */
  lemma {:induction false} DeliveredWithinDelta(net: Net, start: NetState, events: seq<Event>, k: nat, j: nat)
      returns (i: nat)
    requires start.queue == [] && k < j < |events|
    requires events[k].Send? && events[k].jitter <= net.maxDelay
    requires events[k].now >= Run(net, start, events[..k]).gst
    requires events[j].Tick? && events[j].now >= events[k].now + net.maxDelay
    ensures EntryAt(net, start, events, k).Some? && EntryAt(net, start, events, k).value.msg == events[k].msg
    ensures k < i <= j && events[i].Tick?
    ensures EntryAt(net, start, events, k).value in Due(Run(net, start, events[..i]).queue, events[i].now)
    ensures !Outstanding(net, start, events[..i + 1], k)
  {
    var entry := EntryAt(net, start, events, k).value;
    i := k + 1;
    while !(events[i].Tick? && events[i].now >= entry.deliverAt)
      invariant k < i <= j
      invariant forall m :: k < m < i && events[m].Tick? ==> events[m].now < entry.deliverAt
      decreases j - i
    {
      i := i + 1;
    }
    assert events[..i][..k] == events[..k] == events[..i + 1][..k];
    assert Outstanding(net, start, events[..i], k);
    FirstTickDelivers(net, start, events, k, i);
    assert events[..i + 1][i] == events[i];
  }
}
