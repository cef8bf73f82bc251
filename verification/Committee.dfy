/** Configurations Mc, their arithmetic, and the membership step that derives Mc+1 from a batch. */
module Committee {
  import opened Types

  type Key = Bytes

  /** `x509.ParsePKIXPublicKey` followed by the ECDSA type test: a partial function on payloads. */
  type KeyParser = Bytes -> Option<Key>

  datatype Replica = Replica(id: string, addr: string, key: Option<Key>)

  datatype Config = Config(number: nat, replicas: seq<Replica>, faultCap: nat) {

    function QuorumSize(): (q: nat)
      ensures q >= 1
    {
      (|replicas| + faultCap + 2) / 2
    }

    /** Panics in the source when the committee is empty. */
    function Leader(view: nat): Replica
      requires replicas != []
    {
      replicas[view % |replicas|]
    }

    function Contains(id: string): bool {
      Find(replicas, id).Some?
    }
  }

  function NewCommittee(number: nat, replicas: seq<Replica>): Config {
    Config(number, replicas, if |replicas| > 0 then (|replicas| - 1) / 3 else 0)
  }

  function Ids(replicas: seq<Replica>): seq<string> {
    seq(|replicas|, i requires 0 <= i < |replicas| => replicas[i].id)
  }

  /** `ReplicaByID`: the first match. */
  function Find(replicas: seq<Replica>, id: string): (r: Option<Replica>)
    ensures r.Some? <==> id in Ids(replicas)
    ensures r.Some? ==> r.value in replicas && r.value.id == id
  {
    if replicas == [] then None
    else if replicas[0].id == id then
      assert Ids(replicas)[0] == id;
      Some(replicas[0])
    else
      var rest := Find(replicas[1..], id);
      assert Ids(replicas) == [replicas[0].id] + Ids(replicas[1..]);
      rest
  }

  lemma {:induction false} FindDistinct(replicas: seq<Replica>, k: nat)
    requires Distinct(Ids(replicas)) && k < |replicas|
    ensures Find(replicas, replicas[k].id) == Some(replicas[k])
  {
    assert Ids(replicas)[k] == replicas[k].id;
    var r := Find(replicas, replicas[k].id).value;
    var j :| 0 <= j < |replicas| && replicas[j] == r;
    assert Ids(replicas)[j] == Ids(replicas)[k];
  }

  /** The first one of that id, where ids repeat. */
  lemma {:induction false} FindIsFirst(replicas: seq<Replica>, k: nat)
    requires k < |replicas| && forall j :: 0 <= j < k ==> replicas[j].id != replicas[k].id
    ensures Find(replicas, replicas[k].id) == Some(replicas[k])
  {
    if k > 0 {
      assert replicas[0].id != replicas[k].id;
      FindIsFirst(replicas[1..], k - 1);
    }
  }

  /** FaultCap is the largest f with nc >= 3f + 1, and the honest members alone can form a quorum. */
  lemma {:induction false} QuorumArithmetic(number: nat, replicas: seq<Replica>)
    ensures var c := NewCommittee(number, replicas);
            && (forall q: nat :: q >= c.QuorumSize() <==> 2 * q >= |replicas| + c.faultCap + 1)
            && 2 * c.QuorumSize() >= |replicas| + c.faultCap + 1
            && (replicas != [] ==>
                 && 3 * c.faultCap + 1 <= |replicas| <= 3 * c.faultCap + 3
                 && c.QuorumSize() <= |replicas| - c.faultCap
                 && 2 * c.faultCap + 1 <= |replicas| - c.faultCap)
  {
  }

  /** Any two sets of q members have f + 1 in common. */
  ghost predicate ShareMembers(ids: seq<string>, q: nat, f: nat) {
    forall a: set<string>, b: set<string> ::
      a <= Elements(ids) && b <= Elements(ids) && |a| == |b| == q ==> |a * b| >= f + 1
  }

  lemma {:induction false} ShareEnough(ids: seq<string>, q: nat, f: nat)
    requires Distinct(ids) && 2 * q >= |ids| + f + 1
    ensures ShareMembers(ids, q, f)
  {
    DistinctCardinality(ids);
    forall a: set<string>, b: set<string> | a <= Elements(ids) && b <= Elements(ids) && |a| == |b| == q
      ensures |a * b| >= f + 1
    {
      SubsetCardinality(a + b, Elements(ids));
      assert |a + b| == |a| + |b| - |a * b|;
    }
  }

  lemma {:induction false} SliceCardinality(ids: seq<string>, i: nat, j: nat)
    requires Distinct(ids) && i <= j <= |ids|
    ensures Elements(ids[i..j]) <= Elements(ids) && |Elements(ids[i..j])| == j - i
  {
    DistinctCardinality(ids[i..j]);
  }

  /** What the first and the last q of a list have in common lies in the middle. */
  lemma {:induction false} EndsMeetInTheMiddle(ids: seq<string>, q: nat)
    requires Distinct(ids) && q <= |ids| < 2 * q
    ensures Elements(ids[..q]) * Elements(ids[|ids| - q..]) <= Elements(ids[|ids| - q..q])
  {
    var first := |ids| - q;
    forall x | x in Elements(ids[..q]) && x in Elements(ids[first..])
      ensures x in Elements(ids[first..q])
    {
      var i :| 0 <= i < q && ids[..q][i] == x;
      var j :| 0 <= j < q && ids[first..][j] == x;
      assert ids[i] == ids[first + j];
      assert ids[first..q][j] == x;
    }
  }

  lemma {:induction false} HalvesAreDisjoint(ids: seq<string>, q: nat)
    requires Distinct(ids) && 2 * q <= |ids|
    ensures Elements(ids[..q]) * Elements(ids[|ids| - q..]) == {}
  {
    forall x | x in ids[..q]
      ensures x !in ids[|ids| - q..]
    {
    }
  }

  lemma {:induction false} MiddleIsSmall(ids: seq<string>, q: nat)
    requires Distinct(ids) && q <= |ids| < 2 * q
    ensures |Elements(ids[..q]) * Elements(ids[|ids| - q..])| <= 2 * q - |ids|
  {
    EndsMeetInTheMiddle(ids, q);
    SliceCardinality(ids, |ids| - q, q);
    SubsetCardinality(Elements(ids[..q]) * Elements(ids[|ids| - q..]), Elements(ids[|ids| - q..q]));
  }

  lemma {:induction false} EndsAreQuorums(ids: seq<string>, q: nat)
    requires Distinct(ids) && q <= |ids|
    ensures Elements(ids[..q]) <= Elements(ids) && |Elements(ids[..q])| == q
    ensures Elements(ids[|ids| - q..]) <= Elements(ids) && |Elements(ids[|ids| - q..])| == q
  {
    SliceCardinality(ids, 0, q);
    SliceCardinality(ids, |ids| - q, |ids|);
    assert ids[0..q] == ids[..q] && ids[|ids| - q..|ids|] == ids[|ids| - q..];
  }

  /** The first and the last q members have as little in common as there is room for. */
  lemma {:induction false} EndsOverlap(ids: seq<string>, q: nat) returns (a: set<string>, b: set<string>)
    requires Distinct(ids) && q <= |ids|
    ensures a <= Elements(ids) && b <= Elements(ids) && |a| == |b| == q
    ensures |a * b| <= if 2 * q <= |ids| then 0 else 2 * q - |ids|
  {
    EndsAreQuorums(ids, q);
    a, b := Elements(ids[..q]), Elements(ids[|ids| - q..]);
    if 2 * q <= |ids| {
      HalvesAreDisjoint(ids, q);
    } else {
      MiddleIsSmall(ids, q);
    }
  }

  /** Qc is the least size at which any two sets of so many members share an honest one. */
  lemma {:induction false} QuorumIsLeast(c: Config, q: nat)
    requires Distinct(Ids(c.replicas)) && q <= |c.replicas|
    ensures ShareMembers(Ids(c.replicas), q, c.faultCap) <==> q >= c.QuorumSize()
  {
    if 2 * q >= |c.replicas| + c.faultCap + 1 {
      ShareEnough(Ids(c.replicas), q, c.faultCap);
    } else {
      var a, b := EndsOverlap(Ids(c.replicas), q);
    }
  }

  // ---------------------------------------------------------------- request classification

  predicate IsMembership(req: Request) {
    req.kind == Add || req.kind == Remove
  }

  predicate KnownKind(req: Request) {
    !req.kind.Unknown?
  }

  /** Everything that is neither ADD nor REMOVE counts as regular, unnamed types included. */
  function RegularPart(batch: seq<Request>): seq<Request> {
    if batch == [] then []
    else RegularPart(batch[..|batch| - 1]) + if IsMembership(batch[|batch| - 1]) then [] else [batch[|batch| - 1]]
  }

  function MembershipPart(batch: seq<Request>): seq<Request> {
    if batch == [] then []
    else MembershipPart(batch[..|batch| - 1]) + if IsMembership(batch[|batch| - 1]) then [batch[|batch| - 1]] else []
  }

  lemma {:induction false} PartsNext(init: seq<Request>, last: Request)
    ensures RegularPart(init + [last]) == RegularPart(init) + if IsMembership(last) then [] else [last]
    ensures MembershipPart(init + [last]) == MembershipPart(init) + if IsMembership(last) then [last] else []
  {
    assert (init + [last])[..|init + [last]| - 1] == init;
  }

  lemma {:induction false} PartsHoldAll(batch: seq<Request>)
    ensures multiset(RegularPart(batch)) + multiset(MembershipPart(batch)) == multiset(batch)
  {
    if batch != [] {
      var init, last := batch[..|batch| - 1], batch[|batch| - 1];
      PartsHoldAll(init);
      assert batch == init + [last];
      PartsNext(init, last);
    }
  }

  lemma {:induction false} PartsTellApart(batch: seq<Request>, r: Request)
    ensures r in MembershipPart(batch) <==> r in batch && IsMembership(r)
    ensures r in RegularPart(batch) <==> r in batch && !IsMembership(r)
  {
    if batch != [] {
      var init, last := batch[..|batch| - 1], batch[|batch| - 1];
      PartsTellApart(init, r);
      assert batch == init + [last];
      PartsNext(init, last);
    }
  }

  /** Nothing is lost or invented, and the two parts are told apart by their type. */
  lemma {:induction false} PartsPartition(batch: seq<Request>)
    ensures multiset(RegularPart(batch)) + multiset(MembershipPart(batch)) == multiset(batch)
    ensures forall r :: r in MembershipPart(batch) <==> r in batch && IsMembership(r)
    ensures forall r :: r in RegularPart(batch) <==> r in batch && !IsMembership(r)
  {
    PartsHoldAll(batch);
    forall r
      ensures r in MembershipPart(batch) <==> r in batch && IsMembership(r)
      ensures r in RegularPart(batch) <==> r in batch && !IsMembership(r)
    {
      PartsTellApart(batch, r);
    }
  }

  /** How many of the first p requests are neither ADD nor REMOVE. */
  function RegularBefore(batch: seq<Request>, p: nat): nat
    requires p <= |batch|
  {
    if p == 0 then 0
    else RegularBefore(batch, p - 1) + if batch[p - 1].kind == Add || batch[p - 1].kind == Remove then 0 else 1
  }

  lemma {:induction false} RegularBeforePrefix(batch: seq<Request>, n: nat, p: nat)
    requires p <= n <= |batch|
    ensures RegularBefore(batch[..n], p) == RegularBefore(batch, p)
  {
    if p > 0 {
      RegularBeforePrefix(batch, n, p - 1);
    }
  }

  /** The regular part keeps the order of the batch. */
  lemma {:induction false} RegularInOrder(batch: seq<Request>)
    ensures |RegularPart(batch)| == RegularBefore(batch, |batch|)
    ensures forall p :: 0 <= p < |batch| && batch[p].kind != Add && batch[p].kind != Remove ==>
              RegularBefore(batch, p) < |RegularPart(batch)| && RegularPart(batch)[RegularBefore(batch, p)] == batch[p]
  {
    if batch != [] {
      var n := |batch| - 1;
      var init := batch[..n];
      RegularInOrder(init);
      RegularBeforePrefix(batch, n, n);
      forall p | 0 <= p < |batch| && batch[p].kind != Add && batch[p].kind != Remove
        ensures RegularBefore(batch, p) < |RegularPart(batch)|
        ensures RegularPart(batch)[RegularBefore(batch, p)] == batch[p]
      {
        RegularBeforePrefix(batch, n, p);
        if p < n {
          assert init[p] == batch[p];
        }
      }
    }
  }

  method ClassifyBatch(batch: seq<Request>) returns (regular: seq<Request>, membership: seq<Request>)
    ensures regular == RegularPart(batch) && membership == MembershipPart(batch)
  {
    regular, membership := [], [];
    for i := 0 to |batch|
      invariant regular == RegularPart(batch[..i]) && membership == MembershipPart(batch[..i])
    {
      assert batch[..i + 1][..i] == batch[..i];
      if IsMembership(batch[i]) {
        membership := membership + [batch[i]];
      } else {
        regular := regular + [batch[i]];
      }
    }
    assert batch[..|batch|] == batch;
  }

  predicate ValidRequest(req: Request, current: Config, parse: KeyParser) {
    match req.kind
    case Add => parse(req.payload).Some? && !current.Contains(req.clientId)
    case Remove => current.Contains(req.clientId)
    case _ => true
  }

  // ---------------------------------------------------------------- Apply

  datatype ApplyError = BadPayload(id: string) | NotMember(id: string) | UnknownType(code: int)

  /** The replicas whose id is not in `gone`, in their old order. */
  function Without(replicas: seq<Replica>, gone: set<string>): seq<Replica> {
    if replicas == [] then []
    else Without(replicas[..|replicas| - 1], gone) +
         if replicas[|replicas| - 1].id in gone then [] else [replicas[|replicas| - 1]]
  }

  function ApplyOne(replicas: seq<Replica>, req: Request, parse: KeyParser): Result<seq<Replica>, ApplyError> {
    match req.kind
    case Add =>
      (match parse(req.payload)
       case None => Err(BadPayload(req.clientId))
       case Some(key) => Ok(replicas + [Replica(req.clientId, "", Some(key))]))
    case Remove =>
      if req.clientId in Ids(replicas) then Ok(Without(replicas, {req.clientId})) else Err(NotMember(req.clientId))
    case Regular => Ok(replicas)
    case Unknown(code) => Err(UnknownType(code))
  }

  function ApplyAll(replicas: seq<Replica>, reqs: seq<Request>, parse: KeyParser): Result<seq<Replica>, ApplyError> {
    if reqs == [] then Ok(replicas)
    else
      match ApplyAll(replicas, reqs[..|reqs| - 1], parse)
      case Err(e) => Err(e)
      case Ok(rs) => ApplyOne(rs, reqs[|reqs| - 1], parse)
  }

  function ApplySpec(c: Config, reqs: seq<Request>, parse: KeyParser): Result<Config, ApplyError> {
    match ApplyAll(c.replicas, reqs, parse)
    case Err(e) => Err(e)
    case Ok(rs) => Ok(NewCommittee(c.number + 1, rs))
  }

  /** A request of a named type is valid exactly when applying it alone succeeds and leaves the ids distinct. */
  lemma {:induction false} ValidIffApplies(c: Config, req: Request, parse: KeyParser)
    requires Distinct(Ids(c.replicas)) && KnownKind(req)
    ensures ValidRequest(req, c, parse) <==>
            var r := ApplyAll(c.replicas, [req], parse);
            r.Ok? && Distinct(Ids(r.value))
  {
    assert [req][..0] == [];
    assert ApplyAll(c.replicas, [req], parse) == ApplyOne(c.replicas, req, parse);
    if req.kind == Remove {
      WithoutDistinct(c.replicas, {req.clientId});
    } else if req.kind == Add && parse(req.payload).Some? {
      var newcomer := Replica(req.clientId, "", parse(req.payload));
      assert Ids(c.replicas + [newcomer]) == Ids(c.replicas) + [newcomer.id];
      DistinctAppend(Ids(c.replicas), newcomer.id);
    }
  }

  lemma {:induction false} FirstErrorStays(replicas: seq<Replica>, reqs: seq<Request>, i: nat, parse: KeyParser)
    requires i <= |reqs| && ApplyAll(replicas, reqs[..i], parse).Err?
    ensures ApplyAll(replicas, reqs, parse) == ApplyAll(replicas, reqs[..i], parse)
  {
    if i == |reqs| {
      assert reqs[..i] == reqs;
    } else {
      assert reqs[..|reqs| - 1][..i] == reqs[..i];
      FirstErrorStays(replicas, reqs[..|reqs| - 1], i, parse);
    }
  }

  function KeptBefore(replicas: seq<Replica>, gone: set<string>, p: nat): nat
    requires p <= |replicas|
  {
    if p == 0 then 0 else KeptBefore(replicas, gone, p - 1) + if replicas[p - 1].id in gone then 0 else 1
  }

  lemma {:induction false} KeptBeforePrefix(replicas: seq<Replica>, gone: set<string>, n: nat, p: nat)
    requires p <= n <= |replicas|
    ensures KeptBefore(replicas[..n], gone, p) == KeptBefore(replicas, gone, p)
  {
    if p > 0 {
      KeptBeforePrefix(replicas, gone, n, p - 1);
    }
  }

  /** Everyone not removed stays, in the old order, whether or not ids repeat. */
  lemma {:induction false} SurvivorsInOrder(replicas: seq<Replica>, gone: set<string>)
    ensures |Without(replicas, gone)| == KeptBefore(replicas, gone, |replicas|)
    ensures forall p :: 0 <= p < |replicas| && replicas[p].id !in gone ==>
              && KeptBefore(replicas, gone, p) < |Without(replicas, gone)|
              && Without(replicas, gone)[KeptBefore(replicas, gone, p)] == replicas[p]
  {
    if replicas != [] {
      var n := |replicas| - 1;
      var init := replicas[..n];
      SurvivorsInOrder(init, gone);
      KeptBeforePrefix(replicas, gone, n, n);
      forall p | 0 <= p < |replicas| && replicas[p].id !in gone
        ensures KeptBefore(replicas, gone, p) < |Without(replicas, gone)|
        ensures Without(replicas, gone)[KeptBefore(replicas, gone, p)] == replicas[p]
      {
        KeptBeforePrefix(replicas, gone, n, p);
        if p < n {
          assert init[p] == replicas[p];
        }
      }
    }
  }

  /** Why the request at hand fails, in any committee and with any repetitions. */
  function FailureOf(members: seq<Replica>, req: Request, parse: KeyParser): Option<ApplyError> {
    if req.kind == Add && parse(req.payload) == None then Some(BadPayload(req.clientId))
    else if req.kind == Remove && forall k :: 0 <= k < |members| ==> members[k].id != req.clientId
    then Some(NotMember(req.clientId))
    else if req.kind.Unknown? then Some(UnknownType(req.kind.code))
    else None
  }

  /** What a request that does not fail makes of the members: one more, all but those of an id, or the same. */
  ghost predicate Changed(members: seq<Replica>, req: Request, parse: KeyParser, next: seq<Replica>) {
    match req.kind
    case Add =>
      && |next| == |members| + 1 && next[..|members|] == members
      && next[|members|] == Replica(req.clientId, "", parse(req.payload))
    case Remove =>
      && |next| == KeptBefore(members, {req.clientId}, |members|)
      && forall p :: 0 <= p < |members| && members[p].id != req.clientId ==>
           && KeptBefore(members, {req.clientId}, p) < |next|
           && next[KeptBefore(members, {req.clientId}, p)] == members[p]
    case _ => next == members
  }

  lemma {:induction false} OneRequest(members: seq<Replica>, req: Request, parse: KeyParser)
    ensures match FailureOf(members, req, parse)
            case Some(e) => ApplyOne(members, req, parse) == Err(e)
            case None =>
              ApplyOne(members, req, parse).Ok? && Changed(members, req, parse, ApplyOne(members, req, parse).value)
  {
    assert forall k :: 0 <= k < |members| ==> Ids(members)[k] == members[k].id;
    SurvivorsInOrder(members, {req.clientId});
  }

  /** In any batch and committee, repeated ids included, the first request that fails decides the error. */
  lemma {:induction false} FirstFailureDecides(replicas: seq<Replica>, reqs: seq<Request>, i: nat, parse: KeyParser)
    requires i < |reqs| && ApplyAll(replicas, reqs[..i], parse).Ok?
    ensures var members, next := ApplyAll(replicas, reqs[..i], parse).value, ApplyAll(replicas, reqs[..i + 1], parse);
            match FailureOf(members, reqs[i], parse)
            case Some(e) => ApplyAll(replicas, reqs, parse) == Err(e)
            case None => next.Ok? && Changed(members, reqs[i], parse, next.value)
  {
    assert reqs[..i + 1][..i] == reqs[..i];
    OneRequest(ApplyAll(replicas, reqs[..i], parse).value, reqs[i], parse);
    if ApplyAll(replicas, reqs[..i + 1], parse).Err? {
      FirstErrorStays(replicas, reqs, i + 1, parse);
    }
  }

  lemma {:induction false} WithoutShrinks(a: seq<Replica>, id: string)
    ensures |Without(a, {id})| <= |a|
    ensures |Without(a, {id})| < |a| <==> id in Ids(a)
  {
    if a != [] {
      WithoutShrinks(a[..|a| - 1], id);
      assert Ids(a) == Ids(a[..|a| - 1]) + [a[|a| - 1].id];
    }
  }

  /** `out := filtered[:0]`: survivors are written back over the slice they are read from. */
  method FilterInPlace(filtered: array<Replica>, len: nat, target: string) returns (n: nat, found: bool)
    requires len <= filtered.Length
    modifies filtered
    ensures n <= len && filtered[..n] == Without(old(filtered[..len]), {target})
    ensures found <==> target in Ids(old(filtered[..len]))
  {
    n, found := 0, false;
    ghost var all := filtered[..len];
    for i := 0 to len
      invariant n <= i && forall k :: i <= k < len ==> filtered[k] == all[k]
      invariant filtered[..n] == Without(all[..i], {target})
      invariant found <==> n < i
    {
      assert all[..i + 1][..i] == all[..i];
      if filtered[i].id == target {
        found := true;
      } else {
        filtered[n] := filtered[i];
        n := n + 1;
      }
    }
    assert all[..len] == all;
    WithoutShrinks(all, target);
  }

  /** A copy of the first len elements, in a new array with so much spare capacity. */
  method CopyOf(src: array<Replica>, len: nat, spare: nat) returns (dst: array<Replica>)
    requires len <= src.Length
    ensures fresh(dst) && dst.Length == len + spare && dst[..len] == src[..len]
  {
    dst := new Replica[len + spare](k requires 0 <= k reads src => if k < len then src[k] else Replica("", "", None));
  }

  /** Go's `append`: in place while there is spare capacity, else in a larger copy. */
  method AppendTo(src: array<Replica>, len: nat, r: Replica, spare: nat) returns (dst: array<Replica>)
    requires len <= src.Length
    modifies src
    ensures (dst == src && len < src.Length) || fresh(dst)
    ensures len < dst.Length && dst[..len + 1] == old(src[..len]) + [r]
  {
    dst := src;
    if len == src.Length {
      dst := CopyOf(src, len, 1 + spare);
    }
    dst[len] := r;
  }

  /** The switch of `Apply` on one request, on a working slice that is the first len elements of buf. */
  method ApplyRequest(buf: array<Replica>, len: nat, req: Request, parse: KeyParser, spare: nat)
      returns (err: Option<ApplyError>, next: array<Replica>, n: nat)
    requires len <= buf.Length
    modifies buf
    ensures (next == buf || fresh(next)) && n <= next.Length
    ensures ApplyOne(old(buf[..len]), req, parse) == if err == None then Ok(next[..n]) else Err(err.value)
  {
    err, next, n := None, buf, len;
    match req.kind {
      case Add =>
        var key := parse(req.payload);
        if key == None {
          err := Some(BadPayload(req.clientId));
        } else {
          next := AppendTo(buf, len, Replica(req.clientId, "", Some(key.value)), spare);
          n := len + 1;
        }
      case Remove =>
        next := CopyOf(buf, len, spare);
        var found: bool;
        n, found := FilterInPlace(next, len, req.clientId);
        if !found {
          err := Some(NotMember(req.clientId));
        }
      case Regular =>
      case Unknown(code) =>
        err := Some(UnknownType(code));
    }
  }

  /**
   * `Apply` on slices: `Clone` copies the original, later appends and filters write in place where capacity allows,
   * and the original array never changes. `spare` is whatever extra capacity the runtime gives a grown slice.
   */
  method ApplyToSlice(original: array<Replica>, reqs: seq<Request>, parse: KeyParser, spare: nat)
      returns (err: Option<ApplyError>, buf: array<Replica>, len: nat)
    ensures original[..] == old(original[..]) && fresh(buf) && len <= buf.Length
    ensures ApplyAll(original[..], reqs, parse) == if err == None then Ok(buf[..len]) else Err(err.value)
  {
    err, len := None, original.Length;
    buf := CopyOf(original, len, 0);
    ghost var all := original[..];
    assert buf[..len] == all;
    for i := 0 to |reqs|
      invariant err == None && fresh(buf) && len <= buf.Length && original[..] == all
      invariant ApplyAll(all, reqs[..i], parse) == Ok(buf[..len])
    {
      assert reqs[..i + 1][..i] == reqs[..i];
      err, buf, len := ApplyRequest(buf, len, reqs[i], parse, spare);
      if err != None {
        FirstErrorStays(all, reqs, i + 1, parse);
        return;
      }
    }
    assert reqs[..|reqs|] == reqs;
  }

  method Apply(c: Config, reqs: seq<Request>, parse: KeyParser) returns (r: Result<Config, ApplyError>)
    ensures r == ApplySpec(c, reqs, parse)
  {
    var original := new Replica[|c.replicas|](k requires 0 <= k < |c.replicas| => c.replicas[k]);
    assert original[..] == c.replicas;
    var err, buf, len := ApplyToSlice(original, reqs, parse, 0);
    if err != None {
      return Err(err.value);
    }
    r := Ok(Config(c.number + 1, buf[..len], if len > 0 then (len - 1) / 3 else 0));
  }

  // ---------------------------------------------------------------- what Apply computes

  function RequestIds(reqs: seq<Request>): seq<string> {
    seq(|reqs|, i requires 0 <= i < |reqs| => reqs[i].clientId)
  }

  function RemovedIds(reqs: seq<Request>): set<string> {
    set r | r in reqs && r.kind == Remove :: r.clientId
  }

  function Added(reqs: seq<Request>, parse: KeyParser): seq<Replica> {
    if reqs == [] then []
    else
      var last := reqs[|reqs| - 1];
      Added(reqs[..|reqs| - 1], parse) +
      if last.kind == Add then [Replica(last.clientId, "", parse(last.payload))] else []
  }

  function Count(reqs: seq<Request>, kind: RequestType): nat {
    if reqs == [] then 0
    else Count(reqs[..|reqs| - 1], kind) + if reqs[|reqs| - 1].kind == kind then 1 else 0
  }

  lemma {:induction false} WithoutConcat(a: seq<Replica>, b: seq<Replica>, gone: set<string>)
    ensures Without(a + b, gone) == Without(a, gone) + Without(b, gone)
  {
    if b == [] {
      assert a + b == a;
    } else {
      assert (a + b)[..|a + b| - 1] == a + b[..|b| - 1];
      WithoutConcat(a, b[..|b| - 1], gone);
    }
  }

  lemma {:induction false} WithoutTwice(a: seq<Replica>, g: set<string>, h: set<string>)
    ensures Without(Without(a, g), h) == Without(a, g + h)
  {
    if a != [] {
      var last := a[|a| - 1];
      WithoutTwice(a[..|a| - 1], g, h);
      WithoutConcat(Without(a[..|a| - 1], g), if last.id in g then [] else [last], h);
    }
  }

  lemma {:induction false} WithoutIds(a: seq<Replica>, gone: set<string>)
    ensures forall id :: id in Ids(Without(a, gone)) <==> id in Ids(a) && id !in gone
  {
    if a != [] {
      var init, last := a[..|a| - 1], a[|a| - 1];
      WithoutIds(init, gone);
      assert Ids(a) == Ids(init) + [last.id];
      if last.id !in gone {
        assert Ids(Without(a, gone)) == Ids(Without(init, gone)) + [last.id];
      } else {
        assert Ids(Without(a, gone)) == Ids(Without(init, gone));
      }
    }
  }

  lemma {:induction false} WithoutStrangers(a: seq<Replica>, gone: set<string>)
    requires forall id :: id in gone ==> id !in Ids(a)
    ensures Without(a, gone) == a
  {
    if a != [] {
      var init, last := a[..|a| - 1], a[|a| - 1];
      assert Ids(a) == Ids(init) + [last.id];
      WithoutStrangers(init, gone);
      assert last.id in Ids(a);
    }
  }

  lemma {:induction false} WithoutDistinct(a: seq<Replica>, gone: set<string>)
    requires Distinct(Ids(a))
    ensures Distinct(Ids(Without(a, gone)))
  {
    if a != [] {
      var init, last := a[..|a| - 1], a[|a| - 1];
      assert Ids(a) == Ids(init) + [last.id];
      DistinctAppend(Ids(init), last.id);
      WithoutDistinct(init, gone);
      WithoutIds(init, gone);
      assert last.id !in gone ==> Ids(Without(a, gone)) == Ids(Without(init, gone)) + [last.id];
      assert last.id in gone ==> Without(a, gone) == Without(init, gone);
      DistinctAppend(Ids(Without(init, gone)), last.id);
    }
  }

  lemma {:induction false} WithoutOneSize(a: seq<Replica>, id: string)
    requires Distinct(Ids(a)) && id in Ids(a)
    ensures |Without(a, {id})| == |a| - 1
  {
    var init, last := a[..|a| - 1], a[|a| - 1];
    assert Ids(a) == Ids(init) + [last.id];
    DistinctAppend(Ids(init), last.id);
    if last.id == id {
      WithoutStrangers(init, {id});
    } else {
      WithoutOneSize(init, id);
    }
  }

  lemma {:induction false} AddedIds(reqs: seq<Request>, parse: KeyParser)
    ensures forall id :: id in Ids(Added(reqs, parse)) ==> id in RequestIds(reqs)
  {
    if reqs != [] {
      var init, last := reqs[..|reqs| - 1], reqs[|reqs| - 1];
      AddedIds(init, parse);
      assert RequestIds(reqs) == RequestIds(init) + [last.clientId];
      if last.kind == Add {
        assert Ids(Added(reqs, parse)) == Ids(Added(init, parse)) + [last.clientId];
      } else {
        assert Added(reqs, parse) == Added(init, parse);
      }
    }
  }

  /** Distinct members, and changes to different ids, each valid against the committee. */
  ghost predicate WellFormedChanges(c: Config, reqs: seq<Request>, parse: KeyParser) {
    && Distinct(Ids(c.replicas))
    && Distinct(RequestIds(reqs))
    && forall r :: r in reqs ==> IsMembership(r) && ValidRequest(r, c, parse)
  }

  /** A batch as the membership rules want it: at most one ADD or REMOVE per id; clients may repeat. */
  ghost predicate WellFormedBatch(c: Config, reqs: seq<Request>, parse: KeyParser) {
    && Distinct(Ids(c.replicas))
    && Distinct(RequestIds(MembershipPart(reqs)))
    && forall r :: r in reqs ==> ValidRequest(r, c, parse)
  }

  lemma LastIdIsNew(init: seq<Request>, last: Request)
    requires Distinct(RequestIds(init + [last]))
    ensures Distinct(RequestIds(init)) && last.clientId !in RequestIds(init)
    ensures last.clientId !in RemovedIds(init)
  {
    assert RequestIds(init + [last]) == RequestIds(init) + [last.clientId];
    DistinctAppend(RequestIds(init), last.clientId);
    forall r | r in init
      ensures r.clientId in RequestIds(init)
    {
      var k :| 0 <= k < |init| && init[k] == r;
      assert RequestIds(init)[k] == r.clientId;
    }
  }

  /** What holds after any prefix of a well-formed batch: survivors in order, then newcomers in batch order. */
  ghost predicate ClosedForm(c: Config, reqs: seq<Request>, parse: KeyParser) {
    var rs := Without(c.replicas, RemovedIds(reqs)) + Added(reqs, parse);
    && ApplyAll(c.replicas, reqs, parse) == Ok(rs)
    && Distinct(Ids(rs))
    && |rs| == |c.replicas| + Count(reqs, Add) - Count(reqs, Remove)
  }

  /** The ids left after a prefix: old ones not removed, and requested ones. */
  lemma IdsAfter(c: Config, reqs: seq<Request>, parse: KeyParser, id: string)
    requires id !in RequestIds(reqs) && id !in RemovedIds(reqs)
    ensures id !in Ids(Added(reqs, parse))
    ensures id in Ids(Without(c.replicas, RemovedIds(reqs)) + Added(reqs, parse)) <==> id in Ids(c.replicas)
  {
    AddedIds(reqs, parse);
    WithoutIds(c.replicas, RemovedIds(reqs));
    var w, a := Without(c.replicas, RemovedIds(reqs)), Added(reqs, parse);
    assert Ids(w + a) == Ids(w) + Ids(a);
  }

  lemma {:induction false} NewcomerIsDistinct(rs: seq<Replica>, newcomer: Replica)
    requires Distinct(Ids(rs)) && newcomer.id !in Ids(rs)
    ensures Distinct(Ids(rs + [newcomer]))
  {
    assert Ids(rs + [newcomer]) == Ids(rs) + [newcomer.id];
    DistinctAppend(Ids(rs), newcomer.id);
  }

  lemma {:induction false} AddApplies(replicas: seq<Replica>, init: seq<Request>, last: Request, parse: KeyParser,
      rs: seq<Replica>)
    requires ApplyAll(replicas, init, parse) == Ok(rs) && last.kind == Add && parse(last.payload).Some?
    ensures var reqs, newcomer := init + [last], Replica(last.clientId, "", parse(last.payload));
            && ApplyAll(replicas, reqs, parse) == Ok(rs + [newcomer])
            && Added(reqs, parse) == Added(init, parse) + [newcomer]
            && Count(reqs, Add) == Count(init, Add) + 1 && Count(reqs, Remove) == Count(init, Remove)
  {
    assert (init + [last])[..|init + [last]| - 1] == init;
  }

  lemma {:induction false} ClosedFormAdd(c: Config, init: seq<Request>, last: Request, parse: KeyParser)
    requires ClosedForm(c, init, parse)
    requires last.kind == Add && ValidRequest(last, c, parse)
    requires last.clientId !in RequestIds(init) && last.clientId !in RemovedIds(init)
    ensures ClosedForm(c, init + [last], parse)
  {
    var reqs := init + [last];
    assert RemovedIds(reqs) == RemovedIds(init);
    IdsAfter(c, init, parse, last.clientId);
    var rs := Without(c.replicas, RemovedIds(init)) + Added(init, parse);
    var newcomer := Replica(last.clientId, "", parse(last.payload));
    AddApplies(c.replicas, init, last, parse, rs);
    NewcomerIsDistinct(rs, newcomer);
    assert rs + [newcomer] == Without(c.replicas, RemovedIds(reqs)) + Added(reqs, parse);
  }

  lemma {:induction false} RemovalJoins(init: seq<Request>, last: Request)
    requires last.kind == Remove
    ensures RemovedIds(init + [last]) == RemovedIds(init) + {last.clientId}
  {
    assert last in init + [last];
  }

  lemma {:induction false} ClosedFormRemove(c: Config, init: seq<Request>, last: Request, parse: KeyParser)
    requires ClosedForm(c, init, parse)
    requires last.kind == Remove && ValidRequest(last, c, parse)
    requires last.clientId !in RequestIds(init) && last.clientId !in RemovedIds(init)
    ensures ClosedForm(c, init + [last], parse)
  {
    var reqs := init + [last];
    assert reqs[..|reqs| - 1] == init;
    var gone, id := RemovedIds(init), last.clientId;
    RemovalJoins(init, last);
    IdsAfter(c, init, parse, id);
    var w, a := Without(c.replicas, gone), Added(init, parse);
    WithoutConcat(w, a, {id});
    WithoutTwice(c.replicas, gone, {id});
    WithoutStrangers(a, {id});
    WithoutDistinct(w + a, {id});
    WithoutOneSize(w + a, id);
    assert Added(reqs, parse) == a;
  }

  lemma {:induction false} ApplyAllClosedForm(c: Config, reqs: seq<Request>, parse: KeyParser)
    requires WellFormedChanges(c, reqs, parse)
    ensures ClosedForm(c, reqs, parse)
  {
    if reqs == [] {
      WithoutStrangers(c.replicas, {});
      assert RemovedIds(reqs) == {};
      assert c.replicas + [] == c.replicas;
    } else {
      var init, last := reqs[..|reqs| - 1], reqs[|reqs| - 1];
      assert reqs == init + [last];
      LastIdIsNew(init, last);
      ApplyAllClosedForm(c, init, parse);
      assert last in reqs;
      if last.kind == Add {
        ClosedFormAdd(c, init, last, parse);
      } else {
        ClosedFormRemove(c, init, last, parse);
      }
    }
  }

  /** Regular requests leave no trace in what Apply computes. */
  lemma {:induction false} PartKeepsChanges(batch: seq<Request>, parse: KeyParser)
    ensures RemovedIds(MembershipPart(batch)) == RemovedIds(batch)
    ensures Added(MembershipPart(batch), parse) == Added(batch, parse)
    ensures Count(MembershipPart(batch), Add) == Count(batch, Add)
    ensures Count(MembershipPart(batch), Remove) == Count(batch, Remove)
    ensures forall r :: r in MembershipPart(batch) <==> r in batch && IsMembership(r)
  {
    if batch != [] {
      var init, last := batch[..|batch| - 1], batch[|batch| - 1];
      PartKeepsChanges(init, parse);
      assert batch == init + [last];
      var part := MembershipPart(init);
      if IsMembership(last) {
        assert (part + [last])[..|part + [last]| - 1] == part;
      } else {
        assert MembershipPart(batch) == part + [] == part;
      }
    }
  }

  lemma {:induction false} UnknownKindFails(replicas: seq<Replica>, reqs: seq<Request>, parse: KeyParser)
    requires exists r :: r in reqs && !KnownKind(r)
    ensures ApplyAll(replicas, reqs, parse).Err?
  {
    var init, last := reqs[..|reqs| - 1], reqs[|reqs| - 1];
    if KnownKind(last) {
      var r :| r in reqs && !KnownKind(r);
      assert reqs == init + [last];
      assert r in init;
      UnknownKindFails(replicas, init, parse);
    }
  }

  lemma {:induction false} RegularRequestsDoNotMatter(replicas: seq<Replica>, batch: seq<Request>, parse: KeyParser)
    requires forall r :: r in batch ==> KnownKind(r)
    ensures ApplyAll(replicas, batch, parse) == ApplyAll(replicas, MembershipPart(batch), parse)
  {
    if batch != [] {
      var init, last := batch[..|batch| - 1], batch[|batch| - 1];
      RegularRequestsDoNotMatter(replicas, init, parse);
      var part := MembershipPart(batch);
      if IsMembership(last) {
        assert part == MembershipPart(init) + [last];
        assert part[..|part| - 1] == MembershipPart(init);
      } else {
        assert part == MembershipPart(init);
        assert last in batch && KnownKind(last);
      }
    }
  }

  /**
   * Validation waves unnamed request types through as regular while Apply rejects them, so a validated batch
   * is applied exactly when all its types are named; then the result is in closed form.
   */
  lemma {:induction false} ApplyOnValidBatch(c: Config, reqs: seq<Request>, parse: KeyParser)
    requires WellFormedBatch(c, reqs, parse)
    ensures ApplySpec(c, reqs, parse).Ok? <==> forall r :: r in reqs ==> KnownKind(r)
    ensures ApplySpec(c, reqs, parse).Ok? ==>
              var next := ApplySpec(c, reqs, parse).value;
              && next.number == c.number + 1
              && next.replicas == Without(c.replicas, RemovedIds(reqs)) + Added(reqs, parse)
              && Distinct(Ids(next.replicas))
              && |next.replicas| == |c.replicas| + Count(reqs, Add) - Count(reqs, Remove)
              && (next.replicas != [] ==> 3 * next.faultCap + 1 <= |next.replicas| <= 3 * next.faultCap + 3)
  {
    if forall r :: r in reqs ==> KnownKind(r) {
      PartKeepsChanges(reqs, parse);
      RegularRequestsDoNotMatter(c.replicas, reqs, parse);
      ApplyAllClosedForm(c, MembershipPart(reqs), parse);
    } else {
      UnknownKindFails(c.replicas, reqs, parse);
    }
  }

  datatype SizeError = TooSmall | NoFaultTolerance

  function Validate(c: Config): Option<SizeError> {
    if |c.replicas| < 4 then Some(TooSmall) else if c.faultCap < 1 then Some(NoFaultTolerance) else None
  }

  /** Apply itself does not validate: the next committee is valid exactly when the batch leaves four or more members. */
  lemma {:induction false} NextCommitteeIsValid(c: Config, reqs: seq<Request>, parse: KeyParser)
    requires WellFormedBatch(c, reqs, parse) && ApplySpec(c, reqs, parse).Ok?
    ensures Validate(ApplySpec(c, reqs, parse).value) == None <==>
            |c.replicas| + Count(reqs, Add) - Count(reqs, Remove) >= 4
    ensures Validate(ApplySpec(c, reqs, parse).value) != Some(NoFaultTolerance)
  {
    ApplyOnValidBatch(c, reqs, parse);
  }

  /** Applying a batch of named types is applying its membership part; an unnamed type makes the whole batch fail. */
  lemma {:induction false} ApplyIgnoresRegular(c: Config, batch: seq<Request>, parse: KeyParser)
    ensures (forall r :: r in batch ==> KnownKind(r)) ==>
              ApplySpec(c, batch, parse) == ApplySpec(c, MembershipPart(batch), parse)
    ensures (exists r :: r in batch && !KnownKind(r)) ==> ApplySpec(c, batch, parse).Err?
  {
    if forall r :: r in batch ==> KnownKind(r) {
      RegularRequestsDoNotMatter(c.replicas, batch, parse);
    } else {
      UnknownKindFails(c.replicas, batch, parse);
    }
  }
}
