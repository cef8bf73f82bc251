/** The wire records of proto/dhotstuff.proto and the helper types the other modules share. */
module Types {

  newtype byte = x: int | 0 <= x < 256

  type Bytes = seq<byte>
  type Hash = Bytes

  /** SHA-256 is never interpreted: every statement holds for all functions in its place. */
  type Sha = Bytes -> Bytes

  datatype Option<+T> = None | Some(value: T)

  datatype Result<+T, +E> = Ok(value: T) | Err(error: E)

  /** A proto3 enumeration is open, so a decoded request may carry a number without a name. */
  datatype RequestType = Regular | Add | Remove | Unknown(code: int)

  datatype Request = Request(kind: RequestType, clientId: string, payload: Bytes)

  datatype QuorumCert = QuorumCert(view: nat, conf: nat, blockHash: Hash, sigs: seq<Bytes>, signers: seq<string>)

  datatype Block = Block(parentHash: Hash, batch: seq<Request>, justify: Option<QuorumCert>, height: nat, conf: nat)

  datatype Vote = Vote(view: nat, conf: nat, blockHash: Hash, sig: Bytes, signer: string)

  datatype NewViewMsg = NewViewMsg(view: nat, conf: nat, genericQC: Option<QuorumCert>)

  /** The getter `GetViewNumber` of a certificate that may be nil. */
  function ViewOf(qc: Option<QuorumCert>): nat {
    match qc
    case None => 0
    case Some(c) => c.view
  }

  /** No value occurs twice. */
  ghost predicate Distinct<T>(s: seq<T>) {
    forall i, j :: 0 <= i < j < |s| ==> s[i] != s[j]
  }

  lemma DistinctAppend<T>(s: seq<T>, x: T)
    ensures Distinct(s + [x]) <==> Distinct(s) && x !in s
  {
    var t := s + [x];
    assert forall k :: 0 <= k < |s| ==> t[k] == s[k];
    if Distinct(t) {
      assert forall k :: 0 <= k < |s| ==> t[k] != t[|s|];
    }
  }

  function Elements<T(==)>(s: seq<T>): set<T> {
    set x | x in s
  }

  lemma {:induction false} DistinctCardinality<T>(s: seq<T>)
    ensures |Elements(s)| <= |s|
    ensures Distinct(s) ==> |Elements(s)| == |s|
  {
    if s != [] {
      DistinctCardinality(s[1..]);
      assert Elements(s) == {s[0]} + Elements(s[1..]);
      if Distinct(s) {
        assert s[0] !in s[1..];
      }
    }
  }

  lemma SubsetCardinality<T>(a: set<T>, b: set<T>)
    requires a <= b
    ensures |a| <= |b|
  {
    assert b == a + (b - a);
  }
}
