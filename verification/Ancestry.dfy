/** Block stores keyed by block hash, and the two bounded ancestor walks of the bench harnesses. */
module Ancestry {
  import opened Types

  type Store = map<Hash, Block>

  const MAX_HOPS: nat := 1024

  /** The hash reached from h after k parent hops through stored blocks. */
  function Hop(store: Store, h: Hash, k: nat): Option<Hash> {
    if k == 0 then Some(h)
    else
      match Hop(store, h, k - 1)
      case None => None
      case Some(g) => if g in store then Some(store[g].parentHash) else None
  }

  ghost predicate ReachesWithin(store: Store, h: Hash, ancestor: Hash, hops: nat) {
    exists k: nat :: k < hops && Hop(store, h, k) == Some(ancestor)
  }

  /** What `Extends` decides: the ancestor lies at most 1023 parent hops away. */
  ghost predicate Extends(store: Store, child: Hash, ancestor: Hash) {
    ReachesWithin(store, child, ancestor, MAX_HOPS)
  }

  lemma {:induction false} HopsStop(store: Store, h: Hash, i: nat, k: nat)
    requires i <= k && Hop(store, h, i) == None
    ensures Hop(store, h, k) == None
  {
    if i < k {
      HopsStop(store, h, i, k - 1);
    }
  }

  /** Each of these hashes is the parent hash of the one before it, and they are all different. */
  ghost predicate ParentChain(store: Store, hs: seq<Hash>) {
    && Distinct(hs)
    && forall i :: 0 <= i && i + 1 < |hs| ==> hs[i] in store && store[hs[i]].parentHash == hs[i + 1]
  }

  lemma {:induction false} HopsFollowChain(store: Store, hs: seq<Hash>, k: nat)
    requires ParentChain(store, hs) && k < |hs|
    ensures Hop(store, hs[0], k) == Some(hs[k])
  {
    if k > 0 {
      HopsFollowChain(store, hs, k - 1);
      assert hs[k - 1] in store && store[hs[k - 1]].parentHash == hs[k - 1 + 1];
    }
  }

  /** On a chain of any length exactly the block itself and the 1023 below it are found. */
  lemma {:induction false} ChainIsFoundIff(store: Store, hs: seq<Hash>, k: nat)
    requires ParentChain(store, hs) && k < |hs|
    ensures Extends(store, hs[0], hs[k]) <==> k <= 1023
  {
    HopsFollowChain(store, hs, k);
    if Extends(store, hs[0], hs[k]) {
      var j: nat :| j < MAX_HOPS && Hop(store, hs[0], j) == Some(hs[k]);
      if k > j {
        HopsFollowChain(store, hs, j);
      }
    }
  }

  /** The walk of repbench. */
  method ExtendsPlain(store: Store, child: Hash, ancestor: Hash) returns (r: bool)
    ensures r <==> Extends(store, child, ancestor)
  {
    if child == ancestor {
      assert Hop(store, child, 0) == Some(ancestor);
      return true;
    }
    var cur := child;
    for i := 0 to MAX_HOPS
      invariant Hop(store, child, i) == Some(cur)
      invariant forall k: nat :: k < i ==> Hop(store, child, k) != Some(ancestor)
    {
      if cur == ancestor {
        return true;
      }
      if cur !in store {
        assert Hop(store, child, i + 1) == None;
        forall k: nat | i < k
          ensures Hop(store, child, k) == None
        {
          HopsStop(store, child, i + 1, k);
        }
        return false;
      }
      cur := store[cur].parentHash;
    }
    return false;
  }

  /** Once a walk revisits a hash, every later hop repeats an earlier one. */
  lemma {:induction false} RevisitClosesTheWalk(store: Store, h: Hash, j: nat, i: nat, k: nat) returns (m: nat)
    requires j < i && Hop(store, h, i).Some? && Hop(store, h, j) == Hop(store, h, i)
    ensures m < i && Hop(store, h, m) == Hop(store, h, k)
  {
    if k < i {
      m := k;
    } else {
      var p := RevisitClosesTheWalk(store, h, j, i, k - 1);
      m := if p + 1 < i then p + 1 else j;
      assert Hop(store, h, p + 1) == Hop(store, h, k);
    }
  }

  /** The walk of benchutil, which also gives up at a hash it has seen: same answer on every store. */
  method ExtendsVisited(store: Store, child: Hash, ancestor: Hash) returns (r: bool)
    ensures r <==> Extends(store, child, ancestor)
  {
    if child == ancestor {
      assert Hop(store, child, 0) == Some(ancestor);
      return true;
    }
    var visited: set<Hash> := {};
    var cur := child;
    for i := 0 to MAX_HOPS
      invariant Hop(store, child, i) == Some(cur)
      invariant forall k: nat :: k < i ==> Hop(store, child, k) != Some(ancestor)
      invariant forall g :: g in visited ==> exists k: nat :: k < i && Hop(store, child, k) == Some(g)
    {
      if cur == ancestor {
        return true;
      }
      if cur in visited {
        ghost var j: nat :| j < i && Hop(store, child, j) == Some(cur);
        forall k: nat
          ensures Hop(store, child, k) != Some(ancestor)
        {
          var m := RevisitClosesTheWalk(store, child, j, i, k);
        }
        return false;
      }
      visited := visited + {cur};
      if cur !in store {
        assert Hop(store, child, i + 1) == None;
        forall k: nat | i < k
          ensures Hop(store, child, k) == None
        {
          HopsStop(store, child, i + 1, k);
        }
        return false;
      }
      cur := store[cur].parentHash;
    }
    return false;
  }
}
