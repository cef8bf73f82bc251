/** The four-slot commit window, as a function of everything fed to it since the last reset. */
module Pipeline {
  import opened Types
  import opened Encoding

  /** A slot may be nil, and so may the block that is fed. */
  type Slot = Option<Block>

  const EMPTY: seq<Slot> := [None, None, None, None]

  /** The last four slots of what was fed, padded with nil in front. */
  function WindowOf(fed: seq<Slot>): (w: seq<Slot>)
    ensures |w| == 4
  {
    (EMPTY + fed)[|fed|..]
  }

  predicate Linked(sha: Sha, child: Slot, parent: Slot) {
    child.Some? && parent.Some? && child.value.parentHash == HashBlock(sha, parent.value)
  }

  /** Fifth from the end comes out, if it and the three after it are hash-linked and the newest slot is filled. */
  function Output(sha: Sha, fed: seq<Slot>): Slot {
    var n := |fed|;
    if n >= 5 && Linked(sha, fed[n - 4], fed[n - 5]) && Linked(sha, fed[n - 3], fed[n - 4]) &&
       Linked(sha, fed[n - 2], fed[n - 3]) && fed[n - 1].Some?
    then fed[n - 5]
    else None
  }

  class PipelineState {
    const window: array<Slot>
    ghost var fed: seq<Slot>

    ghost predicate Valid()
      reads this, window
    {
      window.Length == 4 && window[..] == WindowOf(fed)
    }

    constructor ()
      ensures Valid() && fresh(window) && fed == []
    {
      window := new Slot[4](_ => None);
      fed := [];
    }

    predicate CanCommit()
      requires window.Length == 4
      reads window
    {
      window[0] != None && window[1] != None && window[2] != None && window[3] != None
    }

    method Advance(sha: Sha, newBlock: Slot) returns (toDeliver: Slot)
      requires Valid()
      modifies this`fed, window
      ensures Valid() && fed == old(fed) + [newBlock]
      ensures toDeliver == Output(sha, fed)
    {
      var candidate := window[0];
      window[0] := window[1];
      window[1] := window[2];
      window[2] := window[3];
      window[3] := newBlock;
      fed := fed + [newBlock];
      assert window[..] == WindowOf(fed);
      assert |fed| >= 5 ==> candidate == fed[|fed| - 5];
      if candidate != None && CanCommit() {
        var bStar, bDouble, bPrime := window[2], window[1], window[0];
        if bStar.value.parentHash == HashBlock(sha, bDouble.value) &&
           bDouble.value.parentHash == HashBlock(sha, bPrime.value) &&
           bPrime.value.parentHash == HashBlock(sha, candidate.value) {
          return candidate;
        }
      }
      return None;
    }

    method Reset()
      requires Valid()
      modifies this`fed, window
      ensures Valid() && fed == [] && !CanCommit()
    {
      window[0], window[1], window[2], window[3] := None, None, None, None;
      fed := [];
    }
  }

  // ---------------------------------------------------------------- linked runs

  ghost predicate Follows(sha: Sha, blocks: seq<Block>, i: nat)
    requires 1 <= i < |blocks|
  {
    blocks[i].parentHash == HashBlock(sha, blocks[i - 1])
  }

  ghost predicate LinkedRun(sha: Sha, blocks: seq<Block>) {
    forall i :: 1 <= i < |blocks| ==> Follows(sha, blocks, i)
  }

  function Fed(blocks: seq<Block>): seq<Slot> {
    seq(|blocks|, i requires 0 <= i < |blocks| => Some(blocks[i]))
  }

  /** Everything the window hands out while `fed` goes in. */
  function Outputs(sha: Sha, fed: seq<Slot>): seq<Block> {
    if fed == [] then []
    else
      var out := Output(sha, fed);
      Outputs(sha, fed[..|fed| - 1]) + if out == None then [] else [out.value]
  }

  lemma {:induction false} LastOutput(sha: Sha, blocks: seq<Block>)
    requires LinkedRun(sha, blocks)
    ensures Output(sha, Fed(blocks)) == if |blocks| < 5 then None else Some(blocks[|blocks| - 5])
  {
    var n := |blocks|;
    if n >= 5 {
      assert Follows(sha, blocks, n - 4) && Follows(sha, blocks, n - 3) && Follows(sha, blocks, n - 2);
      assert Linked(sha, Fed(blocks)[n - 4], Fed(blocks)[n - 5]);
      assert Linked(sha, Fed(blocks)[n - 3], Fed(blocks)[n - 4]);
      assert Linked(sha, Fed(blocks)[n - 2], Fed(blocks)[n - 3]);
    }
  }

  /** Nothing comes out over a gap: all of the last five slots must be filled. */
  lemma {:induction false} GapsHoldBack(sha: Sha, fed: seq<Slot>, k: nat)
    requires 1 <= k <= 5 && (k > |fed| || fed[|fed| - k] == None)
    ensures Output(sha, fed) == None
  {
  }

  /** A linked run comes out in order, once each, four behind. */
  lemma {:induction false} LinkedRunComesOut(sha: Sha, blocks: seq<Block>)
    requires LinkedRun(sha, blocks)
    ensures Outputs(sha, Fed(blocks)) == if |blocks| <= 4 then [] else blocks[..|blocks| - 4]
  {
    if blocks != [] {
      var n := |blocks|;
      var init := blocks[..n - 1];
      forall i | 1 <= i < |init|
        ensures Follows(sha, init, i)
      {
        assert Follows(sha, blocks, i);
      }
      LinkedRunComesOut(sha, init);
      assert Fed(blocks)[..n - 1] == Fed(blocks[..n - 1]);
      LastOutput(sha, blocks);
      if n >= 5 {
        assert blocks[..n - 4] == blocks[..n - 1][..n - 5] + [blocks[n - 5]];
      }
    }
  }
}
