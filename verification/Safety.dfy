/** The voting rule, the one-, two- and three-chain rules, and the state they read and write. */
module Safety {
  import opened Types
  import opened Encoding
  import opened Ancestry

  datatype SafetyVars = SafetyVars(lockedQC: Option<QuorumCert>, genericQC: Option<QuorumCert>)

  const INITIAL_SAFETY := SafetyVars(None, None)

  ghost predicate SafeNode(s: SafetyVars, node: Block, qc: Option<QuorumCert>, store: Store) {
    || s.lockedQC == None
    || ViewOf(qc) > s.lockedQC.value.view
    || Extends(store, node.parentHash, s.lockedQC.value.blockHash)
  }

  function AfterOneChain(sha: Sha, s: SafetyVars, bStar: Block, bDouble: Block): SafetyVars {
    if bStar.parentHash == HashBlock(sha, bDouble) then s.(genericQC := bStar.justify) else s
  }

  function AfterTwoChain(sha: Sha, s: SafetyVars, bStar: Block, bDouble: Block, bPrime: Block): SafetyVars {
    if bStar.parentHash == HashBlock(sha, bDouble) && bDouble.parentHash == HashBlock(sha, bPrime)
    then s.(lockedQC := bDouble.justify)
    else s
  }

  predicate CheckThreeChain(sha: Sha, bStar: Block, bDouble: Block, bPrime: Block, b: Block) {
    && bStar.parentHash == HashBlock(sha, bDouble)
    && bDouble.parentHash == HashBlock(sha, bPrime)
    && bPrime.parentHash == HashBlock(sha, b)
  }

  /** The block a justify names, if it is stored. */
  function Certified(store: Store, block: Block): Option<Block> {
    match block.justify
    case None => None
    case Some(qc) => if qc.blockHash in store then Some(store[qc.blockHash]) else None
  }

  /** The safety variables after a proposal, whether or not a vote was cast for it. */
  function AfterPropose(sha: Sha, s: SafetyVars, bStar: Block, store: Store): SafetyVars {
    match Certified(store, bStar)
    case None => s
    case Some(bDouble) =>
      var s1 := AfterOneChain(sha, s, bStar, bDouble);
      match Certified(store, bDouble)
      case None => s1
      case Some(bPrime) => AfterTwoChain(sha, s1, bStar, bDouble, bPrime)
  }

  class SafetyState {
    var lockedQC: Option<QuorumCert>
    var genericQC: Option<QuorumCert>

    constructor ()
      ensures Vars() == INITIAL_SAFETY
    {
      lockedQC, genericQC := None, None;
    }

    function Vars(): SafetyVars
      reads this
    {
      SafetyVars(lockedQC, genericQC)
    }

    method CheckSafeNode(node: Block, qc: Option<QuorumCert>, store: Store) returns (safe: bool)
      ensures safe <==> SafeNode(Vars(), node, qc, store)
    {
      if lockedQC == None {
        return true;
      }
      if ViewOf(qc) > lockedQC.value.view {
        return true;
      }
      safe := ExtendsVisited(store, node.parentHash, lockedQC.value.blockHash);
    }

    method UpdateOnOneChain(sha: Sha, bStar: Block, bDouble: Block)
      modifies this`genericQC
      ensures Vars() == AfterOneChain(sha, old(Vars()), bStar, bDouble)
    {
      if bStar.parentHash == HashBlock(sha, bDouble) {
        genericQC := bStar.justify;
      }
    }

    method UpdateOnTwoChain(sha: Sha, bStar: Block, bDouble: Block, bPrime: Block)
      modifies this`lockedQC
      ensures Vars() == AfterTwoChain(sha, old(Vars()), bStar, bDouble, bPrime)
    {
      if bStar.parentHash != HashBlock(sha, bDouble) {
        return;
      }
      if bDouble.parentHash == HashBlock(sha, bPrime) {
        lockedQC := bDouble.justify;
      }
    }
  }
}
