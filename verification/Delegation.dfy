/** Delegation depth: the length of a chain of proofs, seen through a byte. */
module Delegation {
  const U8_LIMIT := 256

  datatype Rights = Rights(canDelegate: bool, maxDelegationDepth: int)
  datatype Error = NotAllowed | DepthExceeded(current: nat, max: int)
  datatype Result = Ok | Err(error: Error)
  datatype Proof = Proof(delegator: string, delegatee: string, capabilitiesReduced: bool)

  function CanDelegateAtDepth(rights: Rights, depth: nat): Result {
    if !rights.canDelegate then Err(NotAllowed)
    else if depth >= rights.maxDelegationDepth then Err(DepthExceeded(depth, rights.maxDelegationDepth))
    else Ok
  }

  /** The depth of a chain: its length, truncated to a byte. */
  function Depth(proofs: seq<Proof>): nat {
    |proofs| % U8_LIMIT
  }

  function CheckDepth(proofs: seq<Proof>, maxDepth: nat): Result {
    if Depth(proofs) > maxDepth then Err(DepthExceeded(Depth(proofs), maxDepth)) else Ok
  }

  /** A chain that grew by one proof at a time, each after the rights allowed the depth before it. */
  ghost predicate GrownUnder(rights: Rights, proofs: seq<Proof>) {
    proofs == []
    || (GrownUnder(rights, proofs[..|proofs| - 1])
        && CanDelegateAtDepth(rights, Depth(proofs[..|proofs| - 1])).Ok?)
  }

  /** Guarded growth reaches exactly the lengths up to the maximum, so the byte never wraps. */
  lemma {:induction false} GuardedGrowthIsBounded(rights: Rights, proofs: seq<Proof>)
    requires 0 <= rights.maxDelegationDepth < U8_LIMIT
    ensures GrownUnder(rights, proofs) <==>
            proofs == [] || (rights.canDelegate && |proofs| <= rights.maxDelegationDepth)
    ensures GrownUnder(rights, proofs) ==>
              Depth(proofs) == |proofs| && CheckDepth(proofs, rights.maxDelegationDepth).Ok?
  {
    if proofs != [] {
      GuardedGrowthIsBounded(rights, proofs[..|proofs| - 1]);
    }
  }

  /** The depth check tells whether a chain is within the limit, except for long chains whose byte wraps to a small one. */
  lemma DepthCheckIsExactIff(proofs: seq<Proof>, maxDepth: nat)
    requires maxDepth < U8_LIMIT
    ensures (CheckDepth(proofs, maxDepth).Ok? <==> |proofs| <= maxDepth) <==>
            |proofs| < U8_LIMIT || |proofs| % U8_LIMIT > maxDepth
    ensures CheckDepth(proofs, maxDepth).Err? ==> CheckDepth(proofs, maxDepth).error == DepthExceeded(|proofs| % 256, maxDepth)
  {
  }

  /** A chain of 256 proofs has depth zero and passes every check. */
  lemma LongChainPasses(proofs: seq<Proof>)
    requires |proofs| == U8_LIMIT
    ensures forall maxDepth: nat :: CheckDepth(proofs, maxDepth).Ok?
  {
  }

  class DelegationChain {
    var proofs: seq<Proof>

    constructor ()
      ensures proofs == []
    {
      proofs := [];
    }

    method AddProof(proof: Proof)
      modifies this
      ensures proofs == old(proofs) + [proof]
    {
      proofs := proofs + [proof];
    }

    /** A delegation that asks the rights first keeps the chain grown under them. */
    method Delegate(rights: Rights, proof: Proof) returns (result: Result)
      requires 0 <= rights.maxDelegationDepth < U8_LIMIT && GrownUnder(rights, proofs)
      modifies this
      ensures GrownUnder(rights, proofs) && |proofs| <= rights.maxDelegationDepth
      ensures result.Ok? <==> rights.canDelegate && |old(proofs)| < rights.maxDelegationDepth
      ensures result.Err? ==>
                result.error == if rights.canDelegate then DepthExceeded(|old(proofs)|, rights.maxDelegationDepth)
                                else NotAllowed
      ensures proofs == if result.Ok? then old(proofs) + [proof] else old(proofs)
    {
      GuardedGrowthIsBounded(rights, proofs);
      result := CanDelegateAtDepth(rights, Depth(proofs));
      if result.Ok? {
        assert (proofs + [proof])[..|proofs|] == proofs;
        AddProof(proof);
        GuardedGrowthIsBounded(rights, proofs);
      }
    }
  }
}
