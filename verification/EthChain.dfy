/** The next pointers of a descriptor chain. */
module EthChain {
  import opened Ring

  /** Each descriptor leads to the one after it, the last to the first. */
  predicate IsChain(next: seq<nat>) {
    forall i :: 0 <= i < |next| ==> next[i] == if i < |next| - 1 then i + 1 else 0
  }

  lemma NextIsWrap(next: seq<nat>, i: nat)
    requires IsChain(next) && i < |next|
    ensures next[i] == Wrap(|next|, i + 1)
  {
  }

  /** The linking loop of ETH_DMATxDescChainInit and ETH_DMARxDescChainInit, with the OWN bit each of them sets. */
  method LinkChain(next: array<nat>, own: array<bool>, owned: bool)
    requires next.Length == own.Length > 0
    modifies next, own
    ensures IsChain(next[..]) && forall i :: 0 <= i < own.Length ==> own[i] == owned
  {
    var i := 0;
    while i < next.Length
      invariant i <= next.Length
      invariant forall j :: 0 <= j < i ==> next[j] == if j < next.Length - 1 then j + 1 else 0
      invariant forall j :: 0 <= j < i ==> own[j] == owned
    {
      own[i] := owned;
      if i < next.Length - 1 {
        next[i] := i + 1;
      } else {
        next[i] := 0;
      }
      i := i + 1;
    }
  }

  /** Following next k times from descriptor i. */
  function Follow(next: seq<nat>, i: nat, k: nat): (j: nat)
    requires IsChain(next) && i < |next|
    ensures j < |next|
  {
    if k == 0 then i else next[Follow(next, i, k - 1)]
  }

  /** The chain visits every descriptor once and comes back: k steps from i lead k places on, n steps to i itself. */
  lemma {:induction false} ChainIsCycle(next: seq<nat>, i: nat, k: nat)
    requires IsChain(next) && i < |next| && k <= |next|
    ensures Follow(next, i, k) == Wrap(|next|, i + k)
    ensures k == |next| ==> Follow(next, i, k) == i
  {
    if k > 0 {
      ChainIsCycle(next, i, k - 1);
    }
  }
}
