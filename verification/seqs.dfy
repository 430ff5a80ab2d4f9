/** The search along a list that both the index catalogue and a
    transaction's cursor chain use. */
module Seqs {
  /** The position of the first element that satisfies `p`, or the length
      of the sequence when none does: a walk along a linked list that stops
      at the first match. */
  function FirstWhere<T>(s: seq<T>, p: T -> bool): (i: nat)
    ensures i <= |s|
    ensures i < |s| ==> p(s[i])
    ensures forall j :: 0 <= j < i ==> !p(s[j])
  {
    if s == [] || p(s[0]) then 0 else 1 + FirstWhere(s[1..], p)
  }
}
