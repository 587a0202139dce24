/** Linear probing arithmetic shared by the two open-addressing tables. */
module Probing {
  import opened Division

  /** The slot visited by the j-th probe of a table of n slots. */
  function Probe(start: nat, j: nat, n: nat): (slot: nat)
    requires start < n && j <= n
    ensures slot == if start + j < n then start + j else start + j - n
  {
    RemainderIs(start + j, n, if start + j < n then 0 else 1, if start + j < n then start + j else start + j - n);
    (start + j) % n
  }

  /** The number of the probe that visits a slot; the inverse of Probe. */
  function Offset(start: nat, slot: nat, n: nat): (j: nat)
    requires start < n && slot < n
    ensures j < n && Probe(start, j, n) == slot
    ensures forall k: nat :: k < n && Probe(start, k, n) == slot ==> k == j
  {
    if start <= slot then slot - start else slot + n - start
  }

  /** The first probe at or after j that hits a slot satisfying p; |t| when none does. */
  function FirstHit<T>(t: seq<T>, start: nat, p: T -> bool, j: nat): (r: nat)
    requires start < |t| && j <= |t|
    ensures j <= r <= |t|
    ensures forall k :: j <= k < r ==> !p(t[Probe(start, k, |t|)])
    ensures r < |t| ==> p(t[Probe(start, r, |t|)])
    decreases |t| - j
  {
    if j == |t| || p(t[Probe(start, j, |t|)]) then j else FirstHit(t, start, p, j + 1)
  }

  /** A full round of probes misses no slot: if some slot satisfies p, one is hit. */
  lemma FirstHitFinds<T>(t: seq<T>, start: nat, p: T -> bool, slot: nat)
    requires start < |t| && slot < |t| && p(t[slot])
    ensures FirstHit(t, start, p, 0) <= Offset(start, slot, |t|)
  {
    var j := Offset(start, slot, |t|);
    assert Probe(start, j, |t|) == slot;
  }
}
