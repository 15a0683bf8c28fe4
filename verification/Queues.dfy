/** FIFO queues of callbacks, as lists of identities: what the intrusive lists
    of src/low_data_thread.cpp and src/low_loop.cpp hold. */
module Queues {

  predicate Distinct<T(==)>(q: seq<T>) { forall i, j | 0 <= i < j < |q| :: q[i] != q[j] }

  /** Position of the first x in q, or the length of q. */
  function IndexOf<T(==)>(q: seq<T>, x: T): (k: int)
    ensures 0 <= k <= |q| && (k < |q| ==> q[k] == x)
    ensures forall j | 0 <= j < k :: q[j] != x
  {
    if q == [] || q[0] == x then 0 else 1 + IndexOf(q[1..], x)
  }

  /** q less its entry k. */
  function DropAt<T(==)>(q: seq<T>, k: int): (r: seq<T>)
    requires 0 <= k < |q|
    ensures |r| == |q| - 1
    ensures forall y | y in q && y != q[k] :: y in r
    ensures forall y | y in r :: y in q
    ensures Distinct(q) ==> Distinct(r) && q[k] !in r
  {
    q[..k] + q[k + 1..]
  }

  /** q less its first x, if it has one. */
  function Without<T(==)>(q: seq<T>, x: T): (r: seq<T>)
    ensures x !in q ==> r == q
    ensures x in q ==> |r| == |q| - 1
    ensures forall y | y in q && y != x :: y in r
    ensures forall y | y in r :: y in q
    ensures Distinct(q) ==> Distinct(r) && x !in r
  {
    var k := IndexOf(q, x);
    if k == |q| then q else DropAt(q, k)
  }

  function Append<T(==)>(q: seq<T>, x: T): (r: seq<T>)
    ensures |r| == |q| + 1 && x in r
    ensures forall y | y in q :: y in r
    ensures forall y | y in r :: y in q || y == x
    ensures Distinct(q) && x !in q ==> Distinct(r)
  {
    q + [x]
  }

  /** Position of the first entry outside `held`, or the length of q. */
  function FirstFree<T(==)>(q: seq<T>, held: set<T>): (k: int)
    ensures 0 <= k <= |q| && (k < |q| ==> q[k] !in held)
    ensures forall j | 0 <= j < k :: q[j] in held
  {
    if q == [] || q[0] !in held then 0 else 1 + FirstFree(q[1..], held)
  }

  lemma FirstFreeIs<T>(q: seq<T>, held: set<T>, k: int)
    requires 0 <= k <= |q| && (k < |q| ==> q[k] !in held) && forall j | 0 <= j < k :: q[j] in held
    ensures FirstFree(q, held) == k
  {
    var f := FirstFree(q, held);
    assert f < |q| ==> q[f] !in held;
  }

  lemma WithoutAt<T>(q: seq<T>, x: T, k: int)
    requires Distinct(q) && 0 <= k < |q| && q[k] == x
    ensures Without(q, x) == DropAt(q, k)
  {
    assert IndexOf(q, x) == k;
  }
}
