/** Named slices: proofs that only need where a slice ends and what it holds are
    much cheaper when the slice itself can be hidden. */
module Slices {

  /** The elements from k on; a name for `s[k..]`. */
  function Rest<T>(s: seq<T>, k: int): (r: seq<T>)
    requires 0 <= k <= |s|
    ensures |r| == |s| - k && forall j | 0 <= j < |r| :: r[j] == s[k + j]
  {
    s[k..]
  }

  /** The elements from a up to b; a name for `s[a..b]`. */
  function Sub<T>(s: seq<T>, a: int, b: int): (r: seq<T>)
    requires 0 <= a <= b <= |s|
    ensures |r| == b - a && forall j | 0 <= j < |r| :: r[j] == s[a + j]
  {
    s[a..b]
  }

  /** s less its element k. */
  function RemoveAt<T>(s: seq<T>, k: int): (r: seq<T>)
    requires 0 <= k < |s|
    ensures |r| == |s| - 1 && forall j | 0 <= j < |r| :: r[j] == if j < k then s[j] else s[j + 1]
  {
    s[..k] + s[k + 1..]
  }

  lemma RestCons<T>(s: seq<T>, k: int)
    requires 0 <= k < |s|
    ensures Rest(s, k) == [s[k]] + Rest(s, k + 1)
  {}

  lemma RestWhole<T>(s: seq<T>)
    ensures Rest(s, 0) == s && Rest(s, |s|) == []
  {}

  lemma SubSnoc<T>(s: seq<T>, a: int, b: int)
    requires 0 <= a <= b < |s|
    ensures Sub(s, a, b + 1) == Sub(s, a, b) + [s[b]] && Sub(s, b, b) == []
  {}

  lemma SubJoin<T>(s: seq<T>, a: int, b: int, c: int)
    requires 0 <= a <= b <= c <= |s|
    ensures Sub(s, a, b) + Sub(s, b, c) == Sub(s, a, c)
  {}

  lemma SubWhole<T>(s: seq<T>)
    ensures Sub(s, 0, |s|) == s && Sub(s, 0, 0) == []
  {}

  lemma SubRest<T>(s: seq<T>, k: int)
    requires 0 <= k <= |s|
    ensures Sub(s, 0, k) + Rest(s, k) == s
  {}

  lemma Associate<T>(a: seq<T>, b: seq<T>, c: seq<T>)
    ensures a + b + c == a + (b + c) && a + [] == a
  {}
}
