/** lib_js/readline.js, commonPrefix, and lib_js/repl.js, longestCommonPrefix: the
    prefix of the smallest and the largest string is the prefix of all of them. */
module Prefixes {

  /** A string by its UTF-16 code units. */
  type Text = seq<int>

  /** JavaScript compares strings code unit by code unit. */
  predicate Before(a: Text, b: Text) {
    if a == [] then true
    else if b == [] then false
    else if a[0] != b[0] then a[0] < b[0]
    else Before(a[1..], b[1..])
  }

  /** The first k characters are shared by all. */
  predicate Shared(strings: seq<Text>, p: Text) { forall i | 0 <= i < |strings| :: p <= strings[i] }

  /** p is the longest common prefix. */
  ghost predicate Longest(strings: seq<Text>, p: Text) {
    Shared(strings, p) && forall q: Text | Shared(strings, q) :: q <= p
  }

  /** There is only one, so both computations give the same. */
  lemma LongestIsOne(strings: seq<Text>, p: Text, q: Text)
    requires Longest(strings, p) && Longest(strings, q)
    ensures p == q
  {
    assert p <= q && q <= p;
  }

  /** Two prefixes of one string: the shorter is a prefix of the other. */
  lemma PrefixOrder(p: Text, q: Text, s: Text)
    requires p <= s && q <= s && |q| <= |p|
    ensures q <= p
  {
    assert q == s[..|q|] == p[..|q|];
  }

  // ---- the order -------------------------------------------------------------------

  lemma {:induction false} BeforeTotal(a: Text, b: Text)
    ensures Before(a, b) || Before(b, a)
  {
    if a != [] && b != [] && a[0] == b[0] { BeforeTotal(a[1..], b[1..]); }
  }

  lemma {:induction false} BeforeTransitive(a: Text, b: Text, c: Text)
    requires Before(a, b) && Before(b, c)
    ensures Before(a, c)
  {
    if a != [] && b != [] && c != [] && a[0] == b[0] && b[0] == c[0] { BeforeTransitive(a[1..], b[1..], c[1..]); }
  }

  /** What the ends of an interval share, everything in it has. */
  lemma {:induction false} Between(lo: Text, s: Text, hi: Text, p: Text)
    requires Before(lo, s) && Before(s, hi) && p <= lo && p <= hi
    ensures p <= s
  {
    if p != [] {
      assert p[0] == lo[0] == hi[0];
      assert s != [] && s[0] == p[0];
      assert p[1..] <= lo[1..] && p[1..] <= hi[1..];
      Between(lo[1..], s[1..], hi[1..], p[1..]);
      assert p == [p[0]] + p[1..] && s == [s[0]] + s[1..];
    }
  }

  // ---- sort ---------------------------------------------------------------------------

  predicate Ordered(a: seq<Text>) { forall i, j | 0 <= i < j < |a| :: Before(a[i], a[j]) }

  /** strings.slice().sort(): the same strings, in order. */
  method Sort(strings: seq<Text>) returns (sorted: array<Text>)
    ensures sorted.Length == |strings| && Ordered(sorted[..]) && multiset(sorted[..]) == multiset(strings)
  {
    hide Before;
    sorted := new Text[|strings|](i requires 0 <= i < |strings| => strings[i]);
    assert sorted[..] == strings;
    var n := 0;
    while n < sorted.Length
      invariant 0 <= n <= sorted.Length && multiset(sorted[..]) == multiset(strings)
      invariant forall i, j | 0 <= i < j < n :: Before(sorted[i], sorted[j])
    {
      Sink(sorted, n);
      n := n + 1;
    }
  }

  /** Entry n moves down to its place. */
  method Sink(a: array<Text>, n: int)
    requires 0 <= n < a.Length && forall i, j | 0 <= i < j < n :: Before(a[i], a[j])
    modifies a
    ensures multiset(a[..]) == old(multiset(a[..])) && forall i, j | 0 <= i < j <= n :: Before(a[i], a[j])
  {
    hide Before;
    var k := n;
    while k > 0 && !Before(a[k - 1], a[k])
      invariant 0 <= k <= n && multiset(a[..]) == old(multiset(a[..]))
      invariant forall i, j | 0 <= i < j <= n && j != k :: Before(a[i], a[j])
      decreases k
    {
      BeforeTotal(a[k - 1], a[k]);
      a[k - 1], a[k] := a[k], a[k - 1];
      k := k - 1;
    }
    if k > 0 {
      forall i | 0 <= i < k ensures Before(a[i], a[k]) {
        if i < k - 1 { BeforeTransitive(a[i], a[k - 1], a[k]); }
      }
    }
  }

  // ---- the two computations -----------------------------------------------------------------

  /** readline: the prefix that the first and the last in order share. */
  method CommonPrefix(strings: seq<Text>) returns (p: Text)
    ensures if strings == [] then p == [] else Longest(strings, p)
  {
    if |strings| == 0 { return []; }
    if |strings| == 1 {
      LoneString(strings);
      return strings[0];
    }
    var sorted := Sort(strings);
    var min, max := sorted[0], sorted[sorted.Length - 1];
    ghost var order := sorted[..];
    var i := 0;
    while i < |min|
      invariant 0 <= i <= |min| && min[..i] <= max
    {
      if i >= |max| || min[i] != max[i] {
        EndsDecide(strings, order, min[..i]);
        return min[..i];
      }
      i := i + 1;
    }
    assert min[..i] == min;
    EndsDecide(strings, order, min);
    return min;
  }

  lemma LoneString(strings: seq<Text>)
    requires |strings| == 1
    ensures Longest(strings, strings[0])
  {
    forall q: Text | Shared(strings, q) ensures q <= strings[0] {}
  }

  lemma BeforeItself(a: Text)
    ensures Before(a, a)
  {
    BeforeTotal(a, a);
  }

  lemma InOrder(order: seq<Text>, k: int)
    requires Ordered(order) && 0 <= k < |order|
    ensures Before(order[0], order[k]) && Before(order[k], order[|order| - 1])
  {
    BeforeItself(order[k]);
  }

  /** p ends where one of the ends ends or where they differ. */
  predicate Stops(min: Text, max: Text, p: Text) {
    p <= min && p <= max && (p == min || (|p| < |min| && (|p| >= |max| || min[|p|] != max[|p|])))
  }

  lemma StopsLongest(min: Text, max: Text, p: Text, q: Text)
    requires Stops(min, max, p) && q <= min && q <= max
    ensures q <= p
  {
    assert forall k | 0 <= k < |q| :: q[k] == min[k] && q[k] == max[k];
    PrefixOrder(p, q, min);
  }

  lemma SameElements(strings: seq<Text>, order: seq<Text>, x: Text)
    requires multiset(strings) == multiset(order)
    ensures x in strings <==> x in order
  {
    assert x in strings <==> x in multiset(strings);
  }

  lemma EndsDecide(strings: seq<Text>, order: seq<Text>, p: Text)
    requires Ordered(order) && multiset(strings) == multiset(order) && order != []
    requires Stops(order[0], order[|order| - 1], p)
    ensures Longest(strings, p)
  {
    var min, max := order[0], order[|order| - 1];
    forall i | 0 <= i < |strings| ensures p <= strings[i] {
      SameElements(strings, order, strings[i]);
      var k :| 0 <= k < |order| && order[k] == strings[i];
      InOrder(order, k);
      Between(min, order[k], max, p);
    }
    SameElements(strings, order, min);
    SameElements(strings, order, max);
    forall q: Text | Shared(strings, q) ensures q <= p {
      assert q <= min && q <= max;
      StopsLongest(min, max, p, q);
    }
  }

  /** repl: column by column against the first string. */
  method LongestCommonPrefix(arr: seq<Text>) returns (p: Text)
    ensures if arr == [] then p == [] else Longest(arr, p)
  {
    var cnt := |arr|;
    if cnt == 0 { return []; }
    if cnt == 1 {
      LoneString(arr);
      return arr[0];
    }
    var first := arr[0];
    var m := 0;
    while m < |first|
      invariant 0 <= m <= |first| && forall i | 0 <= i < cnt :: first[..m] <= arr[i]
    {
      var c := first[m];
      var n := 1;
      while n < cnt
        invariant 1 <= n <= cnt && forall i | 0 <= i < n :: |arr[i]| > m && arr[i][m] == c
      {
        var entry := arr[n];
        if m >= |entry| || c != entry[m] {
          ColumnDecides(arr, m, n);
          return first[..m];
        }
        n := n + 1;
      }
      forall i | 0 <= i < cnt ensures first[..m + 1] <= arr[i] { OneMore(first, arr[i], m); }
      m := m + 1;
    }
    assert first[..m] == first;
    forall q: Text | Shared(arr, q) ensures q <= first { assert q <= arr[0]; }
    return first;
  }

  lemma OneMore(a: Text, b: Text, m: int)
    requires 0 <= m < |a| && m < |b| && a[..m] <= b && a[m] == b[m]
    ensures a[..m + 1] <= b
  {
    assert a[..m + 1] == a[..m] + [a[m]] && b[..m + 1] == b[..m] + [b[m]];
  }

  lemma ColumnDecides(arr: seq<Text>, m: int, n: int)
    requires 0 <= n < |arr| && 0 <= m < |arr[0]| && (m >= |arr[n]| || arr[0][m] != arr[n][m])
    requires forall i | 0 <= i < |arr| :: arr[0][..m] <= arr[i]
    ensures Longest(arr, arr[0][..m])
  {
    var p := arr[0][..m];
    forall q: Text | Shared(arr, q) ensures q <= p {
      assert q <= arr[0] && q <= arr[n];
      StopsLongest(arr[0], arr[n], p, q);
    }
  }
}
