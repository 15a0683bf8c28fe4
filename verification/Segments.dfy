/** The shared theory of slash-separated paths: a path is the list of its
    segments, and resolving "." and ".." is a stack machine over that list.
    The three resolvers of the repository (lib_js/path.js, src/low_fs.cpp and
    lib_js/url.js) are each proved against this one machine. */
module Segments {

  predicate SlashFree(s: string) { forall k | 0 <= k < |s| :: s[k] != '/' }

  predicate AllSlashFree(segs: seq<string>) { forall k | 0 <= k < |segs| :: SlashFree(segs[k]) }

  /** A segment that names something: not empty, "." or "..". */
  predicate Plain(s: string) { s != "" && s != "." && s != ".." && SlashFree(s) }

  predicate AllPlain(st: seq<string>) { forall k | 0 <= k < |st| :: Plain(st[k]) }

  /** JavaScript's `p.split('/')`. */
  function Split(p: string): (r: seq<string>)
    ensures |r| >= 1
  {
    if p == "" then [""]
    else
      var n := |p| - 1;
      var r := Split(p[..n]);
      if p[n] == '/' then r + [""] else Extend(r, p[n])
  }

  /** One more character for the last segment. */
  function Extend(r: seq<string>, c: char): (e: seq<string>)
    requires r != []
    ensures |e| == |r| && e[|e| - 1] == r[|r| - 1] + [c]
    ensures forall k | 0 <= k < |r| - 1 :: e[k] == r[k]
  {
    r[|r| - 1 := r[|r| - 1] + [c]]
  }

  /** JavaScript's `segs.join('/')`. */
  function Join(segs: seq<string>): string {
    if segs == [] then ""
    else if |segs| == 1 then segs[0]
    else Join(segs[..|segs| - 1]) + "/" + segs[|segs| - 1]
  }

  /** One step of the stack machine; `above` allows ".." to pile up at the bottom. */
  function Push(st: seq<string>, seg: string, above: bool): seq<string> {
    if seg == "" || seg == "." then st
    else if seg == ".." then
      if st != [] && st[|st| - 1] != ".." then st[..|st| - 1]
      else if above then st + [".."] else st
    else st + [seg]
  }

  function Fold(st: seq<string>, segs: seq<string>, above: bool): seq<string> {
    if segs == [] then st
    else Push(Fold(st, segs[..|segs| - 1], above), segs[|segs| - 1], above)
  }

  function Repeat(s: string, n: nat): (r: seq<string>)
    ensures |r| == n && forall k | 0 <= k < n :: r[k] == s
  {
    seq(n, _ => s)
  }

  // ---- Split and Join ----------------------------------------------------

  lemma {:induction false} SplitParts(p: string)
    ensures AllSlashFree(Split(p))
  {
    if p != "" {
      SplitParts(p[..|p| - 1]);
    }
  }

  lemma SplitSnoc(p: string, c: char)
    ensures Split(p + [c]) == if c == '/' then Split(p) + [""] else Extend(Split(p), c)
  {
    assert (p + [c])[..|p|] == p;
  }

  lemma {:induction false} SplitConcat(a: string, b: string)
    ensures Split(a + "/" + b) == Split(a) + Split(b)
  {
    if b == "" {
      SplitEmpty();
      hide Split;
      SplitSnoc(a, '/');
      assert a + "/" + b == a + ['/'];
    } else {
      hide Split;
      var c := b[..|b| - 1];
      var x := b[|b| - 1];
      SplitConcat(a, c);
      SplitSnoc(a + "/" + c, x);
      SplitSnoc(c, x);
      assert b == c + [x];
      assert a + "/" + b == a + "/" + c + [x];
      ExtendAfter(Split(a), Split(c), x);
      assert Split(a) + (Split(c) + [""]) == Split(a) + Split(c) + [""];
    }
  }

  lemma SplitEmpty()
    ensures Split("") == [""]
  {}

  lemma ExtendAfter(a: seq<string>, r: seq<string>, x: char)
    requires r != []
    ensures Extend(a + r, x) == a + Extend(r, x)
  {}

  lemma {:induction false} SplitSlashFree(s: string)
    requires SlashFree(s)
    ensures Split(s) == [s]
  {
    if s == "" {
      SplitEmpty();
    } else {
      hide Split;
      var t, x := s[..|s| - 1], s[|s| - 1];
      SplitSlashFree(t);
      SplitSnoc(t, x);
      assert s == t + [x];
    }
  }

  lemma JoinSnoc(a: seq<string>, x: string)
    ensures Join(a + [x]) == if a == [] then x else Join(a) + "/" + x
  {
    assert (a + [x])[..|a|] == a;
  }

  lemma {:induction false} SplitJoin(segs: seq<string>)
    requires segs != [] && AllSlashFree(segs)
    ensures Split(Join(segs)) == segs
  {
    hide Split, Join;
    var n := |segs| - 1;
    var a := segs[..n];
    assert segs == a + [segs[n]];
    SplitSlashFree(segs[n]);
    JoinSnoc(a, segs[n]);
    if n > 0 {
      SplitJoin(a);
      SplitConcat(Join(a), segs[n]);
    }
  }

  lemma {:induction false} JoinSplit(p: string)
    ensures Join(Split(p)) == p
  {
    if p != "" {
      var n := |p| - 1;
      var r := Split(p[..n]);
      JoinSplit(p[..n]);
      if p[n] == '/' {
        assert (r + [""])[..|r|] == r;
      } else if |r| > 1 {
        var q := r[..|r| - 1] + [r[|r| - 1] + [p[n]]];
        assert q[..|q| - 1] == r[..|r| - 1];
      }
      assert p == p[..n] + [p[n]];
    }
  }

  lemma {:induction false} JoinConcat(a: seq<string>, b: seq<string>)
    requires a != [] && b != []
    ensures Join(a + b) == Join(a) + "/" + Join(b)
  {
    hide Join;
    var n := |b| - 1;
    var c, x := b[..n], b[n];
    JoinSnoc(a + c, x);
    JoinSnoc(c, x);
    assert b == c + [x];
    assert a + b == (a + c) + [x];
    if n > 0 {
      JoinConcat(a, c);
      assert Join(a) + "/" + Join(c) + "/" + x == Join(a) + "/" + (Join(c) + "/" + x);
    } else {
      assert a + c == a;
    }
  }

  /** Extending a text only extends its last segment or adds segments after it. */
  lemma {:induction false} SplitPrefix(s: string, j: nat)
    requires j <= |s|
    ensures var a, b := Split(s[..j]), Split(s); var k := |a| - 1;
            && |a| <= |b|
            && b[..k] == a[..k]
            && a[k] <= b[k]
            && (j < |s| && s[j] == '/' ==> |b| > |a| && b[k] == a[k])
            && (j < |s| && s[j] != '/' ==> |b[k]| > |a[k]| && b[k][|a[k]|] == s[j])
  {
    if j < |s| {
      var n := |s| - 1;
      SplitSnoc(s[..n], s[n]);
      assert s == s[..n] + [s[n]];
      assert s[..n][..j] == s[..j];
      SplitPrefix(s[..n], j);
      if j == n { assert s[..n] == s[..j]; }
    } else {
      assert s[..j] == s;
    }
  }

  /** If the first j characters hold no slash they open the first segment, and
      are the whole of it when a slash or the end follows. */
  lemma SplitHead(s: string, j: nat)
    requires j <= |s| && SlashFree(s[..j])
    ensures s[..j] <= Split(s)[0]
    ensures j == |s| || s[j] == '/' ==> Split(s)[0] == s[..j]
    ensures j < |s| && s[j] != '/' ==> |Split(s)[0]| > j && Split(s)[0][j] == s[j]
  {
    hide Split;
    var a := s[..j];
    SplitSlashFree(a);
    SplitPrefix(s, j);
    assert j == |s| ==> a == s;
  }

  // ---- the stack machine -------------------------------------------------

  lemma FoldSnoc(st: seq<string>, a: seq<string>, x: string, above: bool)
    ensures Fold(st, a + [x], above) == Push(Fold(st, a, above), x, above)
    ensures Fold(st, [], above) == st
  {
    assert (a + [x])[..|a|] == a;
  }

  lemma {:induction false} FoldConcat(st: seq<string>, a: seq<string>, b: seq<string>, above: bool)
    ensures Fold(st, a + b, above) == Fold(Fold(st, a, above), b, above)
  {
    hide Fold, Push;
    if b == [] {
      assert a + b == a;
      FoldSnoc(Fold(st, a, above), [], "", above);
    } else {
      var n := |b| - 1;
      var c, x := b[..n], b[n];
      assert b == c + [x];
      assert a + b == (a + c) + [x];
      FoldConcat(st, a, c, above);
      FoldSnoc(st, a + c, x, above);
      FoldSnoc(Fold(st, a, above), c, x, above);
    }
  }

  /** What the machine's stack always looks like: ".." only at the bottom, and
      only when it may climb above the root. */
  predicate Normal(st: seq<string>, above: bool) {
    && (forall k | 0 <= k < |st| :: st[k] != "" && st[k] != "." && SlashFree(st[k]))
    && (forall k | 0 <= k < |st| && st[k] == ".." :: above && (k > 0 ==> st[k - 1] == ".."))
  }

  lemma {:induction false} FoldIsNormal(st: seq<string>, segs: seq<string>, above: bool)
    requires Normal(st, above) && AllSlashFree(segs)
    ensures Normal(Fold(st, segs, above), above)
  {
    if segs != [] {
      FoldIsNormal(st, segs[..|segs| - 1], above);
    }
  }

  lemma NormalIsPlain(st: seq<string>)
    requires Normal(st, false)
    ensures AllPlain(st)
  {
    forall k | 0 <= k < |st| ensures Plain(st[k]) {}
  }

  lemma {:induction false} FoldNormal(st: seq<string>, above: bool)
    requires Normal(st, above)
    ensures Fold([], st, above) == st
  {
    if st != [] {
      FoldNormal(st[..|st| - 1], above);
    }
  }

  lemma {:induction false} FoldPlain(st: seq<string>, segs: seq<string>, above: bool)
    requires AllPlain(segs)
    ensures Fold(st, segs, above) == st + segs
  {
    if segs != [] {
      FoldPlain(st, segs[..|segs| - 1], above);
    }
  }

  /** n times ".." takes n names away; what is too much piles up, or stops at the
      root. */
  lemma {:induction false} FoldUps(st: seq<string>, n: nat, above: bool)
    requires AllPlain(st)
    ensures n <= |st| ==> Fold(st, Repeat("..", n), above) == st[..|st| - n]
    ensures n > |st| ==> Fold(st, Repeat("..", n), above) == if above then Repeat("..", n - |st|) else []
  {
    if n > 0 {
      assert Repeat("..", n)[..n - 1] == Repeat("..", n - 1);
      FoldUps(st, n - 1, above);
      if n > |st| { assert above ==> Repeat("..", n - |st|) == Repeat("..", n - 1 - |st|) + [".."]; }
      if n == |st| + 1 { assert Repeat("..", 0) == []; }
    } else {
      assert st[..|st|] == st;
    }
  }

  /** Wherever they stand, a name and the ".." behind it cancel, */
  lemma FoldCancels(st: seq<string>, a: seq<string>, x: string, b: seq<string>, above: bool)
    requires Plain(x)
    ensures Fold(st, a + [x, ".."] + b, above) == Fold(st, a + b, above)
  {
    var t := Fold(st, a, above);
    FoldConcat(st, a, [x, ".."], above);
    FoldConcat(st, a + [x, ".."], b, above);
    FoldConcat(st, a, b, above);
    FoldSnoc(t, [x], "..", above);
    FoldSnoc(t, [], x, above);
    assert [x] + [".."] == [x, ".."] && [] + [x] == [x];
  }

  /** and an empty segment or a "." is as good as none. */
  lemma FoldSkips(st: seq<string>, a: seq<string>, x: string, b: seq<string>, above: bool)
    requires x == "" || x == "."
    ensures Fold(st, a + [x] + b, above) == Fold(st, a + b, above)
  {
    FoldSnoc(st, a, x, above);
    FoldConcat(st, a + [x], b, above);
    FoldConcat(st, a, b, above);
  }

  lemma NormalJoin(st: seq<string>, above: bool)
    requires Normal(st, above)
    ensures Join(st) == "" <==> st == []
    ensures st != [] ==> Split(Join(st)) == st
    ensures st != [] ==> Join(st)[0] != '/' && Join(st)[|Join(st)| - 1] != '/'
  {
    if st != [] {
      JoinEnds(st);
      SplitJoin(st);
    }
  }

  /** A join of non-empty slash-free segments begins with the first and ends
      with the last of them. */
  lemma {:induction false} JoinEnds(st: seq<string>)
    requires st != [] && forall k | 0 <= k < |st| :: st[k] != "" && SlashFree(st[k])
    ensures var r := Join(st); var last := st[|st| - 1];
            && |r| >= |last| && r[|r| - |last|..] == last
            && st[0] <= r
            && (|st| > 1 ==> |r| > 2)
            && r[0] != '/' && r[|r| - 1] != '/'
  {
    var n := |st| - 1;
    if n > 0 {
      JoinEnds(st[..n]);
      var r := Join(st);
      assert r[|r| - |st[n]|..] == st[n];
    }
  }
}
