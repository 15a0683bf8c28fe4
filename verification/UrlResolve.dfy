/** lib_js/url.js, resolveObject: the path of a resolved URL (slashed protocols,
    result always absolute), and exactly when it is the path of RFC 3986. */
module UrlResolve {
  import opened Segments
  import opened Slices
  import opened UrlPath

  // ---- the backward pass -------------------------------------------------------

  /** A stack less its last `up` entries. */
  function DropLast(st: seq<string>, up: int): seq<string>
    requires up >= 0
  {
    if |st| <= up then [] else st[..|st| - up]
  }

  /** What the backward pass maintains: `tail` is final, m[..i] is still to be
      read and owes `up` removals. */
  ghost predicate Passing(m: seq<string>, i: int, up: int, tail: seq<string>) {
    0 <= i <= |m| && up >= 0 && Forward([], m) == DropLast(Forward([], m[..i]), up) + tail
  }

  lemma PassOne(m: seq<string>, i: int, up: int, tail: seq<string>)
    requires 0 < i <= |m| && Passing(m, i, up, tail)
    ensures m[i - 1] == "." ==> Passing(m, i - 1, up, tail)
    ensures m[i - 1] == ".." ==> Passing(m, i - 1, up + 1, tail)
    ensures !IsDot(m[i - 1]) && up > 0 ==> Passing(m, i - 1, up - 1, tail)
    ensures !IsDot(m[i - 1]) && up == 0 ==> Passing(m, i - 1, 0, [m[i - 1]] + tail)
  {
    var a, x := m[..i - 1], m[i - 1];
    assert m[..i] == a + [x];
    ForwardSnoc([], a, x);
    hide Forward;
    var st := Forward([], a);
    if x == ".." {
      assert DropLast(Pop(st), up) == DropLast(st, up + 1);
    } else if x != "." {
      if up > 0 {
        assert DropLast(st + [x], up) == DropLast(st, up - 1);
      } else {
        assert DropLast(st + [x], 0) == st + [x] && DropLast(st, 0) == st;
        assert st + [x] + tail == st + ([x] + tail);
      }
    }
  }

  lemma PassStart(m: seq<string>)
    ensures Passing(m, |m|, 0, [])
  {
    assert m[..|m|] == m;
    hide Forward;
    var st := Forward([], m);
    assert DropLast(st, 0) + [] == st;
  }

  lemma PassEnd(m: seq<string>, up: int, tail: seq<string>)
    requires Passing(m, 0, up, tail)
    ensures tail == Forward([], m)
  {
    assert m[..0] == [] && Forward([], []) == [];
  }

  /** The loop over srcPath from its end (lines 856-868): what survives is what
      the forward stack machine leaves. */
  method RemoveDots(m: seq<string>) returns (srcPath: seq<string>, up: int)
    ensures srcPath == Forward([], m)
  {
    srcPath, up := m, 0;
    ghost var tail: seq<string> := [];
    var i := |m|;
    PassStart(m);
    assert m == m[..i] + tail;
    hide *;
    while i > 0
      invariant 0 <= i <= |m| && up >= 0 && Passing(m, i, up, tail) && srcPath == m[..i] + tail
      decreases i
    {
      PassOne(m, i, up, tail);
      SpliceBefore(m, i, tail);
      Kinds(m[i - 1]);
      i := i - 1;
      var last := srcPath[i];
      if last == "." {
        srcPath := RemoveAt(srcPath, i);
      } else if last == ".." {
        srcPath := RemoveAt(srcPath, i);
        up := up + 1;
      } else if up > 0 {
        srcPath := RemoveAt(srcPath, i);
        up := up - 1;
      } else {
        tail := [last] + tail;
      }
    }
    PassEnd(m, up, tail);
    assert m[..0] + tail == tail;
  }

  lemma Kinds(s: string)
    ensures IsDot(s) <==> s == "." || s == ".."
  {}

  lemma SpliceBefore(m: seq<string>, i: int, tail: seq<string>)
    requires 0 < i <= |m|
    ensures var s := m[..i] + tail;
            && s[i - 1] == m[i - 1]
            && RemoveAt(s, i - 1) == m[..i - 1] + tail
            && s == m[..i - 1] + ([m[i - 1]] + tail)
  {}

  // ---- putting the path together -------------------------------------------------

  predicate EndsWithSlash(s: string) { s != "" && s[|s| - 1] == '/' }

  function Rooted(st: seq<string>): seq<string> { if st == [] || st[0] != "" then [""] + st else st }

  /** The text the source assembles from the surviving segments. */
  function Assembled(p: seq<string>, last: string): string {
    if (IsDot(last) || last == "") && !EndsWithSlash(Join(p)) then Join(p + [""]) else Join(p)
  }

  /** The pathname assembled from the merged segments (lines 849-884, 914). */
  function Pathname(m: seq<string>): string
    requires m != []
  {
    Assembled(Rooted(Forward([], m)), m[|m| - 1])
  }

  predicate Absolute(p: string) { p != "" && p[0] == '/' }

  /** Relative merge on segments (lines 752-753, 782-804); an absent pathname is "". */
  function Merged(basePath: string, relPath: string): seq<string>
    requires relPath != ""
  {
    if Absolute(relPath) then Split(relPath)
    else if basePath == "" then Split(relPath)
    else Split(basePath)[..|Split(basePath)| - 1] + Split(relPath)
  }

  method ResolvePathname(hasHost: bool, basePath: string, relPath: string) returns (pathname: string)
    requires relPath != "" && (hasHost || Absolute(basePath) || Absolute(relPath))
    ensures pathname == Pathname(Merged(basePath, relPath))
  {
    var srcPath := if basePath == "" then [] else Split(basePath);
    var relSegments := Split(relPath);
    if Absolute(relPath) {
      srcPath := relSegments;
    } else {
      if |srcPath| > 0 { srcPath := srcPath[..|srcPath| - 1]; }
      srcPath := srcPath + relSegments;
      assert [] + relSegments == relSegments;
    }
    ghost var m := srcPath;
    assert m == Merged(basePath, relPath);
    LongEnough(basePath, relPath);
    hide Split, Join, Forward;
    var last := srcPath[|srcPath| - 1];
    var hasTrailingSlash := ((hasHost || |srcPath| > 1) && (last == "." || last == "..")) || last == "";
    var up: int;
    srcPath, up := RemoveDots(srcPath);
    if |srcPath| == 0 || srcPath[0] != "" {
      srcPath := [""] + srcPath;
    }
    if hasTrailingSlash && !EndsWithSlash(Join(srcPath)) {
      srcPath := srcPath + [""];
    }
    pathname := Join(srcPath);
  }

  lemma LongEnough(basePath: string, relPath: string)
    requires relPath != ""
    ensures Merged(basePath, relPath) != []
    ensures Absolute(basePath) || Absolute(relPath) ==> |Merged(basePath, relPath)| > 1
  {
    if Absolute(basePath) { TwoSegments(basePath); }
    if Absolute(relPath) { TwoSegments(relPath); }
  }

  lemma TwoSegments(p: string)
    requires Absolute(p)
    ensures |Split(p)| > 1 && Split(p)[0] == ""
  {
    SplitEmpty();
    SplitPrefix(p, 0);
    assert p[..0] == "";
  }

  // ---- RFC 3986, sections 5.2.3 and 5.2.4 ----------------------------------------

  /** All but the last segment, the right-most slash included. */
  function UpToSlash(p: string): string {
    if p == "" then "" else if p[|p| - 1] == '/' then p else UpToSlash(p[..|p| - 1])
  }

  function MergePaths(basePath: string, relPath: string): string {
    if Absolute(relPath) then relPath
    else if basePath == "" then "/" + relPath
    else UpToSlash(basePath) + relPath
  }

  function RfcPathname(basePath: string, relPath: string): string {
    RemoveDotSegments(MergePaths(basePath, relPath), "")
  }

  /** The segments of the merged absolute path, without the root. */
  function Below(basePath: string, relPath: string): seq<string>
    requires relPath != "" && (basePath == "" || Absolute(basePath))
  {
    var m := Merged(basePath, relPath);
    if basePath == "" && !Absolute(relPath) then m else Rest(m, 1)
  }

  lemma {:induction false} OutIsJoin(segs: seq<string>)
    requires segs != []
    ensures Out(segs) == "/" + Join(segs)
  {
    var n := |segs| - 1;
    var c, x := segs[..n], segs[n];
    assert segs == c + [x];
    JoinSnoc(c, x);
    OutSnoc(c, x);
    OutEmpty();
    if n > 0 {
      OutIsJoin(c);
      hide *;
      assert "/" + Join(c) + "/" + x == "/" + (Join(c) + "/" + x);
    } else {
      hide *;
      assert c == [];
      assert "" + "/" + x == "/" + x;
    }
  }

  lemma {:induction false} RootedJoin(segs: seq<string>)
    requires segs != []
    ensures Join([""] + segs) == "/" + Join(segs)
  {
    SplitEmpty();
    JoinEmpty();
    JoinConcat([""], segs);
    hide *;
    assert "" + "/" + Join(segs) == "/" + Join(segs);
  }

  lemma AbsoluteOut(p: string)
    requires Absolute(p)
    ensures |Split(p)| > 1 && Split(p) == [""] + Rest(Split(p), 1) && Out(Rest(Split(p), 1)) == p
  {
    TwoSegments(p);
    JoinSplit(p);
    hide Split, Join, Out;
    assert Split(p) == [""] + Rest(Split(p), 1);
    RootedJoin(Rest(Split(p), 1));
    OutIsJoin(Rest(Split(p), 1));
  }

  lemma {:induction false} OutAppend(a: seq<string>, b: seq<string>)
    ensures Out(a + b) == Out(a) + Out(b)
  {
    OutEmpty();
    hide Out;
    if b == [] {
      assert a + b == a;
    } else {
      var n := |b| - 1;
      var c, x := b[..n], b[n];
      OutAppend(a, c);
      OutSnoc(a + c, x);
      OutSnoc(c, x);
      assert b == c + [x];
      assert a + b == a + c + [x];
      UrlPath.Regroup(Out(a), Out(c), x);
    }
  }

  lemma {:induction false} UpToSlashFree(a: string, y: string)
    requires SlashFree(y)
    ensures UpToSlash(a + "/" + y) == a + "/"
  {
    var t := a + "/" + y;
    if y == "" {
      assert t == a + "/";
    } else {
      UpToSlashFree(a, y[..|y| - 1]);
      assert t[..|t| - 1] == a + "/" + y[..|y| - 1];
      assert t[|t| - 1] == y[|y| - 1];
    }
  }

  /** The segment merge is the text merge. */
  lemma MergeAgrees(basePath: string, relPath: string)
    requires relPath != "" && (basePath == "" || Absolute(basePath))
    ensures Below(basePath, relPath) != [] && AllSlashFree(Below(basePath, relPath))
    ensures Out(Below(basePath, relPath)) == MergePaths(basePath, relPath)
  {
    SplitParts(relPath);
    SplitParts(basePath);
    SplitNonempty(relPath);
    OutIsJoin(Split(relPath));
    JoinSplit(relPath);
    if Absolute(relPath) {
      AbsoluteOut(relPath);
      hide Split, Out, Join, UpToSlash;
    } else if basePath == "" {
      hide Split, Out, Join, UpToSlash;
    } else {
      AbsoluteOut(basePath);
      hide Split, Out, Join, UpToSlash;
      MergeBelow(basePath, relPath, Rest(Split(basePath), 1));
    }
  }

  lemma SplitNonempty(p: string)
    ensures |Split(p)| > 0
  {}

  /** A relative reference replaces the last segment B[n] of the base. */
  lemma MergeBelow(basePath: string, relPath: string, B: seq<string>)
    requires relPath != "" && !Absolute(relPath) && Absolute(basePath)
    requires Split(basePath) == [""] + B && B != [] && basePath == Out(B) && AllSlashFree(B)
    requires Out(Split(relPath)) == "/" + relPath && AllSlashFree(Split(relPath))
    ensures Below(basePath, relPath) != [] && AllSlashFree(Below(basePath, relPath))
    ensures Out(Below(basePath, relPath)) == UpToSlash(basePath) + relPath
  {
    var R := Split(relPath);
    SplitNonempty(relPath);
    hide Split, Out, UpToSlash;
    BelowParts(basePath, relPath, B, R);
    KeepParts(B, |B| - 1, R);
    JoinParts(B, R, relPath);
  }

  lemma BelowParts(basePath: string, relPath: string, B: seq<string>, R: seq<string>)
    requires relPath != "" && !Absolute(relPath) && Absolute(basePath)
    requires Split(basePath) == [""] + B && B != [] && Split(relPath) == R
    ensures Below(basePath, relPath) == B[..|B| - 1] + R
  {
    hide Split;
    WithoutLast(B);
    AfterRoot(B[..|B| - 1], R);
  }

  lemma JoinParts(B: seq<string>, R: seq<string>, relPath: string)
    requires B != [] && AllSlashFree(B) && Out(R) == "/" + relPath
    ensures Out(B[..|B| - 1] + R) == UpToSlash(Out(B)) + relPath
  {
    var D, y := B[..|B| - 1], B[|B| - 1];
    assert B == D + [y] && SlashFree(y);
    hide *;
    OutSnoc(D, y);
    UpToSlashFree(Out(D), y);
    OutAppend(D, R);
    UrlPath.GlueName(Out(D), relPath);
  }

  lemma WithoutLast(B: seq<string>)
    requires B != []
    ensures ([""] + B)[..|B|] == [""] + B[..|B| - 1]
  {}

  lemma AfterRoot(D: seq<string>, R: seq<string>)
    ensures |[""] + D + R| == 1 + |D| + |R| && Rest([""] + D + R, 1) == D + R
  {}

  lemma KeepParts(B: seq<string>, n: int, R: seq<string>)
    requires 0 <= n <= |B| && AllSlashFree(B) && AllSlashFree(R)
    ensures AllSlashFree(B[..n] + R)
  {}

  /** Some ".." finds nothing left to remove. */
  predicate Climbs(segs: seq<string>) {
    segs != [] && (Climbs(segs[..|segs| - 1]) || (segs[|segs| - 1] == ".." && Forward([], segs[..|segs| - 1]) == []))
  }

  /** The root segment survives the pass unless a ".." climbs above the root. */
  lemma {:induction false} RootSurvives(segs: seq<string>)
    ensures Forward([], [""] + segs) == if Climbs(segs) then Forward([], segs) else [""] + Forward([], segs)
  {
    if segs == [] {
      assert [""] + segs == [] + [""];
      ForwardSnoc([], [], "");
    } else {
      var n := |segs| - 1;
      var c, x := segs[..n], segs[n];
      assert segs == c + [x];
      assert [""] + segs == [""] + c + [x];
      RootSurvives(c);
      ForwardSnoc([], c, x);
      ForwardSnoc([], [""] + c, x);
      assert Climbs(segs) <==> Climbs(c) || (x == ".." && Forward([], c) == []);
      hide Forward, Climbs;
      ApplyAbove(Forward([], c), x);
    }
  }

  /** A root below the stack stays there unless ".." meets the bare root. */
  lemma ApplyAbove(st: seq<string>, x: string)
    ensures Apply([""] + st, x) == if x == ".." && st == [] then [] else [""] + Apply(st, x)
  {
    if st != [] { assert Pop([""] + st) == [""] + Pop(st); }
    assert [""] + st + [x] == [""] + (st + [x]);
  }

  /** The root is not there to be kept, or a ".." removed it. */
  predicate RootLost(basePath: string, relPath: string)
    requires relPath != "" && (basePath == "" || Absolute(basePath))
  {
    (basePath == "" && !Absolute(relPath)) || Climbs(Below(basePath, relPath))
  }

  /** Exactly the inputs on which the source departs from the RFC: an empty
      segment survives in front of a closing "." or "..", or survives as the
      first segment when the root was lost. */
  predicate Departs(basePath: string, relPath: string)
    requires relPath != "" && (basePath == "" || Absolute(basePath))
  {
    var segs := Below(basePath, relPath);
    var st := Forward([], segs);
    || (st != [] && st[|st| - 1] == "" && segs != [] && IsDot(segs[|segs| - 1]))
    || (|st| >= 2 && st[0] == "" && RootLost(basePath, relPath))
  }

  lemma SurvivorsOf(basePath: string, relPath: string)
    requires relPath != "" && (basePath == "" || Absolute(basePath))
    ensures var m, segs := Merged(basePath, relPath), Below(basePath, relPath);
            && m != [] && segs != [] && m[|m| - 1] == segs[|segs| - 1]
            && Forward([], m) == if RootLost(basePath, relPath) then Forward([], segs) else [""] + Forward([], segs)
  {
    var m, segs := Merged(basePath, relPath), Below(basePath, relPath);
    MergedRoot(basePath, relPath);
    hide Merged, Forward, Climbs, Absolute;
    if !(basePath == "" && !Absolute(relPath)) {
      RootSurvives(segs);
    }
  }

  lemma MergedRoot(basePath: string, relPath: string)
    requires relPath != "" && (basePath == "" || Absolute(basePath))
    ensures var m, segs := Merged(basePath, relPath), Below(basePath, relPath);
            && m != [] && segs != [] && m[|m| - 1] == segs[|segs| - 1]
            && (basePath == "" && !Absolute(relPath) ==> m == segs)
            && (!(basePath == "" && !Absolute(relPath)) ==> m == [""] + segs)
  {
    hide Split;
    LongEnough(basePath, relPath);
    if Absolute(relPath) {
      TwoSegments(relPath);
    } else if basePath != "" {
      TwoSegments(basePath);
    }
    var m := Merged(basePath, relPath);
    if !(basePath == "" && !Absolute(relPath)) {
      assert m[0] == "";
      assert m == [""] + Rest(m, 1);
    }
  }

  lemma LastOfForward(segs: seq<string>)
    requires segs != [] && !IsDot(segs[|segs| - 1])
    ensures var st := Forward([], segs); st != [] && st[|st| - 1] == segs[|segs| - 1]
  {}

  /** The two assemblies when the root is kept or put back: they differ only
      when an empty segment is left in front of a closing dot segment. */
  lemma AssemblyRooted(st: seq<string>, last: string)
    requires st != [] && AllSlashFree(st)
    requires !IsDot(last) ==> st[|st| - 1] == last
    ensures Assembled([""] + st, last) == Out(Closed(st, last)) <==> !(st[|st| - 1] == "" && IsDot(last))
  {
    var t := "/" + Join(st);
    RootedJoin(st);
    JoinSnoc([""] + st, "");
    OutSnoc(st, "");
    OutIsJoin(st);
    EndOfJoin(st);
    DotNotEmpty(last);
    hide *;
    assert |t + "/" + ""| == |t| + 1;
  }

  lemma DotNotEmpty(s: string)
    ensures IsDot(s) ==> s != ""
  {}

  /** When the root is lost and the first survivor is empty, that one serves as
      the root; the result is short of a slash unless it was the only one. */
  lemma AssemblyLost(st: seq<string>, last: string)
    requires st != [] && AllSlashFree(st) && st[0] == ""
    requires !IsDot(last) ==> st[|st| - 1] == last
    ensures Assembled(st, last) == Out(Closed(st, last)) <==>
            !((st[|st| - 1] == "" && IsDot(last)) || |st| >= 2)
  {
    var t := Join(st);
    JoinSnoc(st, "");
    OutSnoc(st, "");
    OutIsJoin(st);
    EndOfJoin(st);
    DotNotEmpty(last);
    hide *;
    assert |t + "/" + ""| == |t| + 1;
    assert |"/" + t| == |t| + 1;
    assert |"/" + t + "/" + ""| == |t| + 2;
  }

  lemma AssemblyEmpty(last: string)
    requires IsDot(last)
    ensures Assembled([""], last) == Out(Closed([], last))
  {
    OutEmpty();
    OutSnoc([], "");
    JoinEmpty();
    JoinSnoc([""], "");
    hide Join, Out;
  }

  lemma Assembly(st: seq<string>, last: string, lost: bool)
    requires !IsDot(last) ==> st != [] && st[|st| - 1] == last
    requires AllSlashFree(st)
    ensures Assembled(Rooted(if lost then st else [""] + st), last) == Out(Closed(st, last)) <==>
            !((st != [] && st[|st| - 1] == "" && IsDot(last)) || (|st| >= 2 && st[0] == "" && lost))
  {
    hide Assembled, Out, Closed, IsDot;
    if st == [] {
      AssemblyEmpty(last);
      assert [""] + st == [""];
    } else {
      AssemblyRooted(st, last);
      if lost && st[0] == "" { AssemblyLost(st, last); }
      assert ([""] + st)[0] == "";
    }
  }

  lemma JoinEmpty()
    ensures Join([]) == "" && Join([""]) == ""
  {}

  lemma EndOfJoin(st: seq<string>)
    requires st != [] && AllSlashFree(st)
    ensures EndsWithSlash(Join(st)) <==> |st| >= 2 && st[|st| - 1] == ""
    ensures EndsWithSlash("/" + Join(st)) <==> st[|st| - 1] == ""
    ensures |st| == 1 ==> Join(st) == st[0]
    ensures |st| >= 2 ==> |Join(st)| >= 1
  {
    var n := |st| - 1;
    var x := st[n];
    JoinSnoc(st[..n], x);
    assert st == st[..n] + [x];
    hide Join;
    if n > 0 {
      assert Join(st) == Join(st[..n]) + "/" + x;
    }
    if x != "" { assert x[|x| - 1] != '/'; }
  }

  /** The source computes the RFC's path exactly when it does not depart. */
  lemma MatchesRfcExactly(basePath: string, relPath: string)
    requires relPath != "" && (basePath == "" || Absolute(basePath))
    ensures Pathname(Merged(basePath, relPath)) == RfcPathname(basePath, relPath) <==> !Departs(basePath, relPath)
  {
    hide Split, Join, Out, Forward, RemoveDotSegments, RootLost, Assembled, Rooted, Merged, Below, MergePaths,
        Closed, IsDot;
    var m, segs := Merged(basePath, relPath), Below(basePath, relPath);
    SurvivorsOf(basePath, relPath);
    MergeAgrees(basePath, relPath);
    var st, last, lost := Forward([], segs), segs[|segs| - 1], RootLost(basePath, relPath);
    RfcOnSegments(basePath, relPath);
    ForwardParts(segs);
    if !IsDot(last) { LastOfForward(segs); }
    Assembly(st, last, lost);
  }

  lemma RfcOnSegments(basePath: string, relPath: string)
    requires relPath != "" && (basePath == "" || Absolute(basePath))
    requires var segs := Below(basePath, relPath);
             segs != [] && AllSlashFree(segs) && Out(segs) == MergePaths(basePath, relPath)
    ensures var segs := Below(basePath, relPath);
            RfcPathname(basePath, relPath) == Out(Closed(Forward([], segs), segs[|segs| - 1]))
  {
    OutEmpty();
    RemoveDotsOnSegments([], Below(basePath, relPath));
    hide Out, RemoveDotSegments, Forward, Below, MergePaths;
  }

  lemma {:induction false} ForwardParts(segs: seq<string>)
    requires AllSlashFree(segs)
    ensures AllSlashFree(Forward([], segs))
  {
    if segs != [] {
      ForwardParts(segs[..|segs| - 1]);
    }
  }

  /** No "//" in the merged path, except that it may end in a slash. */
  predicate NoInnerEmpty(segs: seq<string>) { forall k | 0 <= k < |segs| - 1 :: segs[k] != "" }

  lemma {:induction false} NonEmptySurvivors(segs: seq<string>)
    requires forall k | 0 <= k < |segs| :: segs[k] != ""
    ensures forall k | 0 <= k < |Forward([], segs)| :: Forward([], segs)[k] != ""
  {
    if segs != [] {
      NonEmptySurvivors(segs[..|segs| - 1]);
    }
  }

  /** In particular it computes the RFC's path for every input without "//". */
  lemma MatchesRfcWithoutDoubleSlash(basePath: string, relPath: string)
    requires relPath != "" && (basePath == "" || Absolute(basePath))
    requires NoInnerEmpty(Below(basePath, relPath))
    ensures Pathname(Merged(basePath, relPath)) == RfcPathname(basePath, relPath)
  {
    hide Below, RootLost, Pathname, Merged, RfcPathname, Forward;
    var segs := Below(basePath, relPath);
    MatchesRfcExactly(basePath, relPath);
    SurvivorsOf(basePath, relPath);
    InnerNames(segs);
  }

  /** Then only a final empty segment can be left empty. */
  lemma InnerNames(segs: seq<string>)
    requires segs != [] && NoInnerEmpty(segs)
    ensures var st := Forward([], segs);
            && (IsDot(segs[|segs| - 1]) && st != [] ==> st[|st| - 1] != "")
            && (|st| >= 2 ==> st[0] != "")
  {
    var n := |segs| - 1;
    var a := segs[..n];
    NonEmptySurvivors(a);
    assert segs == a + [segs[n]];
    ForwardSnoc([], a, segs[n]);
    hide Forward;
    LastPush(Forward([], a), segs[n]);
  }

  lemma LastPush(st: seq<string>, x: string)
    requires forall k | 0 <= k < |st| :: st[k] != ""
    ensures var r := Apply(st, x);
            && (IsDot(x) && r != [] ==> r[|r| - 1] != "")
            && (|r| >= 2 ==> r[0] != "")
  {}

  /** A departing input: "/a//.": the source answers "/a/", the RFC "/a//". */
  lemma DepartsSomewhere()
    ensures Departs("", "/a//.")
    ensures Pathname(Merged("", "/a//.")) != RfcPathname("", "/a//.")
  {
    ExampleSplit();
    MatchesRfcExactly("", "/a//.");
    hide Split, Pathname, Merged, RfcPathname, RootLost;
    assert Merged("", "/a//.") == Split("/a//.");
    ExampleForward();
    var segs := Below("", "/a//.");
    assert segs == ["a", "", "."];
  }

  lemma ExampleSplit()
    ensures Split("/a//.") == ["", "a", "", "."]
  {
    SplitEmpty();
    hide Split;
    SplitSnoc("", '/');
    SplitSnoc("/", 'a');
    SplitSnoc("/a", '/');
    SplitSnoc("/a/", '/');
    SplitSnoc("/a//", '.');
    assert "" + ['/'] == "/" && "/" + ['a'] == "/a" && "/a" + ['/'] == "/a/";
    assert "/a/" + ['/'] == "/a//" && "/a//" + ['.'] == "/a//.";
    assert "" + ['a'] == "a" && "" + ['.'] == ".";
    assert Split("/") == ["", ""];
    assert Split("/a") == ["", "a"];
    assert Split("/a/") == ["", "a", ""];
    assert Split("/a//") == ["", "a", "", ""];
  }

  lemma ExampleForward()
    ensures Forward([], ["a", "", "."]) == ["a", ""]
  {
    ForwardSnoc([], [], "a");
    ForwardSnoc([], ["a"], "");
    ForwardSnoc([], ["a", ""], ".");
    assert [] + ["a"] == ["a"] && ["a"] + [""] == ["a", ""] && ["a", ""] + ["."] == ["a", "", "."];
  }
}
