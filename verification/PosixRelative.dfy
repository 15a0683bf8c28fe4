/** lib_js/path.js, posix.relative: the way from one directory to another, and
    the proof that posix.resolve walks it. */
module PosixRelative {
  import opened Segments
  import opened Slices
  import opened PosixPath

  /** How many leading segments two stacks share. */
  function CommonLength(F: seq<string>, T: seq<string>): (k: nat)
    ensures k <= |F| && k <= |T|
  {
    if F != [] && T != [] && F[0] == T[0] then 1 + CommonLength(F[1..], T[1..]) else 0
  }

  /** One ".." for each segment of F beyond the common ones, then the rest of T. */
  function RelativeSegments(F: seq<string>, T: seq<string>): seq<string> {
    var k := CommonLength(F, T);
    Repeat("..", |F| - k) + T[k..]
  }

  function RelativeSpec(from: string, to: string, cwd: string): string {
    if from == to then ""
    else Join(RelativeSegments(ResolveSegments([cwd, from]), ResolveSegments([cwd, to])))
  }

  lemma {:induction false} CommonIsPrefix(F: seq<string>, T: seq<string>)
    ensures var k := CommonLength(F, T); F[..k] == T[..k] && (k < |F| && k < |T| ==> F[k] != T[k])
  {
    if F != [] && T != [] && F[0] == T[0] {
      var k := CommonLength(F[1..], T[1..]);
      CommonIsPrefix(F[1..], T[1..]);
      assert F[..k + 1] == [F[0]] + F[1..][..k];
      assert T[..k + 1] == [T[0]] + T[1..][..k];
    }
  }

  lemma {:induction false} CommonAppend(A: seq<string>, X: seq<string>, Y: seq<string>)
    ensures CommonLength(A + X, A + Y) == |A| + CommonLength(X, Y)
  {
    if A == [] {
      assert A + X == X && A + Y == Y;
    } else {
      CommonAppend(A[1..], X, Y);
      assert (A + X)[1..] == A[1..] + X && (A + Y)[1..] == A[1..] + Y;
    }
  }

  /** The stack that a resolved path shows. */
  function Shows(f: string): seq<string> { if f == "" then [] else Split(f) }

  /** The comparison loop's variables: the first i characters agree and the last
      separator among them is at c (-1 for none). */
  ghost predicate Agreeing(f: string, t: string, c: int, i: int) {
    && -1 <= c < i && i <= |f| && i <= |t|
    && (forall k | 0 <= k < i :: f[k] == t[k])
    && (c >= 0 ==> f[c] == '/')
    && (forall k | c < k < i :: f[k] != '/')
  }

  /** Where the texts part inside a segment. */
  ghost predicate Parting(f: string, t: string, c: int, i: int) {
    && Agreeing(f, t, c, i) && f != "" && t != ""
    && (i == |f| ==> i < |t| && t[i] != '/')
    && (i == |t| ==> i < |f| && f[i] != '/')
    && (i < |f| && i < |t| ==> f[i] != t[i])
  }

  /** The segments before the separator at c. */
  function Before(f: string, c: int): seq<string>
    requires -1 <= c <= |f|
  {
    if c == -1 then [] else Split(f[..c])
  }

  /** There they share exactly the segments up to the last common separator. */
  lemma Diverge(f: string, t: string, c: int, i: int)
    requires Parting(f, t, c, i)
    ensures RelativeSegments(Split(f), Split(t)) ==
            Repeat("..", |Split(Rest(f, c + 1))|) + Split(Rest(t, c + 1))
  {
    RestsPart(f, t, c, i);
    CutAtBest(f, c);
    CutAtBest(t, c);
    SameBefore(f, t, c, i);
    hide *;
    ForkedSegments(Before(f, c), Split(Rest(f, c + 1)), Split(Rest(t, c + 1)));
  }

  lemma ForkedSegments(A: seq<string>, X: seq<string>, Y: seq<string>)
    requires X != [] && Y != [] && X[0] != Y[0]
    ensures RelativeSegments(A + X, A + Y) == Repeat("..", |X|) + Y
  {
    CommonAppend(A, X, Y);
    HeadsDiffer(X, Y);
    hide CommonLength;
    assert (A + Y)[|A|..] == Y;
  }

  lemma SameBefore(f: string, t: string, c: int, i: int)
    requires Agreeing(f, t, c, i)
    ensures Before(f, c) == Before(t, c)
    ensures c >= 0 ==> f[c] == '/' && t[c] == '/'
  {
    if c >= 0 {
      assert f[..c] == t[..c];
    }
  }

  lemma CutAtBest(f: string, c: int)
    requires -1 <= c < |f| && (c >= 0 ==> f[c] == '/')
    ensures Split(f) == Before(f, c) + Split(Rest(f, c + 1))
  {
    hide Split, Rest;
    if c == -1 {
      WholeRest(f);
      assert [] + Split(f) == Split(f);
    } else {
      CutAt(f, c);
    }
  }

  lemma WholeRest(f: string)
    ensures Rest(f, 0) == f
  {}

  /** The first segments after the last common separator are different. */
  lemma RestsPart(f: string, t: string, c: int, i: int)
    requires Parting(f, t, c, i)
    ensures |Split(Rest(f, c + 1))| > 0 && |Split(Rest(t, c + 1))| > 0
    ensures Split(Rest(f, c + 1))[0] != Split(Rest(t, c + 1))[0]
  {
    var x, y, j := Rest(f, c + 1), Rest(t, c + 1), i - c - 1;
    hide Split, Rest;
    assert x[..j] == y[..j];
    SplitHead(x, j);
    SplitHead(y, j);
    if |x| > j && |y| > j {
      assert x[j] == f[i] && y[j] == t[i];
    }
  }

  lemma CutAt(f: string, c: int)
    requires 0 <= c < |f| && f[c] == '/'
    ensures Split(f) == Split(f[..c]) + Split(Rest(f, c + 1))
  {
    hide Split;
    SplitConcat(f[..c], f[c + 1..]);
    assert f == f[..c] + "/" + f[c + 1..];
  }

  lemma HeadsDiffer(X: seq<string>, Y: seq<string>)
    requires X != [] && Y != [] && X[0] != Y[0]
    ensures CommonLength(X, Y) == 0
  {}

  /** One of the texts ends at a separator of the other. */
  lemma Nested(f: string, t: string)
    requires f != "" && |f| < |t| && t[|f|] == '/' && forall k | 0 <= k < |f| :: f[k] == t[k]
    ensures RelativeSegments(Split(f), Split(t)) == Split(Rest(t, |f| + 1))
    ensures RelativeSegments(Split(t), Split(f)) == Repeat("..", |Split(Rest(t, |f| + 1))|)
  {
    hide Split, RelativeSegments;
    assert t[..|f|] == f;
    CutAt(t, |f|);
    NestedSegments(Split(f), Split(Rest(t, |f| + 1)));
  }

  lemma NestedSegments(F: seq<string>, Y: seq<string>)
    ensures RelativeSegments(F, F + Y) == Y && RelativeSegments(F + Y, F) == Repeat("..", |Y|)
  {
    assert F + [] == F;
    CommonAppend(F, [], Y);
    CommonAppend(F, Y, []);
  }

  lemma {:induction false} SplitFirst(f: string)
    requires f != "" && f[0] != '/'
    ensures |Split(f)| == |Split(f[1..])|
  {
    var n := |f| - 1;
    if n > 0 {
      SplitFirst(f[..n]);
      assert f[..n][1..] == f[1..][..n - 1];
    } else {
      assert f[..0] == "" && f[1..] == "";
    }
  }

  lemma RepeatMore(n: nat)
    ensures Join(Repeat("..", n + 1)) == if n == 0 then ".." else Join(Repeat("..", n)) + "/.."
    ensures n > 0 ==> Join(Repeat("..", n)) != ""
    ensures Join(Repeat("..", 0)) == ""
  {
    var r := Repeat("..", n + 1);
    assert r[..n] == Repeat("..", n);
    if n > 0 {
      assert Join(r) == Join(r[..n]) + "/" + "..";
      assert "/" + ".." == "/..";
      JoinEnds(Repeat("..", n));
    }
  }

  /** ".." for every segment of x. */
  function Ups(x: string): string { Join(Repeat("..", |Split(x)|)) }

  /** What the climbing loop has emitted for x[..i], a segment being counted
      when its end is met. */
  ghost predicate Climbed(x: string, i: int, out: string) {
    && 0 <= i <= |x| + 1
    && var n := if i <= |x| then |Split(x[..i])| - 1 else |Split(x)|;
       out == Join(Repeat("..", n)) && (out == "" <==> n == 0)
  }

  lemma ClimbOne(x: string, i: int, out: string)
    requires 0 <= i <= |x| && Climbed(x, i, out)
    ensures i == |x| || x[i] == '/' ==> Climbed(x, i + 1, if out == "" then ".." else out + "/..")
    ensures i < |x| && x[i] != '/' ==> Climbed(x, i + 1, out)
  {
    RepeatMore(|Split(x[..i])| - 1);
    RepeatMore(|Split(x[..i])|);
    NextCount(x, i);
    hide Split, Join, Repeat;
  }

  lemma NextCount(x: string, i: int)
    requires 0 <= i <= |x|
    ensures i == |x| ==> |Split(x)| == |Split(x[..i])|
    ensures i < |x| ==> |Split(x[..i + 1])| == |Split(x[..i])| + if x[i] == '/' then 1 else 0
  {
    hide Split;
    if i < |x| {
      SplitSnoc(x[..i], x[i]);
      assert x[..i + 1] == x[..i] + [x[i]];
    } else {
      assert x[..i] == x;
    }
  }

  /** The loop that emits ".." for every segment still to be left (lines 1242-1249). */
  method Climb(x: string) returns (out: string)
    ensures out == Ups(x) && out != ""
  {
    out := "";
    ClimbNone(x);
    hide *;
    for i := 0 to |x| + 1
      invariant Climbed(x, i, out)
    {
      ClimbOne(x, i, out);
      if i == |x| || x[i] == '/' {
        out := if |out| == 0 then ".." else out + "/..";
      }
    }
    ClimbAll(x, out);
  }

  lemma ClimbNone(x: string)
    ensures Climbed(x, 0, "")
  {
    assert x[..0] == "" && Split("") == [""];
    RepeatMore(0);
  }

  lemma ClimbAll(x: string, out: string)
    requires Climbed(x, |x| + 1, out)
    ensures out == Ups(x) && out != ""
  {
    hide Join, Repeat;
    SplitNonEmpty(x);
  }

  lemma SplitNonEmpty(p: string)
    ensures |Split(p)| > 0
  {}

  /** ".." repeated, then the remaining path text. */
  lemma Spliced(n: nat, y: string)
    requires n > 0
    ensures Join(Repeat("..", n) + Split(y)) == Join(Repeat("..", n)) + "/" + y
  {
    hide Split;
    JoinConcat(Repeat("..", n), Split(y));
    JoinSplit(y);
  }

  /** The relative text between the directories "/" + f and "/" + t. */
  function Between(f: string, t: string): string { Join(RelativeSegments(Shows(f), Shows(t))) }

  /** The comparison loop (lines 1203-1237): where the texts part, and the last
      separator before that point. */
  method Compare(f: string, t: string) returns (i: int, lastCommonSep: int)
    ensures Agreeing(f, t, lastCommonSep, i)
    ensures i < |f| && i < |t| ==> 0 <= i && f[i] != t[i]
  {
    lastCommonSep, i := -1, 0;
    while i < |f| && i < |t| && f[i] == t[i]
      invariant 0 <= i && Agreeing(f, t, lastCommonSep, i)
      decreases |f| - i
    {
      if f[i] == '/' {
        lastCommonSep := i;
      }
      i := i + 1;
    }
  }

  /** The text scan over two resolved paths "/" + f and "/" + t; the source
      skips the leading separators first, and a resolved path has just one. */
  method RelativeText(f: string, t: string) returns (r: string)
    requires f != t
    requires f != "" ==> f[0] != '/'
    requires t != "" ==> t[0] != '/'
    ensures r == Between(f, t)
  {
    var i, lastCommonSep := Compare(f, t);
    AtExit(f, t, lastCommonSep, i);
    hide *;
    if i == |f| && |t| > |f| && (t[i] == '/' || i == 0) {
      r := Rest(t, if t[i] == '/' then i + 1 else i);
    } else {
      // `out` is never empty here, so the source's last branch is not reached.
      var out := Climb(Rest(f, ClimbFrom(f, t, lastCommonSep, i) + 1));
      r := out + Tail(t, ClimbFrom(f, t, lastCommonSep, i));
      AtEnd(f, t, lastCommonSep, i, out);
    }
  }

  /** The rest of `to` from its separator at c on; from its very start for c = -1. */
  function Tail(t: string, c: int): string
    requires -1 <= c <= |t|
  {
    ("/" + t)[1 + c..]
  }

  /** The separator from which the climb starts (lines 1218-1228). */
  function ClimbFrom(f: string, t: string, c: int, i: int): int
    requires 0 <= i <= |f| && i <= |t|
  {
    if i == |t| && i < |f| then (if f[i] == '/' then i else if i == 0 then 0 else c) else c
  }

  /** What is known when the comparison stops, and the two early results. */
  lemma AtExit(f: string, t: string, c: int, i: int)
    requires Agreeing(f, t, c, i) && f != t
    requires f != "" ==> f[0] != '/'
    requires t != "" ==> t[0] != '/'
    ensures 0 <= i <= |f| && i <= |t|
    ensures -1 <= ClimbFrom(f, t, c, i) <= |t| && (i < |f| || |t| > |f| ==> ClimbFrom(f, t, c, i) < |f|)
    ensures i == |f| ==> |t| > |f|
    ensures i == |f| && t[i] == '/' ==> Between(f, t) == Rest(t, i + 1)
    ensures i == |f| && t[i] != '/' && i == 0 ==> Between(f, t) == Rest(t, i)
  {
    Differ(f, t, c, i);
    hide Between;
    if i == |f| {
      if t[i] == '/' {
        FromPrefix(f, t, c);
      } else if i == 0 {
        FromRoot(f, t);
      }
    }
  }

  /** The text emitted when the scan falls through to the climbing loop. */
  lemma AtEnd(f: string, t: string, c0: int, i: int, out: string)
    requires Agreeing(f, t, c0, i) && f != t
    requires f != "" ==> f[0] != '/'
    requires t != "" ==> t[0] != '/'
    requires i < |f| && i < |t| ==> 0 <= i && f[i] != t[i]
    requires !(i == |f| && |t| > |f| && (t[i] == '/' || i == 0))
    requires var c := ClimbFrom(f, t, c0, i);
             -1 <= c < |f| && c <= |t| && out == Ups(Rest(f, c + 1))
    ensures out + Tail(t, ClimbFrom(f, t, c0, i)) == Between(f, t)
  {
    var c := ClimbFrom(f, t, c0, i);
    Differ(f, t, c0, i);
    hide Split, Join, Ups, Tail, Between, Rest;
    if i == |t| && f[i] == '/' {
      ToPrefix(f, t, c0);
      NoTail(out, t);
    } else if i == |t| && i == 0 {
      ToRoot(f, t);
      NoTail(out, t);
    } else {
      Parted(f, t, c, i, out);
    }
  }

  lemma NoTail(out: string, t: string)
    ensures out + Tail(t, |t|) == out
  {}

  lemma SameText(f: string, t: string)
    requires |f| == |t| && forall k | 0 <= k < |f| :: f[k] == t[k]
    ensures f == t
  {}

  lemma Differ(f: string, t: string, c: int, i: int)
    requires f != t && Agreeing(f, t, c, i)
    ensures i == |f| ==> |t| > |f|
  {
    if i == |f| == |t| {
      SameText(f, t);
      assert false;
    }
  }

  lemma Parted(f: string, t: string, c: int, i: int, out: string)
    requires Parting(f, t, c, i)
    requires out == Ups(Rest(f, c + 1))
    ensures out + Tail(t, c) == Between(f, t)
  {
    var x, y := Rest(f, c + 1), Rest(t, c + 1);
    SlashAt(f, t, c, i);
    Diverge(f, t, c, i);
    SplitNonEmpty(x);
    Spliced(|Split(x)|, y);
    hide Split, Join, Repeat, RelativeSegments, Rest, Tail, Parting;
    Glue(out, y);
  }

  lemma Glue(a: string, b: string)
    ensures a + ("/" + b) == a + "/" + b
  {}

  lemma SlashAt(f: string, t: string, c: int, i: int)
    requires Agreeing(f, t, c, i)
    ensures Tail(t, c) == "/" + Rest(t, c + 1)
  {
    if c >= 0 {
      assert t[c] == '/';
    } else {
      WholeRest(t);
    }
  }

  lemma FromPrefix(f: string, t: string, c: int)
    requires f != "" && |f| < |t| && t[|f|] == '/' && Agreeing(f, t, c, |f|)
    ensures Between(f, t) == Rest(t, |f| + 1)
  {
    Nested(f, t);
    hide Split, Join;
    JoinSplit(Rest(t, |f| + 1));
  }

  lemma ToPrefix(f: string, t: string, c: int)
    requires t != "" && |t| < |f| && f[|t|] == '/' && Agreeing(f, t, c, |t|)
    ensures Between(f, t) == Ups(Rest(f, |t| + 1))
  {
    hide Split, Join;
    Nested(t, f);
  }

  lemma FromRoot(f: string, t: string)
    requires |f| == 0 && t != ""
    ensures Between(f, t) == Rest(t, 0)
  {
    JoinSplit(t);
    WholeRest(t);
    assert Repeat("..", 0) + Split(t) == Split(t);
  }

  lemma ToRoot(f: string, t: string)
    requires |t| == 0 && f != "" && f[0] != '/'
    ensures Between(f, t) == Ups(Rest(f, 1))
  {
    SplitFirst(f);
    assert RelativeSegments(Split(f), []) == Repeat("..", |Split(f)|);
  }

  /** posix.relative */
  method Relative(from0: string, to0: string, cwd: string) returns (r: string)
    requires IsAbsolute(cwd)
    ensures r == RelativeSpec(from0, to0, cwd)
  {
    if from0 == to0 {
      return "";
    }
    r := RelativeOf(from0, to0, cwd);
  }

  method RelativeOf(from0: string, to0: string, cwd: string) returns (r: string)
    requires IsAbsolute(cwd) && from0 != to0
    ensures r == RelativeSpec(from0, to0, cwd)
  {
    var from := Resolve([from0], cwd);
    var to := Resolve([to0], cwd);
    assert [cwd] + [from0] == [cwd, from0] && [cwd] + [to0] == [cwd, to0];
    RelativeVia(from0, to0, cwd);
    hide ResolveSpec, RelativeSpec, Between;
    if from == to {
      r := "";
    } else {
      r := RelativeText(from[1..], to[1..]);
    }
  }

  lemma RelativeVia(from0: string, to0: string, cwd: string)
    requires IsAbsolute(cwd) && from0 != to0
    ensures var from, to := ResolveSpec([cwd, from0]), ResolveSpec([cwd, to0]);
            && from != "" && to != ""
            && (from == to ==> RelativeSpec(from0, to0, cwd) == "")
            && (from != to ==> RelativeSpec(from0, to0, cwd) == Between(from[1..], to[1..]))
            && (from != to ==> from[1..] != to[1..])
            && (|from| > 1 ==> from[1] != '/')
            && (|to| > 1 ==> to[1] != '/')
  {
    ResolvedShape(from0, cwd);
    ResolvedShape(to0, cwd);
    SameStack(ResolveSegments([cwd, from0]));
    hide Split, Join, ResolveSegments, ResolveSpec, RelativeSegments;
    var from, to := ResolveSpec([cwd, from0]), ResolveSpec([cwd, to0]);
    if from != to {
      TailsDiffer(from, to);
    }
  }

  lemma TailsDiffer(from: string, to: string)
    requires IsAbsolute(from) && IsAbsolute(to) && from != to
    ensures from[1..] != to[1..]
  {
    assert from == "/" + from[1..] && to == "/" + to[1..];
  }

  /** With an absolute current directory, a resolution shows its stack after one slash. */
  lemma ResolvedShape(p: string, cwd: string)
    requires IsAbsolute(cwd)
    ensures var r := ResolveSpec([cwd, p]);
            && IsAbsolute(r) && (|r| > 1 ==> r[1] != '/')
            && Shows(r[1..]) == ResolveSegments([cwd, p])
    ensures Normal(ResolveSegments([cwd, p]), false)
  {
    var paths := [cwd, p];
    assert IsAbsolute(paths[0]);
    ResolvedText(paths);
    var st := ResolveSegments(paths);
    NormalJoin(st, false);
    assert ("/" + Join(st))[1..] == Join(st);
  }

  lemma SameStack(F: seq<string>)
    ensures RelativeSegments(F, F) == [] && Join([]) == ""
  {
    assert F + [] == F && CommonLength([], []) == 0;
    CommonAppend(F, [], []);
    assert Repeat("..", 0) == [];
  }

  /** Walking the relative segments from F arrives at T. */
  lemma WalkRelative(F: seq<string>, T: seq<string>)
    requires AllPlain(F) && AllPlain(T)
    ensures Fold(F, RelativeSegments(F, T), false) == T
  {
    var k := CommonLength(F, T);
    CommonIsPrefix(F, T);
    FoldConcat(F, Repeat("..", |F| - k), T[k..], false);
    FoldUps(F, |F| - k, false);
    FoldPlain(F[..k], T[k..], false);
    assert T[..k] + T[k..] == T;
  }

  /** posix.resolve(from, posix.relative(from, to)) is posix.resolve(to). */
  lemma ResolveUndoesRelative(from: string, to: string, cwd: string)
    requires IsAbsolute(cwd)
    ensures ResolveSpec([cwd, from, RelativeSpec(from, to, cwd)]) == ResolveSpec([cwd, to])
  {
    var F, T := ResolveSegments([cwd, from]), ResolveSegments([cwd, to]);
    ResolvedShape(from, cwd);
    ResolvedShape(to, cwd);
    NormalIsPlain(F);
    NormalIsPlain(T);
    if from == to { SameStack(F); }
    hide Split, Join, Fold, CommonLength, AllSegments, Relevant;
    RelativeShape(F, T);
    WalkRelative(F, T);
    AppendRelative(from, RelativeSpec(from, to, cwd), cwd);
    assert IsAbsolute([cwd, to][0]);
  }

  /** The relative text is not absolute and shows exactly its segments. */
  lemma RelativeShape(F: seq<string>, T: seq<string>)
    requires AllPlain(T)
    ensures var R := RelativeSegments(F, T); !IsAbsolute(Join(R)) && SegmentsOf(Join(R)) == R
  {
    var R := RelativeSegments(F, T);
    hide CommonLength;
    assert forall k | 0 <= k < |R| :: R[k] != "" && SlashFree(R[k]);
    if R != [] {
      JoinEnds(R);
      SplitJoin(R);
    }
  }

  /** Resolving one more relative argument continues the stack machine. */
  lemma AppendRelative(from: string, rel: string, cwd: string)
    requires IsAbsolute(cwd) && !IsAbsolute(rel)
    ensures ResolveSpec([cwd, from, rel]) ==
            "/" + Join(Fold(ResolveSegments([cwd, from]), SegmentsOf(rel), false))
  {
    var paths, two := [cwd, from, rel], [cwd, from];
    assert IsAbsolute(paths[0]) && IsAbsolute(two[0]);
    assert paths[..2] == two;
    var head := Relevant(two);
    var q := head + [rel];
    assert q[..|head|] == head;
    assert Relevant(paths) == q;
    FoldConcat([], AllSegments(head), SegmentsOf(rel), false);
  }

  // ---- there is no shorter way ---------------------------------------------------------------------

  /** Segments to be left and to be entered. */
  function Distance(F: seq<string>, T: seq<string>): int { |F| + |T| - 2 * CommonLength(F, T) }

  lemma SameFirst(F: seq<string>, T: seq<string>, k: int)
    requires 0 <= k <= |F| && k <= |T| && F[..k] == T[..k]
    ensures forall i | 0 <= i < k :: F[i] == T[i]
  {
    assert forall i | 0 <= i < k :: F[..k][i] == F[i] && T[..k][i] == T[i];
  }

  lemma CommonIs(F: seq<string>, T: seq<string>, k: int)
    requires 0 <= k <= |F| && k <= |T| && F[..k] == T[..k] && (k < |F| && k < |T| ==> F[k] != T[k])
    ensures CommonLength(F, T) == k
  {
    var c := CommonLength(F, T);
    CommonIsPrefix(F, T);
    SameFirst(F, T, k);
    SameFirst(F, T, c);
  }

  /** One more segment brings the stack one step nearer or farther at most. */
  lemma OneStep(F: seq<string>, U: seq<string>, seg: string)
    requires AllPlain(U)
    ensures Distance(F, Push(U, seg, false)) <= Distance(F, U) + 1
  {
    hide CommonLength;
    var c := CommonLength(F, U);
    CommonIsPrefix(F, U);
    if seg == ".." && U != [] {
      var V := U[..|U| - 1];
      if c == |U| {
        assert F[..c - 1] == F[..c][..c - 1] && V[..c - 1] == U[..c][..c - 1];
        CommonIs(F, V, c - 1);
      } else {
        assert V[..c] == U[..c];
        CommonIs(F, V, c);
      }
    } else if Plain(seg) || (seg != "" && seg != "." && seg != "..") {
      var V := U + [seg];
      assert V[..c] == U[..c];
      if c == |U| && c < |F| && F[c] == seg {
        assert F[..c + 1] == F[..c] + [seg] && V[..c + 1] == U[..c] + [seg];
        CommonIs(F, V, c + 1);
      } else {
        CommonIs(F, V, c);
      }
    }
  }

  lemma {:induction false} NoShorterWay(F: seq<string>, R: seq<string>)
    requires AllPlain(F) && AllSlashFree(R)
    ensures Distance(F, Fold(F, R, false)) <= |R|
  {
    if R == [] {
      CommonIs(F, F, |F|);
    } else {
      var a := R[..|R| - 1];
      NoShorterWay(F, a);
      assert Normal(F, false);
      FoldIsNormal(F, a, false);
      NormalIsPlain(Fold(F, a, false));
      OneStep(F, Fold(F, a, false), R[|R| - 1]);
    }
  }

  /** posix.relative gives as few segments as any relative path that leads there. */
  lemma RelativeIsShortest(from: string, to: string, cwd: string, rel: string)
    requires IsAbsolute(cwd) && !IsAbsolute(rel)
    requires ResolveSpec([cwd, from, rel]) == ResolveSpec([cwd, to])
    ensures |SegmentsOf(RelativeSpec(from, to, cwd))| <= |SegmentsOf(rel)|
  {
    var F, T, R := ResolveSegments([cwd, from]), ResolveSegments([cwd, to]), SegmentsOf(rel);
    ResolvedShape(from, cwd);
    ResolvedShape(to, cwd);
    NormalIsPlain(F);
    NormalIsPlain(T);
    SplitParts(rel);
    AppendRelative(from, rel, cwd);
    assert IsAbsolute([cwd, to][0]);
    assert SomeAbsolute([cwd, to]);
    hide Split, Join, Fold, CommonLength, AllSegments, Relevant, ResolveSegments;
    FoldIsNormal(F, R, false);
    SameRoot(Fold(F, R, false), T);
    NoShorterWay(F, R);
    RelativeShape(F, T);
    RelativeLength(F, T);
  }

  lemma SameRoot(a: seq<string>, b: seq<string>)
    requires Normal(a, false) && Normal(b, false) && "/" + Join(a) == "/" + Join(b)
    ensures a == b
  {
    assert Join(a) == ("/" + Join(a))[1..] == ("/" + Join(b))[1..] == Join(b);
    NormalJoin(a, false);
    NormalJoin(b, false);
  }

  lemma RelativeLength(F: seq<string>, T: seq<string>)
    ensures |RelativeSegments(F, T)| == Distance(F, T)
  {}
}
