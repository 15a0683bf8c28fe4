/** lib_js/path.js: `normalizeString` and the posix functions built on it. */
module PosixPath {
  import opened Segments
  import opened Slices

  /** JavaScript's `s.lastIndexOf(c)`. */
  function LastIndexOf(s: string, c: char): (k: int)
    ensures -1 <= k < |s|
    ensures k >= 0 ==> s[k] == c
    ensures forall j | k < j < |s| :: s[j] != c
  {
    if s == "" then -1
    else if s[|s| - 1] == c then |s| - 1
    else LastIndexOf(s[..|s| - 1], c)
  }

  /** The value of the `dots` counter for the segment read so far: its length
      while it holds nothing but dots, else -1. */
  function Dots(seg: string): int {
    if forall k | 0 <= k < |seg| :: seg[k] == '.' then |seg| else -1
  }

  lemma DotsMeaning(seg: string)
    ensures Dots(seg) == 1 <==> seg == "."
    ensures Dots(seg) == 2 <==> seg == ".."
  {
    if |seg| == 1 { assert seg == [seg[0]]; }
    if |seg| == 2 { assert seg == [seg[0], seg[1]]; }
  }

  lemma DotsStep(seg: string, c: char)
    ensures Dots(seg + [c]) == if c == '.' && Dots(seg) != -1 then Dots(seg) + 1 else -1
  {
    if Dots(seg) == -1 {
      var k :| 0 <= k < |seg| && seg[k] != '.';
      assert (seg + [c])[k] != '.';
    }
    assert (seg + [c])[|seg|] == c;
  }

  /** Where the last segment of a joined stack starts, seen by `lastIndexOf`. */
  lemma LastSlash(st: seq<string>)
    requires st != [] && forall k | 0 <= k < |st| :: st[k] != "" && SlashFree(st[k])
    ensures var r := Join(st); var k := LastIndexOf(r, '/');
            && (|st| == 1 ==> k == -1)
            && (|st| > 1 ==> k >= 0 && r[..k] == Join(st[..|st| - 1]))
            && |r| - 1 - k == |st[|st| - 1]|
  {
    var n := |st| - 1;
    var r := Join(st);
    var k := LastIndexOf(r, '/');
    if n > 0 {
      var m := |Join(st[..n])|;
      assert r[m] == '/';
      assert forall j | m < j < |r| :: r[j] == st[n][j - m - 1];
      assert r[..m] == Join(st[..n]);
    }
  }

  function LastLength(st: seq<string>): nat {
    if st == [] then 0 else |st[|st| - 1]|
  }

  lemma TailChars(res: string, last: string)
    requires |res| >= |last| && res[|res| - |last|..] == last
    ensures |last| == 2 ==> (last == ".." <==> res[|res| - 1] == '.' && res[|res| - 2] == '.')
    ensures |last| != 2 ==> last != ".."
  {
    assert forall k | 0 <= k < |last| :: res[|res| - |last| + k] == last[k];
    if |last| == 2 {
      assert last == [last[0], last[1]];
    }
  }

  /** What the source's test on `res` and `lastSegmentLength` decides. */
  lemma EndsInDotDot(st: seq<string>, res: string)
    requires res == Join(st) && forall k | 0 <= k < |st| :: st[k] != "" && SlashFree(st[k])
    ensures (|res| < 2 || LastLength(st) != 2 || res[|res| - 1] != '.' || res[|res| - 2] != '.')
              <==> (st == [] || st[|st| - 1] != "..")
  {
    if st != [] {
      JoinEnds(st);
      hide Join;
      var last := st[|st| - 1];
      TailChars(res, last);
    }
  }

  /** The stack after one more ended segment. */
  lemma EndOne(before: seq<string>, seg: string, above: bool)
    requires AllSlashFree(before) && SlashFree(seg) && Normal(Fold([], before, above), above)
    ensures AllSlashFree(before + [seg])
    ensures Fold([], before + [seg], above) == Push(Fold([], before, above), seg, above)
    ensures Normal(Fold([], before + [seg], above), above)
  {
    assert (before + [seg])[..|before|] == before;
    FoldIsNormal([], before + [seg], above);
  }

  /** What the scanning variables hold at index i: `before` are the ended
      segments and the current one began after lastSlash. */
  ghost predicate Scanning(path: string, i: nat, lastSlash: int, before: seq<string>, dots: int, code: char) {
    && -1 <= lastSlash < i <= |path|
    && Split(path[..i]) == before + [Sub(path, lastSlash + 1, i)]
    && dots == Dots(Sub(path, lastSlash + 1, i))
    && code == if i == 0 then '\0' else path[i - 1]
  }

  /** What the output variables hold once `before` has ended. */
  ghost predicate Building(before: seq<string>, above: bool, res: string, lastSegmentLength: int) {
    var st := Fold([], before, above);
    AllSlashFree(before) && Normal(st, above) && res == Join(st) && lastSegmentLength == LastLength(st)
  }

  /** Removing the last segment of the text (lines 78-98). */
  method PopText(res0: string, ghost st: seq<string>, ghost above: bool) returns (res: string, lastSegmentLength: int)
    requires st != [] && Normal(st, above) && res0 == Join(st)
    ensures res == Join(st[..|st| - 1]) && lastSegmentLength == LastLength(st[..|st| - 1])
  {
    ghost var rest := st[..|st| - 1];
    PopFacts(st);
    hide Join, LastIndexOf;
    res, lastSegmentLength := "", 0;
    if |res0| > 2 {
      var lastSlashIndex := LastIndexOf(res0, '/');
      // lastSlashIndex is never the last index: no segment is empty.
      if lastSlashIndex != -1 {
        res := res0[..lastSlashIndex];
        lastSegmentLength := |res| - 1 - LastIndexOf(res, '/');
      }
    }
  }

  lemma PopFacts(st: seq<string>)
    requires st != [] && forall k | 0 <= k < |st| :: st[k] != "" && SlashFree(st[k])
    ensures var r := Join(st); var k := LastIndexOf(r, '/'); var rest := st[..|st| - 1];
            && k != |r| - 1
            && (k == -1 || |r| <= 2 ==> rest == [])
            && (k != -1 ==> rest != [] && r[..k] == Join(rest)
                            && |Join(rest)| - 1 - LastIndexOf(Join(rest), '/') == LastLength(rest))
            && (rest == [] ==> Join(rest) == "" && LastLength(rest) == 0)
  {
    LastSlash(st);
    JoinEnds(st);
    if |st| > 1 {
      LastSlash(st[..|st| - 1]);
    }
  }

  /** The effect on `res` of meeting the end of segment `seg`
      (lines 72-113, the body of the separator branch). */
  method EndSegment(seg: string, dots: int, allowAboveRoot: bool, res0: string, len0: int,
                    ghost before: seq<string>)
    returns (res: string, lastSegmentLength: int)
    requires Building(before, allowAboveRoot, res0, len0)
    requires dots == Dots(seg) && SlashFree(seg)
    ensures Building(before + [seg], allowAboveRoot, res, lastSegmentLength)
  {
    ghost var st := Fold([], before, allowAboveRoot);
    EndOne(before, seg, allowAboveRoot);
    hide Fold, Join, LastIndexOf;
    res, lastSegmentLength := res0, len0;
    DotsMeaning(seg);
    NormalJoin(st, allowAboveRoot);
    ghost var st' := Push(st, seg, allowAboveRoot);
    if seg == "" || dots == 1 {
      return;
    }
    if dots == 2 {
      EndsInDotDot(st, res);
      if |res| < 2 || lastSegmentLength != 2 || res[|res| - 1] != '.' || res[|res| - 2] != '.' {
        if |res| > 0 {
          res, lastSegmentLength := PopText(res, st, allowAboveRoot);
          return;
        }
      }
      if allowAboveRoot {
        JoinSnoc(st, "..");
        res := if |res| > 0 then res + "/" + ".." else "..";
        lastSegmentLength := 2;
      }
    } else {
      JoinSnoc(st, seg);
      res := if |res| > 0 then res + "/" + seg else seg;
      lastSegmentLength := |seg|;
    }
  }

  lemma PushEmpty(st: seq<string>, a: seq<string>, above: bool)
    ensures Fold(st, a + [""], above) == Fold(st, a, above)
  {
    assert (a + [""])[..|a|] == a;
  }

  /** Reading one more character. */
  lemma ReadOne(path: string, i: int, lastSlash: int, before: seq<string>, dots: int, code: char)
    requires 0 <= i < |path| && Scanning(path, i, lastSlash, before, dots, code)
    ensures SlashFree(Sub(path, lastSlash + 1, i)) && dots == Dots(Sub(path, lastSlash + 1, i))
    ensures path[i] == '/' ==> Scanning(path, i + 1, i, before + [Sub(path, lastSlash + 1, i)], 0, '/')
    ensures path[i] != '/' ==>
              Scanning(path, i + 1, lastSlash, before, if path[i] == '.' && dots != -1 then dots + 1 else -1, path[i])
  {
    var seg := Sub(path, lastSlash + 1, i);
    var c := path[i];
    SubSnoc(path, lastSlash + 1, i);
    SubSnoc(path, i, i);
    hide Split, Sub;
    SplitParts(path[..i]);
    assert SlashFree(Split(path[..i])[|before|]);
    SplitSnoc(path[..i], c);
    DotsStep(seg, c);
    assert path[..i + 1] == path[..i] + [c];
    if c == '/' {
      assert Sub(path, i + 1, i + 1) == "";
    } else {
      ExtendLast(before, seg, c);
    }
  }

  lemma ExtendLast(before: seq<string>, seg: string, c: char)
    ensures Extend(before + [seg], c) == before + [seg + [c]]
  {}

  /** When the whole path has been read. */
  lemma AtEnd(path: string, lastSlash: int, before: seq<string>, dots: int, code: char, above: bool)
    requires Scanning(path, |path|, lastSlash, before, dots, code)
    ensures var seg := Sub(path, lastSlash + 1, |path|);
            && Split(path) == before + [seg] && SlashFree(seg) && dots == Dots(seg)
            && (code == '/' ==> Fold([], Split(path), above) == Fold([], before, above))
  {
    var seg := Sub(path, lastSlash + 1, |path|);
    hide Split, Fold, Sub;
    assert path[..|path|] == path;
    SplitParts(path);
    assert SlashFree(Split(path)[|before|]);
    assert seg != "" ==> seg[|seg| - 1] == path[|path| - 1];
    PushEmpty([], before, above);
  }

  /** The single-pass builder equals "split, run the stack machine, join". */
  method NormalizeString(path: string, allowAboveRoot: bool) returns (res: string)
    ensures res == Join(Fold([], Split(path), allowAboveRoot))
  {
    res := "";
    var lastSegmentLength, lastSlash, dots := 0, -1, 0;
    var code := '\0';  // undefined before the first character
    ghost var before: seq<string> := [];  // the segments that have ended
    var i := 0;
    AtStart(path, allowAboveRoot);
    hide *;
    while i <= |path|
      invariant 0 <= i <= |path| + 1 && -1 <= lastSlash < i
      invariant i <= |path| ==> Scanning(path, i, lastSlash, before, dots, code)
      invariant i == |path| + 1 ==> before == Split(path)
      invariant Building(before, allowAboveRoot, res, lastSegmentLength)
    {
      if i < |path| {
        ReadOne(path, i, lastSlash, before, dots, code);
        code := path[i];
      } else {
        AtEnd(path, lastSlash, before, dots, code, allowAboveRoot);
        if code == '/' {
          break;
        }
        code := '/';
      }
      if code == '/' {
        res, lastSegmentLength :=
          EndSegment(Sub(path, lastSlash + 1, i), dots, allowAboveRoot, res, lastSegmentLength, before);
        before := before + [Sub(path, lastSlash + 1, i)];
        lastSlash := i;
        dots := 0;
      } else {
        dots := if code == '.' && dots != -1 then dots + 1 else -1;
      }
      i := i + 1;
    }
    Built(before, allowAboveRoot, res, lastSegmentLength);
  }

  lemma Built(before: seq<string>, above: bool, res: string, lastSegmentLength: int)
    requires Building(before, above, res, lastSegmentLength)
    ensures res == Join(Fold([], before, above))
  {}

  lemma AtStart(path: string, above: bool)
    ensures Scanning(path, 0, -1, [], 0, '\0') && Building([], above, "", 0)
  {
    assert path[..0] == "" && Sub(path, 0, 0) == "" && Dots("") == 0;
  }

  // ---- posix.resolve ------------------------------------------------------

  predicate IsAbsolute(p: string) { p != "" && p[0] == '/' }

  /** The arguments that matter: the shortest suffix starting at an absolute
      path, or all of them. */
  function Relevant(paths: seq<string>): seq<string> {
    if paths == [] then []
    else if IsAbsolute(paths[|paths| - 1]) then [paths[|paths| - 1]]
    else Relevant(paths[..|paths| - 1]) + [paths[|paths| - 1]]
  }

  /** The segments of a list of paths; an empty path has none. */
  function AllSegments(paths: seq<string>): seq<string> {
    if paths == [] then []
    else AllSegments(paths[..|paths| - 1]) + SegmentsOf(paths[|paths| - 1])
  }

  function SegmentsOf(path: string): seq<string> { if path == "" then [] else Split(path) }

  lemma {:induction false} AllSegmentsParts(paths: seq<string>)
    ensures AllSlashFree(AllSegments(paths))
  {
    if paths != [] {
      AllSegmentsParts(paths[..|paths| - 1]);
      SplitParts(paths[|paths| - 1]);
    }
  }

  /** Whether some path of the list is absolute. */
  predicate SomeAbsolute(paths: seq<string>) { exists k | 0 <= k < |paths| :: IsAbsolute(paths[k]) }

  function ResolveSegments(paths: seq<string>): seq<string> {
    Fold([], AllSegments(Relevant(paths)), !SomeAbsolute(paths))
  }

  function ResolveSpec(paths: seq<string>): string {
    var st := ResolveSegments(paths);
    if SomeAbsolute(paths) then "/" + Join(st)
    else if st == [] then "." else Join(st)
  }

  lemma {:induction false} AllSegmentsCons(p: string, paths: seq<string>)
    ensures AllSegments([p] + paths) == SegmentsOf(p) + AllSegments(paths)
  {
    hide SegmentsOf;
    var all := [p] + paths;
    if paths == [] {
      assert all[..0] == [];
      assert AllSegments(all) == AllSegments([]) + SegmentsOf(p);
    } else {
      var n := |paths| - 1;
      assert all[..1 + n] == [p] + paths[..n];
      AllSegmentsCons(p, paths[..n]);
    }
  }

  lemma {:induction false} RelevantSuffix(paths: seq<string>, k: int)
    requires 0 <= k <= |paths| && forall j | k <= j < |paths| :: !IsAbsolute(paths[j])
    ensures Relevant(paths) == Relevant(paths[..k]) + Rest(paths, k)
  {
    if k < |paths| {
      var n := |paths| - 1;
      RelevantSuffix(paths[..n], k);
      assert paths[..n][..k] == paths[..k];
      assert Rest(paths[..n], k) + [paths[n]] == Rest(paths, k);
    } else {
      assert paths[..k] == paths;
      RestWhole(paths);
    }
  }

  lemma RelevantFirst(paths: seq<string>, k: int)
    requires 0 <= k < |paths| && IsAbsolute(paths[k])
    ensures Relevant(paths[..k + 1]) == [paths[k]]
  {
    var q := paths[..k + 1];
    assert q[|q| - 1] == paths[k];
  }

  lemma RelevantNone()
    ensures Relevant([]) == []
  {}

  /** Where the gathering loop stops. */
  lemma RelevantFrom(paths: seq<string>, k: int, abs: bool)
    requires 0 <= k <= |paths| && (abs ==> k < |paths| && IsAbsolute(paths[k])) && (!abs ==> k == 0)
    requires forall j | k <= j < |paths| :: (j == k && abs) || !IsAbsolute(paths[j])
    ensures Relevant(paths) == Rest(paths, k) && abs == SomeAbsolute(paths)
  {
    hide Relevant, Rest, IsAbsolute;
    if abs {
      RelevantFirst(paths, k);
      RelevantSuffix(paths, k + 1);
      RestCons(paths, k);
    } else {
      assert paths[..0] == [];
      RelevantNone();
      RelevantSuffix(paths, 0);
    }
  }

  lemma ResolvedText(paths: seq<string>)
    ensures Normal(ResolveSegments(paths), !SomeAbsolute(paths))
    ensures Join(ResolveSegments(paths)) == "" <==> ResolveSegments(paths) == []
  {
    AllSegmentsParts(Relevant(paths));
    FoldIsNormal([], AllSegments(Relevant(paths)), !SomeAbsolute(paths));
    NormalJoin(ResolveSegments(paths), !SomeAbsolute(paths));
  }

  /** What the gathering loop of posix.resolve holds once paths[i..] are read. */
  ghost predicate Gathered(paths: seq<string>, i: int, resolvedPath: string, resolvedAbsolute: bool) {
    && 0 <= i <= |paths|
    && (forall j | i <= j < |paths| :: (j == i && resolvedAbsolute) || !IsAbsolute(paths[j]))
    && (resolvedAbsolute ==> i < |paths| && IsAbsolute(paths[i]))
    && Split(resolvedPath) == AllSegments(Rest(paths, i)) + [""]
  }

  lemma GatherOne(paths: seq<string>, i: int, rest: string)
    requires 0 <= i < |paths| && Gathered(paths, i + 1, rest, false)
    ensures paths[i] == "" ==> Gathered(paths, i, rest, false)
    ensures paths[i] != "" ==> Gathered(paths, i, paths[i] + "/" + rest, paths[i][0] == '/')
  {
    var p, tail := paths[i], AllSegments(Rest(paths, i + 1));
    RestCons(paths, i);
    hide Split, AllSegments, Rest;
    AllSegmentsCons(p, Rest(paths, i + 1));
    if p == "" {
      assert [] + tail == tail;
    } else {
      SplitConcat(p, rest);
      Regroup(Split(p), tail);
    }
  }

  lemma Regroup(a: seq<string>, b: seq<string>)
    ensures a + (b + [""]) == a + b + [""]
  {}

  lemma GatherNone(paths: seq<string>)
    ensures Gathered(paths, |paths|, "", false)
  {
    RestWhole(paths);
  }

  /** The loop of posix.resolve, from the last argument back to the current
      directory, which stands at index 0 (the source's index -1). */
  method Gather(paths: seq<string>) returns (resolvedPath: string, resolvedAbsolute: bool, ghost k: int)
    ensures 0 <= k <= |paths| && Relevant(paths) == Rest(paths, k) && resolvedAbsolute == SomeAbsolute(paths)
    ensures Split(resolvedPath) == AllSegments(Rest(paths, k)) + [""]
  {
    resolvedPath, resolvedAbsolute := "", false;
    GatherNone(paths);
    var i := |paths|;
    hide *;
    while i > 0 && !resolvedAbsolute
      invariant 0 <= i <= |paths| && Gathered(paths, i, resolvedPath, resolvedAbsolute)
      decreases i
    {
      i := i - 1;
      GatherOne(paths, i, resolvedPath);
      if |paths[i]| > 0 {
        resolvedPath := paths[i] + "/" + resolvedPath;
        resolvedAbsolute := paths[i][0] == '/';
      }
    }
    k := i;
    GatheredAll(paths, k, resolvedPath, resolvedAbsolute);
  }

  lemma GatheredAll(paths: seq<string>, k: int, resolvedPath: string, resolvedAbsolute: bool)
    requires Gathered(paths, k, resolvedPath, resolvedAbsolute) && (!resolvedAbsolute ==> k == 0)
    ensures Relevant(paths) == Rest(paths, k) && resolvedAbsolute == SomeAbsolute(paths)
    ensures Split(resolvedPath) == AllSegments(Rest(paths, k)) + [""]
  {
    hide Split, AllSegments, Rest, Relevant;
    RelevantFrom(paths, k, resolvedAbsolute);
  }

  /** posix.resolve(args...) with the given current directory. */
  method Resolve(args: seq<string>, cwd: string) returns (r: string)
    ensures r == ResolveSpec([cwd] + args)
  {
    hide Split, Fold, Join, AllSegments, Relevant, Rest;
    ghost var paths := [cwd] + args;
    var gathered, resolvedAbsolute, k := Gather([cwd] + args);
    PushEmpty([], AllSegments(Rest(paths, k)), !resolvedAbsolute);
    var resolvedPath := NormalizeString(gathered, !resolvedAbsolute);
    ResolvedText(paths);
    if resolvedAbsolute {
      r := if |resolvedPath| > 0 then "/" + resolvedPath else "/";
    } else if |resolvedPath| > 0 {
      r := resolvedPath;
    } else {
      r := ".";
    }
  }

  // ---- posix.normalize and posix.join --------------------------------------

  /** A stack written out: a leading slash when absolute, "." when it is empty
      and relative, and a closing slash when there was one. */
  function Shown(st: seq<string>, abs: bool, trailing: bool): string {
    if st == [] then (if abs then "/" else if trailing then "./" else ".")
    else
      var p := if trailing then Join(st) + "/" else Join(st);
      if abs then "/" + p else p
  }

  function NormalizeSpec(path: string): string {
    if path == "" then "."
    else
      var abs := path[0] == '/';
      Shown(Fold([], Split(path), !abs), abs, path[|path| - 1] == '/')
  }

  method Normalize(path0: string) returns (r: string)
    ensures r == NormalizeSpec(path0)
  {
    if |path0| == 0 {
      r := ".";
      return;
    }
    var isAbsolute := path0[0] == '/';
    var trailingSeparator := path0[|path0| - 1] == '/';
    NormalSplit(path0, !isAbsolute);
    hide Split, Fold, Join;
    var path := NormalizeString(path0, !isAbsolute);
    r := Show(path, isAbsolute, trailingSeparator, Fold([], Split(path0), !isAbsolute));
  }

  /** The assembly of the normalized text (lines 1134-1141). */
  method Show(path0: string, isAbsolute: bool, trailingSeparator: bool, ghost st: seq<string>) returns (r: string)
    requires path0 == Join(st) && (path0 == "" <==> st == [])
    ensures r == Shown(st, isAbsolute, trailingSeparator)
  {
    hide Join;
    var path := path0;
    if |path| == 0 && !isAbsolute {
      path := ".";
    }
    assert "." + "/" == "./";
    if |path| > 0 && trailingSeparator {
      path := path + "/";
    }
    assert path == "" ==> "/" + path == "/";
    r := if isAbsolute then "/" + path else path;
  }

  lemma TrailingSlash(body: string, above: bool)
    ensures Fold([], Split(body + "/"), above) == Fold([], Split(body), above)
  {
    assert body + "/" == body + ['/'];
    SplitSnoc(body, '/');
    PushEmpty([], Split(body), above);
  }

  lemma LeadingSlash(body: string, above: bool)
    ensures Fold([], Split("/" + body), above) == Fold([], Split(body), above)
  {
    SplitConcat("", body);
    assert "" + "/" + body == "/" + body;
    FoldConcat([], [""], Split(body), above);
    PushEmpty([], [], above);
    assert [] + [""] == [""];
  }

  lemma FoldDot(above: bool)
    ensures Fold([], Split("."), above) == []
  {
    SplitSlashFree(".");
    assert Fold([], ["."][..0], above) == [];
  }

  lemma ShownEmpty(abs: bool, trailing: bool)
    ensures Fold([], Split(Shown([], abs, trailing)), !abs) == []
  {
    if abs {
      TrailingSlash("", !abs);
      assert Split("") == [""] == [] + [""];
      PushEmpty([], [], !abs);
    } else {
      FoldDot(!abs);
      TrailingSlash(".", !abs);
    }
  }

  /** Every text of that shape has exactly the segments it shows. */
  lemma ShownSegments(st: seq<string>, abs: bool, trailing: bool)
    requires Normal(st, !abs)
    ensures Fold([], Split(Shown(st, abs, trailing)), !abs) == st
  {
    if st == [] {
      ShownEmpty(abs, trailing);
    } else {
      var p := if trailing then Join(st) + "/" else Join(st);
      NormalJoin(st, !abs);
      FoldNormal(st, !abs);
      TrailingSlash(Join(st), !abs);
      LeadingSlash(p, !abs);
    }
  }

  lemma ShownEnds(st: seq<string>, abs: bool, trailing: bool)
    requires Normal(st, !abs)
    ensures var p := Shown(st, abs, trailing);
            && p != "" && (p[0] == '/' <==> abs)
            && (st != [] || !abs ==> (p[|p| - 1] == '/' <==> trailing))
  {
    NormalJoin(st, !abs);
    hide Join;
  }

  lemma NormalSplit(path: string, above: bool)
    ensures var st := Fold([], Split(path), above);
            Normal(st, above) && (Join(st) == "" <==> st == [])
  {
    SplitParts(path);
    FoldIsNormal([], Split(path), above);
    hide Split, Fold, Join;
    NormalJoin(Fold([], Split(path), above), above);
  }

  lemma NormalizeIdempotent(path: string)
    ensures NormalizeSpec(NormalizeSpec(path)) == NormalizeSpec(path)
  {
    if path == "" {
      FoldDot(true);
      assert NormalizeSpec(".") == Shown([], false, false);
    } else {
      var abs, trailing := path[0] == '/', path[|path| - 1] == '/';
      NormalSplit(path, !abs);
      hide Split, Fold, Join;
      var st := Fold([], Split(path), !abs);
      ShownSegments(st, abs, trailing);
      ShownEnds(st, abs, trailing);
      RootShown(trailing);
    }
  }

  lemma RootShown(trailing: bool)
    ensures Shown([], true, trailing) == Shown([], true, !trailing)
  {}

  // ---- what normalize does, without the stack machine ----------------------------------

  lemma CancelSegments(a: string, x: string, b: string)
    requires SlashFree(x)
    ensures Split(a + "/" + x + "/../" + b) == Split(a) + [x, ".."] + Split(b)
    ensures Split(a + "/" + x + "/" + b) == Split(a) + [x] + Split(b)
    ensures Split(a + "/" + b) == Split(a) + Split(b)
  {
    SplitSlashFree(x);
    SplitSlashFree("..");
    hide Split;
    var u := a + "/" + x;
    assert u + "/../" == u + "/" + ".." + "/";
    SplitConcat(a, x);
    SplitConcat(u, "..");
    SplitConcat(u + "/" + "..", b);
    SplitConcat(u, b);
    SplitConcat(a, b);
    assert Split(a) + [x] + [".."] == Split(a) + [x, ".."];
  }

  /** Paths with the same ends and the same stack look the same. */
  lemma SameNormal(p: string, q: string)
    requires p != "" && q != "" && p[0] == q[0] && (p[|p| - 1] == '/' <==> q[|q| - 1] == '/')
    requires forall above: bool :: Fold([], Split(p), above) == Fold([], Split(q), above)
    ensures NormalizeSpec(p) == NormalizeSpec(q)
  {
    hide Fold, Split, Shown;
  }

  lemma SameEnds(a: string, m: string, b: string)
    ensures var p, q := a + "/" + m + "/" + b, a + "/" + b;
            p != "" && q != "" && p[0] == q[0] && (p[|p| - 1] == '/' <==> q[|q| - 1] == '/')
  {}

  /** A name and the ".." behind it cancel, in any path. */
  lemma NormalizeCancels(a: string, x: string, b: string)
    requires Plain(x)
    ensures NormalizeSpec(a + "/" + x + "/../" + b) == NormalizeSpec(a + "/" + b)
  {
    hide Fold, Split, NormalizeSpec;
    var p, q := a + "/" + x + "/../" + b, a + "/" + b;
    assert SlashFree(x);
    CancelSegments(a, x, b);
    forall above: bool ensures Fold([], Split(p), above) == Fold([], Split(q), above) {
      FoldCancels([], Split(a), x, Split(b), above);
    }
    assert p == a + "/" + (x + "/..") + "/" + b;
    SameEnds(a, x + "/..", b);
    SameNormal(p, q);
  }

  /** A slash behind a slash, and "./" behind a slash, change nothing. */
  lemma NormalizeSkips(a: string, x: string, b: string)
    requires x == "" || x == "."
    ensures NormalizeSpec(a + "/" + x + "/" + b) == NormalizeSpec(a + "/" + b)
  {
    hide Fold, Split, NormalizeSpec;
    var p, q := a + "/" + x + "/" + b, a + "/" + b;
    CancelSegments(a, x, b);
    forall above: bool ensures Fold([], Split(p), above) == Fold([], Split(q), above) {
      FoldSkips([], Split(a), x, Split(b), above);
    }
    SameEnds(a, x, b);
    SameNormal(p, q);
  }

  /** Names and then ".." segments, in a relative path: what is left of the names, or
      the ".." segments that are too much. */
  lemma NormalizeUps(names: seq<string>, n: nat)
    requires AllPlain(names) && names != []
    ensures NormalizeSpec(Join(names + Repeat("..", n))) ==
            if n < |names| then Join(names[..|names| - n])
            else if n == |names| then "."
            else Join(Repeat("..", n - |names|))
  {
    hide Fold, Split, Join, NormalizeSpec, Repeat;
    var segs := names + Repeat("..", n);
    NamesAndUps(names, n);
    SplitJoin(segs);
    JoinEnds(segs);
    NormalizeRelative(Join(segs));
    FoldConcat([], names, Repeat("..", n), true);
    FoldPlain([], names, true);
    FoldUps(names, n, true);
    assert [] + names == names;
    assert n == |names| ==> names[..0] == [];
  }

  lemma NamesAndUps(names: seq<string>, n: nat)
    requires AllPlain(names) && names != []
    ensures var segs := names + Repeat("..", n);
            segs != [] && AllSlashFree(segs) && forall k | 0 <= k < |segs| :: segs[k] != "" && SlashFree(segs[k])
  {}

  lemma NormalizeRelative(path: string)
    requires path != "" && path[0] != '/' && path[|path| - 1] != '/'
    ensures var st := Fold([], Split(path), true); NormalizeSpec(path) == if st == [] then "." else Join(st)
  {
    hide Fold, Split, Join;
  }

  /** normalize keeps a path absolute or relative, and keeps its closing slash. */
  lemma NormalizeEnds(path: string)
    requires path != ""
    ensures var r := NormalizeSpec(path);
            && r != "" && (r[0] == '/' <==> path[0] == '/')
            && (r != "/" ==> (r[|r| - 1] == '/' <==> path[|path| - 1] == '/'))
  {
    NormalSplit(path, path[0] != '/');
    hide Split, Fold;
    ShownEnds(Fold([], Split(path), path[0] != '/'), path[0] == '/', path[|path| - 1] == '/');
  }

  /** The current directory matters exactly if no argument is absolute. */
  lemma ResolveIgnoresCwd(args: seq<string>, cwd: string, other: string)
    requires SomeAbsolute(args)
    ensures ResolveSpec([cwd] + args) == ResolveSpec([other] + args)
  {
    var k :| 0 <= k < |args| && IsAbsolute(args[k]);
    RelevantCons(cwd, args);
    RelevantCons(other, args);
    assert IsAbsolute(([cwd] + args)[k + 1]) && IsAbsolute(([other] + args)[k + 1]);
  }

  lemma {:induction false} RelevantCons(p: string, args: seq<string>)
    ensures SomeAbsolute(args) ==> Relevant([p] + args) == Relevant(args)
    ensures !SomeAbsolute(args) ==> Relevant([p] + args) == [p] + args
  {
    var all := [p] + args;
    if args == [] {
      assert all[..0] == [] && Relevant(all[..0]) == [];
      assert Relevant([p]) == [p];
    } else {
      var n := |args| - 1;
      assert all[..|all| - 1] == [p] + args[..n];
      RelevantCons(p, args[..n]);
      if SomeAbsolute(args) && !IsAbsolute(args[n]) {
        var k :| 0 <= k < |args| && IsAbsolute(args[k]);
        assert args[..n][k] == args[k];
      }
      if !SomeAbsolute(args) {
        assert forall k | 0 <= k < n :: args[..n][k] == args[k];
      }
    }
  }

  /** Without an absolute argument, the result is that of the directory and the
      arguments joined by slashes; so another directory gives another result. */
  lemma ResolveUsesCwd(st: seq<string>, names: seq<string>)
    requires Normal(st, false) && AllPlain(names)
    ensures ResolveSpec(["/" + Join(st), Join(names)]) == "/" + Join(st + names)
  {
    hide Join, Split, Fold, Relevant, AllSegments, Shown;
    var cwd, arg := "/" + Join(st), Join(names);
    RootText(st);
    NamesText(names);
    assert [cwd] + [arg] == [cwd, arg];
    assert IsAbsolute([cwd, arg][0]) && !SomeAbsolute([arg]);
    RelevantCons(cwd, [arg]);
    TwoSegments(cwd, arg);
    FoldConcat([], Split(cwd), names, false);
    FoldPlain(st, names, false);
  }

  lemma RootText(st: seq<string>)
    requires Normal(st, false)
    ensures Fold([], Split("/" + Join(st)), false) == st
  {
    ShownSegments(st, true, false);
    assert st == [] ==> "/" + Join(st) == "/";
  }

  lemma NamesText(names: seq<string>)
    requires AllPlain(names)
    ensures SegmentsOf(Join(names)) == names && !IsAbsolute(Join(names))
  {
    if names != [] {
      JoinEnds(names);
      SplitJoin(names);
    }
  }

  lemma TwoSegments(p: string, q: string)
    ensures AllSegments([p, q]) == SegmentsOf(p) + SegmentsOf(q)
  {
    assert [p, q][..1] == [p] && [p][..0] == [];
    assert AllSegments([]) == [];
    assert AllSegments([p]) == SegmentsOf(p);
  }

  function JoinPaths(paths: seq<string>): string {
    if paths == [] then "" else
      var n := |paths| - 1;
      var r := JoinPaths(paths[..n]);
      if paths[n] == "" then r else if r == "" then paths[n] else r + "/" + paths[n]
  }

  /** posix.join; an empty accumulator stands for the source's `undefined`, which
      is the same thing because only non-empty arguments are ever stored. */
  method JoinAll(args: seq<string>) returns (r: string)
    ensures r == NormalizeSpec(JoinPaths(args))
  {
    var joined := "";
    for i := 0 to |args|
      invariant joined == JoinPaths(args[..i])
    {
      assert args[..i + 1][..i] == args[..i];
      if |args[i]| > 0 {
        joined := if joined == "" then args[i] else joined + "/" + args[i];
      }
    }
    assert args[..|args|] == args;
    if joined == "" { return "."; }
    r := Normalize(joined);
  }

  function NonEmpty(paths: seq<string>): seq<string> {
    if paths == [] then []
    else NonEmpty(paths[..|paths| - 1]) + if paths[|paths| - 1] == "" then [] else [paths[|paths| - 1]]
  }

  /** What is normalized is the arguments that are not empty, with slashes between. */
  lemma {:induction false} JoinIsJoin(paths: seq<string>)
    ensures JoinPaths(paths) == Join(NonEmpty(paths))
    ensures NonEmpty(paths) != [] ==> Join(NonEmpty(paths)) != ""
  {
    if paths != [] {
      var n := |paths| - 1;
      var a := NonEmpty(paths[..n]);
      JoinIsJoin(paths[..n]);
      if paths[n] == "" {
        assert a + [] == a;
      } else {
        JoinSnoc(a, paths[n]);
      }
    }
  }

  /** Joining relative to nothing but names: join keeps every segment of every
      argument, in order, and lets the stack machine see them all. */
  lemma {:induction false} JoinKeepsSegments(paths: seq<string>, above: bool)
    ensures Fold([], Split(JoinPaths(paths)), above) == Fold([], AllSegments(paths), above)
  {
    if paths == [] {
      PushEmpty([], [], above);
      assert [] + [""] == [""];
    } else {
      var n := |paths| - 1;
      var r := JoinPaths(paths[..n]);
      JoinKeepsSegments(paths[..n], above);
      assert AllSegments(paths) == AllSegments(paths[..n]) + SegmentsOf(paths[n]);
      if paths[n] == "" {
        assert AllSegments(paths) == AllSegments(paths[..n]);
      } else {
        FoldConcat([], AllSegments(paths[..n]), Split(paths[n]), above);
        if r == "" {
          PushEmpty([], [], above);
          assert [] + [""] == [""];
        } else {
          SplitConcat(r, paths[n]);
          FoldConcat([], Split(r), Split(paths[n]), above);
        }
      }
    }
  }

  /** An absolute path in normal form is its own resolution. */
  lemma ResolveNormalForm(st: seq<string>, cwd: string)
    requires Normal(st, false)
    ensures ResolveSpec([cwd, "/" + Join(st)]) == "/" + Join(st)
  {
    var p := "/" + Join(st);
    var paths := [cwd, p];
    assert IsAbsolute(paths[1]);
    assert Relevant(paths) == [p];
    assert AllSegments([p]) == AllSegments([p][..0]) + Split(p) == Split(p);
    ShownSegments(st, true, false);
    assert st == [] ==> p == "/";
  }
}
