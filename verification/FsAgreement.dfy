/** What low_fs_resolve's result looks like, and that it agrees with posix.resolve of
    lib_js/path.js. */
module FsAgreement {
  import opened Options
  import opened Segments
  import opened Slices
  import opened PosixPath
  import opened FsResolve

  /** The segment that stays open at the end, "" when the text ends in a slash. */
  function OpenEnd(add: string): string { if Plain(Last(add)) then Last(add) else "" }

  function FinalDir(base: string, add: string): seq<string>
    requires ResolvedPath(base, add).Some?
  {
    var d := Origin(base, add).value;
    StrictFold(d, if Plain(Last(add)) then Init(add) else Split(add)).value
  }

  lemma {:induction false} SplitDirs(st: seq<string>, p: string)
    requires AllPlain(st) && SlashFree(p)
    ensures Split(Dirs(st) + p) == [""] + st + [p]
  {
    SplitSlashFree(p);
    SplitSlashFree("");
    hide Split;
    if st == [] {
      SplitConcat("", p);
      assert "/" + p == "" + "/" + p;
      assert [""] + [] + [p] == [""] + [p];
    } else {
      var n := |st| - 1;
      var t := Dirs(st[..n]) + st[n];
      SplitDirs(st[..n], st[n]);
      SplitConcat(t, p);
      assert Dirs(st) + p == t + "/" + p;
      assert [""] + st[..n] + [st[n]] == [""] + st;
    }
  }

  /** The result is a root slash, plain segments and at most one closing slash:
      no "//", no "." and no ".." segment. */
  lemma NormalForm(base: string, add: string)
    requires ResolvedPath(base, add).Some?
    ensures var st := FinalDir(base, add);
            && AllPlain(st)
            && ResolvedPath(base, add).value == Dirs(st) + OpenEnd(add)
            && Split(ResolvedPath(base, add).value) == [""] + st + [OpenEnd(add)]
  {
    WalkDir(base);
    SplitLast(add);
    SplitParts(add);
    var d := Origin(base, add).value;
    var st := FinalDir(base, add);
    hide Split, StrictFold, Dirs;
    assert AllPlain(d);
    StrictPlain(d, if Plain(Last(add)) then Init(add) else Split(add));
    assert Dirs(st) + "" == Dirs(st);
    SplitDirs(st, OpenEnd(add));
  }

  function WithoutSlash(t: string): string {
    if |t| > 1 && t[|t| - 1] == '/' then t[..|t| - 1] else t
  }

  lemma {:induction false} DirsJoin(st: seq<string>, p: string)
    ensures Dirs(st) + p == "/" + Join(st + [p])
  {
    assert (st + [p])[..|st|] == st;
    if st == [] {
      assert [] + [p] == [p];
    } else {
      var n := |st| - 1;
      DirsJoin(st[..n], st[n]);
      assert st == st[..n] + [st[n]];
      var j := Join(st);
      assert Dirs(st) + p == "/" + j + "/" + p;
      assert "/" + j + "/" + p == "/" + (j + "/" + p);
    }
  }

  lemma ShownRoot()
    ensures Dirs([]) == "/" && WithoutSlash("/") == "/" == "/" + Join([])
  {}

  lemma ShownDirectory(st: seq<string>)
    requires AllPlain(st) && st != []
    ensures WithoutSlash(Dirs(st)) == "/" + Join(st)
  {
    var n := |st| - 1;
    var t := Dirs(st[..n]) + st[n];
    DirsJoin(st[..n], st[n]);
    assert Dirs(st) == t + "/";
    assert st == st[..n] + [st[n]];
    hide Dirs, Join;
    assert (t + "/")[..|t|] == t;
    assert |t| > 0;
  }

  lemma ShownWithoutSlash(st: seq<string>, p: string)
    requires AllPlain(st) && (p == "" || Plain(p))
    ensures WithoutSlash(Dirs(st) + p) == "/" + Join(if p == "" then st else st + [p])
  {
    if p == "" {
      assert Dirs(st) + "" == Dirs(st);
      ShownRoot();
      if st != [] { ShownDirectory(st); }
    } else {
      hide Dirs, Join;
      DirsJoin(st, p);
      var t := Dirs(st) + p;
      assert t[|t| - 1] == p[|p| - 1];
    }
  }

  /** The arguments of posix.resolve that describe the same place: the directory
      of base is base itself, or its parent when base ends in a file name. */
  function PosixArguments(base: string, add: string): seq<string> {
    if AbsoluteText(add) then [add]
    else ["/" + base, if Plain(Last(base)) then ".." else "", add]
  }

  /** When it succeeds, low_fs_resolve agrees with posix.resolve up to a trailing slash. */
  lemma AgreesWithResolve(base: string, add: string, cwd: string)
    requires ResolvedPath(base, add).Some?
    ensures ResolveSpec([cwd] + PosixArguments(base, add)) == WithoutSlash(ResolvedPath(base, add).value)
  {
    var d := Origin(base, add).value;
    OriginSegments(base, add, cwd);
    WalkSegments(d, add, base);
    RootedArguments(base, add, cwd);
    NormalForm(base, add);
    OpenEndPlain(add);
    hide *;
    ShownWithoutSlash(FinalDir(base, add), OpenEnd(add));
  }

  lemma OpenEndPlain(add: string)
    ensures OpenEnd(add) == "" || Plain(OpenEnd(add))
  {}

  lemma RootedArguments(base: string, add: string, cwd: string)
    ensures var paths := [cwd] + PosixArguments(base, add);
            ResolveSpec(paths) == "/" + Join(ResolveSegments(paths))
  {
    assert IsAbsolute(([cwd] + PosixArguments(base, add))[1]);
  }

  /** Walking `add` from d ends where the stack machine does. */
  lemma WalkSegments(d: seq<string>, add: string, base: string)
    requires ResolvedPath(base, add).Some? && d == Origin(base, add).value && AllPlain(d)
    ensures var st := FinalDir(base, add); var p := OpenEnd(add);
            Fold(d, SegmentsOf(add), false) == if p == "" then st else st + [p]
  {
    SplitLast(add);
    SplitParts(add);
    if Plain(Last(add)) {
      StrictPlain(d, Init(add));
      FoldConcat(d, Init(add), [Last(add)], false);
      assert Fold(FinalDir(base, add), [Last(add)][..0], false) == FinalDir(base, add);
      assert add != "";
    } else {
      StrictPlain(d, Split(add));
      if add == "" {
        assert Split("") == [""];
        assert StrictFold(d, [""][..0]) == Some(d);
      }
    }
  }

  /** posix.resolve of those arguments walks `add` from the same directory. */
  lemma OriginSegments(base: string, add: string, cwd: string)
    requires ResolvedPath(base, add).Some?
    ensures AllPlain(Origin(base, add).value)
    ensures ResolveSegments([cwd] + PosixArguments(base, add)) ==
            Fold(Origin(base, add).value, SegmentsOf(add), false)
  {
    WalkDir(base);
    hide StrictFold, Split, Fold, Relevant, ResolveSegments;
    if AbsoluteText(add) {
      assert [cwd] + PosixArguments(base, add) == [cwd, add];
      OneArgument(cwd, add);
    } else {
      var up := if Plain(Last(base)) then ".." else "";
      assert [cwd] + PosixArguments(base, add) == [cwd, "/" + base, up, add];
      ThreeArguments(cwd, "/" + base, up, add);
      RootedBase(base);
    }
  }

  lemma OneArgument(cwd: string, p: string)
    requires IsAbsolute(p)
    ensures ResolveSegments([cwd, p]) == Fold([], Split(p), false)
  {
    var paths := [cwd, p];
    RelevantFrom(paths, 1, true);
    hide Split, Fold, Relevant;
    assert Rest(paths, 1) == [p];
    SegmentsOfOne(p);
  }

  lemma SegmentsOfOne(p: string)
    ensures AllSegments([p]) == SegmentsOf(p)
  {
    assert [p][..0] == [];
    assert AllSegments([p]) == AllSegments([]) + SegmentsOf(p);
  }

  lemma ThreeArguments(cwd: string, p: string, q: string, r: string)
    requires IsAbsolute(p) && !IsAbsolute(q) && !IsAbsolute(r)
    ensures ResolveSegments([cwd, p, q, r]) ==
            Fold(Fold(Fold([], Split(p), false), SegmentsOf(q), false), SegmentsOf(r), false)
  {
    var paths := [cwd, p, q, r];
    RelevantFrom(paths, 1, true);
    hide Split, Fold, Relevant, AllSegments;
    assert Rest(paths, 1) == [p] + [q, r];
    AllSegmentsCons(p, [q, r]);
    AllSegmentsCons(q, [r]);
    SegmentsOfOne(r);
    assert [q] + [r] == [q, r];
    var rest := SegmentsOf(q) + SegmentsOf(r);
    FoldConcat([], Split(p), rest, false);
    FoldConcat(Fold([], Split(p), false), SegmentsOf(q), SegmentsOf(r), false);
  }

  lemma FoldOne(st: seq<string>, seg: string)
    ensures Fold(st, [seg], false) == Push(st, seg, false)
  {
    assert [seg][..0] == [];
    assert Fold(st, [], false) == st;
  }

  lemma RootedBase(base: string)
    requires DirOf(base).Some?
    ensures var up := if Plain(Last(base)) then ".." else "";
            Fold(Fold([], Split("/" + base), false), SegmentsOf(up), false) == DirOf(base).value
  {
    LeadingSlash(base, false);
    hide *;
    if Plain(Last(base)) {
      RootedFile(base);
    } else {
      RootedDir(base);
    }
  }

  lemma RootedFile(base: string)
    requires Plain(Last(base)) && DirOf(base).Some?
    ensures Fold(Fold([], Split(base), false), SegmentsOf(".."), false) == DirOf(base).value
  {
    SplitLast(base);
    SplitSlashFree("..");
    StrictPlain([], Init(base));
    var d := StrictFold([], Init(base)).value;
    assert SegmentsOf("..") == [".."] && DirOf(base) == Some(d) && Fold([], Init(base), false) == d;
    var last := Last(base);
    hide *;
    PopName(Init(base), last, d);
  }

  lemma PopName(segs: seq<string>, last: string, d: seq<string>)
    requires Plain(last) && Fold([], segs, false) == d
    ensures Fold(Fold([], segs + [last], false), [".."], false) == d
  {
    hide Fold;
    FoldOne(d, last);
    FoldOne(d + [last], "..");
    FoldConcat([], segs, [last], false);
    assert (d + [last])[..|d|] == d;
  }

  lemma RootedDir(base: string)
    requires !Plain(Last(base)) && DirOf(base).Some?
    ensures Fold(Fold([], Split(base), false), SegmentsOf(""), false) == DirOf(base).value
  {
    SplitParts(base);
    StrictPlain([], Split(base));
  }

  /** A path of names and then ".." segments exists if and only if there are enough
      names: the root has no parent here. */
  lemma ClimbsTooFar(base: string, names: seq<string>, n: nat)
    requires AllPlain(names) && n > 0
    ensures ResolvedPath(base, "/" + Join(names + Repeat("..", n))).Some? <==> n <= |names|
  {
    hide Split, Join, StrictFold, Plain, Dirs, Repeat, ResolvedPath;
    var segs := names + Repeat("..", n);
    var add := "/" + Join(segs);
    UpsEnd(names, n);
    SplitJoin(segs);
    SplitSlashFree("");
    SplitConcat("", Join(segs));
    assert "" + "/" + Join(segs) == add;
    assert Split(add) == [""] + segs;
    WalksAll(base, add);
    StrictBlank(segs);
    StrictNames([], names, Repeat("..", n));
    assert [] + names == names;
    StrictUps(names, n);
  }

  lemma WalksAll(base: string, add: string)
    requires AbsoluteText(add) && !Plain(Last(add))
    ensures ResolvedPath(base, add).Some? <==> StrictFold([], Split(add)).Some?
  {
    hide Split, StrictFold, Dirs, Plain;
  }

  lemma UpsEnd(names: seq<string>, n: nat)
    requires AllPlain(names) && n > 0
    ensures var segs := names + Repeat("..", n);
            segs != [] && AllSlashFree(segs) && segs[|segs| - 1] == ".." && !Plain("..")
  {}

  lemma {:induction false} StrictBlank(segs: seq<string>)
    ensures StrictFold([], [""] + segs) == StrictFold([], segs)
  {
    if segs == [] {
      StrictSnoc([], [], "");
      assert [""] + segs == [] + [""];
    } else {
      var n := |segs| - 1;
      StrictBlank(segs[..n]);
      StrictSnoc([], [""] + segs[..n], segs[n]);
      StrictSnoc([], segs[..n], segs[n]);
      assert [""] + segs == [""] + segs[..n] + [segs[n]] && segs == segs[..n] + [segs[n]];
    }
  }
}
