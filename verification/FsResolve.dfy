/** src/low_fs.cpp, low_fs_resolve: the same stack machine run in place in a
    caller's character buffer of limited length. */
module FsResolve {
  import opened Options
  import opened Segments

  /** The stack machine without a floor: climbing above the root fails. */
  function StrictFold(st: seq<string>, segs: seq<string>): Option<seq<string>> {
    if segs == [] then Some(st)
    else
      var seg := segs[|segs| - 1];
      match StrictFold(st, segs[..|segs| - 1])
      case None => None
      case Some(s) =>
        if seg == "" || seg == "." then Some(s)
        else if seg == ".." then (if s == [] then None else Some(s[..|s| - 1]))
        else Some(s + [seg])
  }

  /** The text of a directory: every segment followed by a slash. */
  function Dirs(st: seq<string>): (t: string)
    ensures |t| >= 1 && t[0] == '/' && t[|t| - 1] == '/'
  {
    if st == [] then "/" else Dirs(st[..|st| - 1]) + st[|st| - 1] + "/"
  }

  function Last(s: string): string { Split(s)[|Split(s)| - 1] }
  function Init(s: string): seq<string> { Split(s)[..|Split(s)| - 1] }

  /** The text after appending s to directory st; its last segment stays open. */
  function Walk(st: seq<string>, s: string): Option<string> {
    if Plain(Last(s)) then
      match StrictFold(st, Init(s)) case None => None case Some(d) => Some(Dirs(d) + Last(s))
    else
      match StrictFold(st, Split(s)) case None => None case Some(d) => Some(Dirs(d))
  }

  /** The longest directory text met while the given segments are consumed. */
  function Peak(st: seq<string>, segs: seq<string>): nat {
    if segs == [] then |Dirs(st)|
    else
      var p := Peak(st, segs[..|segs| - 1]);
      match StrictFold(st, segs) case None => p case Some(d) => if |Dirs(d)| > p then |Dirs(d)| else p
  }

  /** Appending s to directory st succeeds in a buffer of `lim` characters
      (one of them is for the terminator). */
  predicate Fits(st: seq<string>, s: string, lim: int) {
    Walk(st, s).Some? && Peak(st, Init(s)) < lim && |Walk(st, s).value| < lim
  }

  // ---- the machine, one segment at a time -----------------------------------

  lemma StrictSnoc(st: seq<string>, segs: seq<string>, seg: string)
    ensures StrictFold(st, segs + [seg]) ==
            match StrictFold(st, segs)
            case None => None
            case Some(s) =>
              if seg == "" || seg == "." then Some(s)
              else if seg == ".." then (if s == [] then None else Some(s[..|s| - 1]))
              else Some(s + [seg])
    ensures Peak(st, segs + [seg]) ==
            match StrictFold(st, segs + [seg])
            case None => Peak(st, segs)
            case Some(d) => if |Dirs(d)| > Peak(st, segs) then |Dirs(d)| else Peak(st, segs)
  {
    assert (segs + [seg])[..|segs|] == segs;
  }

  lemma {:induction false} StrictPrefix(st: seq<string>, segs: seq<string>, k: int)
    requires 0 <= k <= |segs|
    ensures StrictFold(st, segs[..k]).None? ==> StrictFold(st, segs).None?
    ensures Peak(st, segs[..k]) <= Peak(st, segs)
  {
    if k < |segs| {
      var n := |segs| - 1;
      assert segs[..n][..k] == segs[..k];
      StrictPrefix(st, segs[..n], k);
    } else {
      assert segs[..k] == segs;
    }
  }

  lemma StrictNothing(st: seq<string>)
    ensures StrictFold(st, []) == Some(st)
  {}

  /** ".." takes names away one by one, and fails at the root. */
  lemma {:induction false} StrictUps(st: seq<string>, n: nat)
    requires AllPlain(st)
    ensures StrictFold(st, Repeat("..", n)) == if n <= |st| then Some(st[..|st| - n]) else None
  {
    hide StrictFold, Peak, Dirs, Plain;
    StrictNothing(st);
    if n > 0 {
      StrictUps(st, n - 1);
      StrictSnoc(st, Repeat("..", n - 1), "..");
      assert Repeat("..", n) == Repeat("..", n - 1) + [".."];
      assert n <= |st| ==> st[..|st| - (n - 1)][..|st| - n] == st[..|st| - n];
    } else {
      assert Repeat("..", 0) == [] && st[..|st|] == st;
    }
  }

  lemma {:induction false} StrictNames(st: seq<string>, names: seq<string>, rest: seq<string>)
    requires AllPlain(names)
    ensures StrictFold(st, names + rest) == StrictFold(st + names, rest)
  {
    hide StrictFold, Peak, Dirs, Plain;
    if rest == [] {
      assert names + rest == names;
      StrictAdds(st, names);
      StrictNothing(st + names);
    } else {
      var n := |rest| - 1;
      var a, x := rest[..n], rest[n];
      StrictNames(st, names, a);
      StrictSnoc(st, names + a, x);
      StrictSnoc(st + names, a, x);
      assert names + rest == names + a + [x] && rest == a + [x];
    }
  }

  lemma {:induction false} StrictAdds(st: seq<string>, names: seq<string>)
    requires AllPlain(names)
    ensures StrictFold(st, names) == Some(st + names)
  {
    hide StrictFold, Peak, Dirs;
    StrictNothing(st);
    if names != [] {
      var n := |names| - 1;
      var a, x := names[..n], names[n];
      StrictAdds(st, a);
      StrictSnoc(st, a, x);
      assert names == a + [x] && st + a + [x] == st + names;
    } else {
      assert st + names == st;
    }
  }

  lemma DirsSnoc(st: seq<string>, seg: string)
    ensures Dirs(st + [seg]) == Dirs(st) + seg + "/"
  {
    assert (st + [seg])[..|st|] == st;
  }

  lemma {:induction false} StrictPlain(st: seq<string>, segs: seq<string>)
    requires AllPlain(st) && AllSlashFree(segs) && StrictFold(st, segs).Some?
    ensures AllPlain(StrictFold(st, segs).value)
    ensures Fold(st, segs, false) == StrictFold(st, segs).value
  {
    if segs != [] {
      StrictPlain(st, segs[..|segs| - 1]);
    }
  }

  // ---- the scanning loop ------------------------------------------------------

  /** The segment being read will not turn out to be "." or "..". */
  predicate Genuine(s: string, j: int, p: string)
    requires 0 <= j <= |s|
  {
    && (p == "." || p == ".." ==> j < |s| && s[j] != '/')
    && (p == "." && s[j] == '.' ==> j + 1 < |s| && s[j + 1] != '/')
  }

  /** What the buffer holds once s[..j] is consumed: directory st and the
      characters read of an open segment. */
  ghost predicate Scanned(st0: seq<string>, s: string, j: int, st: seq<string>, text: string, lim: int) {
    && 0 <= j <= |s| && AllPlain(st)
    && StrictFold(st0, Init(s[..j])) == Some(st)
    && text == Dirs(st) + Last(s[..j])
    && Genuine(s, j, Last(s[..j]))
    && Peak(st0, Init(s[..j])) < lim && |text| < lim
  }

  lemma ReadChar(s: string, j: int)
    requires 0 <= j < |s|
    ensures SlashFree(Last(s[..j]))
    ensures s[j] == '/' ==> Init(s[..j + 1]) == Init(s[..j]) + [Last(s[..j])] && Last(s[..j + 1]) == ""
    ensures s[j] != '/' ==> Init(s[..j + 1]) == Init(s[..j]) && Last(s[..j + 1]) == Last(s[..j]) + [s[j]]
  {
    hide Split;
    SplitParts(s[..j]);
    SplitSnoc(s[..j], s[j]);
    assert s[..j + 1] == s[..j] + [s[j]];
    LastOfSnoc(Split(s[..j]), s[j]);
  }

  lemma LastOfSnoc(r: seq<string>, c: char)
    requires r != []
    ensures r + [""] == r[..|r| - 1] + [r[|r| - 1]] + [""] && (r + [""])[..|r|] == r
    ensures Extend(r, c)[..|r| - 1] == r[..|r| - 1]
    ensures |Extend(r, c)| == |r| && Extend(r, c)[|r| - 1] == r[|r| - 1] + [c]
    ensures r == r[..|r| - 1] + [r[|r| - 1]]
  {}

  lemma SplitLast(s: string)
    ensures Split(s) == Init(s) + [Last(s)] && SlashFree(Last(s)) && AllSlashFree(Init(s))
  {
    SplitParts(s);
    hide Split;
    var r := Split(s);
    assert r == r[..|r| - 1] + [r[|r| - 1]];
  }

  /** A slash met with nothing open changes nothing. */
  lemma SkipSlash(st0: seq<string>, s: string, j: int, st: seq<string>, text: string, lim: int)
    requires Scanned(st0, s, j, st, text, lim) && j < |s| && s[j] == '/' && Last(s[..j]) == ""
    ensures Scanned(st0, s, j + 1, st, text, lim)
  {
    ReadChar(s, j);
    StrictSnoc(st0, Init(s[..j]), "");
    OpenIsLonger(st, Last(s[..j]));
  }

  lemma OpenIsLonger(st: seq<string>, p: string)
    ensures |Dirs(st) + p| == |Dirs(st)| + |p|
  {}

  /** A "." segment, at the end or followed by a slash. */
  lemma SkipDot(st0: seq<string>, s: string, j: int, st: seq<string>, text: string, lim: int)
    requires Scanned(st0, s, j, st, text, lim) && j < |s| && s[j] == '.' && Last(s[..j]) == ""
    requires j + 1 < |s| ==> s[j + 1] == '/'
    ensures j + 1 < |s| ==> Scanned(st0, s, j + 2, st, text, lim)
    ensures j + 1 == |s| ==> Fits(st0, s, lim) && Walk(st0, s) == Some(text)
  {
    hide StrictFold, Split, Peak;
    ReadChar(s, j);
    StrictSnoc(st0, Init(s[..j]), ".");
    OpenIsLonger(st, Last(s[..j]));
    assert text == Dirs(st);
    assert Last(s[..j + 1]) == ".";
    if j + 1 < |s| {
      ReadChar(s, j + 1);
      assert Dirs(st) + "" == Dirs(st);
    } else {
      assert s[..j + 1] == s;
      SplitLast(s);
      assert Last(s) == ".";
    }
  }

  /** A ".." segment, at the end or followed by a slash. */
  lemma SkipDotDot(st0: seq<string>, s: string, j: int, st: seq<string>, text: string, lim: int)
    requires Scanned(st0, s, j, st, text, lim) && Last(s[..j]) == ""
    requires j + 1 < |s| && s[j] == '.' && s[j + 1] == '.'
    requires j + 2 < |s| ==> s[j + 2] == '/'
    ensures st == [] ==> Walk(st0, s).None?
    ensures st != [] && j + 2 < |s| ==> Scanned(st0, s, j + 3, st[..|st| - 1], Dirs(st[..|st| - 1]), lim)
    ensures st != [] && j + 2 == |s| ==> Fits(st0, s, lim) && Walk(st0, s) == Some(Dirs(st[..|st| - 1]))
  {
    hide StrictFold, Split, Peak;
    ReadChar(s, j);
    ReadChar(s, j + 1);
    var segs := Init(s[..j]);
    assert Last(s[..j + 2]) == "..";
    StrictSnoc(st0, segs, "..");
    OpenIsLonger(st, Last(s[..j]));
    if st != [] { ShorterUp(st); }
    if j + 2 < |s| {
      ReadChar(s, j + 2);
      if st == [] {
        NoneAhead(st0, s, j + 3);
      } else {
        assert Dirs(st[..|st| - 1]) + "" == Dirs(st[..|st| - 1]);
      }
    } else {
      assert s[..j + 2] == s;
      SplitLast(s);
    }
  }

  lemma ShorterUp(st: seq<string>)
    requires st != []
    ensures |Dirs(st[..|st| - 1])| < |Dirs(st)|
  {}

  /** Once the machine has failed on a prefix it has failed on the whole. */
  lemma NoneAhead(st0: seq<string>, s: string, j: int)
    requires 0 <= j <= |s| && StrictFold(st0, Init(s[..j])).None?
    ensures Walk(st0, s).None?
  {
    hide Split, StrictFold;
    SplitPrefix(s, j);
    var a, b := Split(s[..j]), Split(s);
    var k := |a| - 1;
    assert b[..k] == a[..k] == Init(s[..j]);
    StrictPrefix(st0, b, k);
    assert b[..|b| - 1][..k] == b[..k];
    StrictPrefix(st0, b[..|b| - 1], k);
  }

  /** The open segment, seen in the whole text, is a genuine name. */
  lemma GenuineIsPlain(s: string, j: int)
    requires 0 <= j <= |s| && Last(s[..j]) != "" && Genuine(s, j, Last(s[..j]))
    ensures var k := |Init(s[..j])|;
            && k < |Split(s)| && Split(s)[..k] == Init(s[..j])
            && Last(s[..j]) <= Split(s)[k] && Plain(Split(s)[k])
            && (j < |s| && s[j] == '/' ==> k + 1 < |Split(s)| && Split(s)[k] == Last(s[..j]))
  {
    SplitParts(s);
    hide Split;
    SplitPrefix(s, j);
    var p, k := Last(s[..j]), |Init(s[..j])|;
    var q := Split(s)[k];
    if p == "." && s[j] == '.' {
      SplitPrefix(s, j + 1);
      ReadChar(s, j);
    }
    DotNames(p);
    DotNames(q);
  }

  lemma DotNames(q: string)
    ensures q == "." <==> |q| == 1 && q[0] == '.'
    ensures q == ".." <==> |q| == 2 && q[0] == '.' && q[1] == '.'
  {}

  /** Any other character is stored; a slash closes a name. */
  lemma StoreChar(st0: seq<string>, s: string, j: int, st: seq<string>, text: string, lim: int)
    requires Scanned(st0, s, j, st, text, lim) && j < |s|
    requires Last(s[..j]) == "" ==> s[j] != '/'
    requires Last(s[..j]) == "" && s[j] == '.' ==> j + 1 < |s| && s[j + 1] != '/'
    requires Last(s[..j]) == "" && s[j] == '.' && s[j + 1] == '.' ==> j + 2 < |s| && s[j + 2] != '/'
    ensures |text| + 1 < lim ==>
              Scanned(st0, s, j + 1, if s[j] == '/' then st + [Last(s[..j])] else st, text + [s[j]], lim)
    ensures |text| + 1 == lim ==> !Fits(st0, s, lim)
  {
    hide StrictFold, Split, Peak;
    var p := Last(s[..j]);
    ReadChar(s, j);
    OpenIsLonger(st, p);
    if s[j] == '/' {
      GenuineIsPlain(s, j);
      StrictSnoc(st0, Init(s[..j]), p);
      DirsSnoc(st, p);
      assert text + ['/'] == Dirs(st + [p]);
      if |text| + 1 == lim {
        var k := |Init(s[..j])|;
        assert Split(s)[..k + 1] == Init(s[..j]) + [p];
        PeakReached(st0, s, k + 1);
      } else {
        assert Dirs(st + [p]) + "" == Dirs(st + [p]);
      }
    } else {
      assert text + [s[j]] == Dirs(st) + (p + [s[j]]);
      GenuineNext(s, j);
      if |text| + 1 == lim {
        GenuineIsPlain(s, j + 1);
        TooLong(st0, s, j + 1, st, lim);
      }
    }
  }

  lemma GenuineNext(s: string, j: int)
    requires 0 <= j < |s| && s[j] != '/' && Genuine(s, j, Last(s[..j]))
    requires Last(s[..j]) == "" && s[j] == '.' ==> j + 1 < |s| && s[j + 1] != '/'
    requires Last(s[..j]) == "" && s[j] == '.' && s[j + 1] == '.' ==> j + 2 < |s| && s[j + 2] != '/'
    ensures Genuine(s, j + 1, Last(s[..j + 1])) && Last(s[..j + 1]) != ""
  {
    ReadChar(s, j);
    hide Split;
    var p := Last(s[..j]);
    var q := p + [s[j]];
    assert q == "." ==> p == "" && q[0] == '.';
    assert q == ".." ==> |p| == 1 && p == [q[0]] && q[1] == '.';
  }

  /** A directory text as long as the buffer is one that does not fit. */
  lemma PeakReached(st0: seq<string>, s: string, k: int)
    requires 0 <= k < |Split(s)|
    ensures var d := StrictFold(st0, Split(s)[..k]); d.Some? ==> |Dirs(d.value)| <= Peak(st0, Init(s))
  {
    hide Split;
    assert Init(s)[..k] == Split(s)[..k];
    StrictPrefix(st0, Init(s), k);
  }

  /** An open name that fills the buffer does not fit either. */
  lemma TooLong(st0: seq<string>, s: string, j: int, st: seq<string>, lim: int)
    requires 0 <= j <= |s| && StrictFold(st0, Init(s[..j])) == Some(st)
    requires var k := |Init(s[..j])|;
             && k < |Split(s)| && Split(s)[..k] == Init(s[..j])
             && Last(s[..j]) <= Split(s)[k] && Plain(Split(s)[k])
    requires |Dirs(st)| + |Last(s[..j])| >= lim
    ensures !Fits(st0, s, lim)
  {
    hide StrictFold, Split, Peak;
    var k := |Init(s[..j])|;
    var q := Split(s)[k];
    if k + 1 < |Split(s)| {
      StrictSnoc(st0, Split(s)[..k], q);
      assert Split(s)[..k + 1] == Split(s)[..k] + [q];
      DirsSnoc(st, q);
      PeakReached(st0, s, k + 1);
    } else {
      OpenIsLonger(st, q);
    }
  }

  /** Everything consumed. */
  lemma ScannedAll(st0: seq<string>, s: string, st: seq<string>, text: string, lim: int)
    requires Scanned(st0, s, |s|, st, text, lim)
    ensures Fits(st0, s, lim) && Walk(st0, s) == Some(text)
  {
    hide StrictFold, Split, Peak;
    assert s[..|s|] == s;
    SplitLast(s);
    StrictSnoc(st0, Init(s), Last(s));
    if Last(s) == "" { assert Dirs(st) + "" == Dirs(st); }
  }

  /** The last directory separator, seen from the end of the text. */
  lemma TailOfDirs(st: seq<string>, p: string)
    requires AllPlain(st) && SlashFree(p)
    ensures var t := Dirs(st) + p; (t[|t| - 1] == '/' <==> p == "")
    ensures var t := Dirs(st); |t| > 2 && t[|t| - 2] == '.' && t[|t| - 3] == '.' ==> |t| > 3 && t[|t| - 4] != '/'
  {
    var t := Dirs(st);
    if st != [] {
      var last, d := st[|st| - 1], Dirs(st[..|st| - 1]);
      assert Plain(last);
      assert t == d + last + "/";
      assert forall k | 0 <= k < |last| :: t[|d| + k] == last[k];
      DotNames(last);
      assert |last| == 1 ==> t[|t| - 3] == d[|d| - 1];
    }
  }

  // ---- the C function -------------------------------------------------------

  /** `while(path != start && path[-1] != '/') path--;` with start at index 0. */
  method ScanBack(res: array<char>, path0: int) returns (path: int)
    requires 0 <= path0 <= res.Length
    ensures 0 <= path <= path0 && (path == 0 || res[path - 1] == '/')
    ensures forall k | path <= k < path0 :: res[k] != '/'
  {
    path := path0;
    while path != 0 && res[path - 1] != '/'
      invariant 0 <= path <= path0
      invariant forall k | path <= k < path0 :: res[k] != '/'
      decreases path
    {
      path := path - 1;
    }
  }

  /** Scanning back over an open name stops at the directory before it. */
  lemma BackToDir(d: string, p: string, text: string, path: int)
    requires d != "" && d[|d| - 1] == '/' && SlashFree(p) && text == d + p
    requires 0 <= path <= |text| && (path == 0 || text[path - 1] == '/')
    requires forall k | path <= k < |text| :: text[k] != '/'
    ensures path == |d| && text[..path] == d
  {
    assert text[|d| - 1] == '/';
    assert forall k | |d| <= k < |text| :: text[k] == p[k - |d|];
  }

  /** Dropping the closing slash and scanning back leaves the parent directory. */
  lemma BackToParent(st: seq<string>, text: string, path: int)
    requires AllPlain(st) && text == Dirs(st)
    requires 0 <= path <= |text| - 1 && (path == 0 || text[path - 1] == '/')
    requires forall k | path <= k < |text| - 1 :: text[k] != '/'
    ensures path == 0 <==> st == []
    ensures st != [] ==> text[..path] == Dirs(st[..|st| - 1])
  {
    if st != [] {
      var d, last := Dirs(st[..|st| - 1]), st[|st| - 1];
      var cut := d + last;
      assert text == cut + "/";
      assert text[..|text| - 1] == cut;
      BackToDir(d, last, cut, path);
    } else {
      assert text == "/";
    }
  }

  /** `path--` and the scan back: to the parent directory, or to 0 at the root. */
  method Up(res: array<char>, path0: int, ghost st: seq<string>) returns (path: int)
    requires 1 <= path0 <= res.Length && AllPlain(st) && res[..path0] == Dirs(st)
    ensures 0 <= path < path0 && (path == 0 <==> st == [])
    ensures st != [] ==> res[..path] == Dirs(st[..|st| - 1])
  {
    ghost var text := res[..path0];
    path := ScanBack(res, path0 - 1);
    hide *;
    assert text[..path] == res[..path];
    BackToParent(st, text, path);
  }

  /** The loops' tests on the input at j and on the buffer. */
  predicate AtDot(s: string, j: int)
    requires 0 <= j < |s|
  {
    s[j] == '.' && (j + 1 == |s| || s[j + 1] == '/')
  }

  predicate AtDotDot(s: string, j: int)
    requires 0 <= j < |s|
  {
    s[j] == '.' && j + 1 < |s| && s[j + 1] == '.' && (j + 2 == |s| || s[j + 2] == '/')
  }

  predicate AfterDotDot(res: array<char>, path: int)
    requires 1 <= path <= res.Length
    reads res
  {
    path > 2 && res[path - 2] == '.' && res[path - 3] == '.' && (path == 3 || res[path - 4] == '/')
  }

  datatype Progress = Running | Finished | Failed

  /** How the loop stands: still scanning, or stopped with its result. */
  ghost predicate Stands(how: Progress, st0: seq<string>, s: string, j: int, st: seq<string>, text: string, lim: int) {
    match how
    case Running => Scanned(st0, s, j, st, text, lim)
    case Finished => Fits(st0, s, lim) && Walk(st0, s) == Some(text)
    case Failed => !Fits(st0, s, lim)
  }

  /** One of the two identical loops of low_fs_resolve (lines 338-376 and
      391-427): consume s, the text so far being a directory. */
  method Append(res: array<char>, resLen: int, path0: int, s: string, ghost st0: seq<string>)
    returns (ok: bool, path: int)
    requires 2 <= resLen <= res.Length && AllPlain(st0)
    requires 1 <= path0 < resLen && res[..path0] == Dirs(st0)
    modifies res
    ensures ok <==> Fits(st0, s, resLen)
    ensures ok ==> 1 <= path < resLen && Walk(st0, s) == Some(res[..path])
    ensures forall k | resLen <= k < res.Length :: res[k] == old(res[k])
  {
    path := path0;
    var j, how := 0, Running;
    ghost var st := st0;
    ScanStart(st0, s, resLen);
    hide *;
    while how == Running && j < |s|
      invariant 0 <= j && 0 <= path <= resLen && (how != Failed ==> 1 <= path < resLen)
      invariant Stands(how, st0, s, j, st, res[..path], resLen)
      invariant how == Running ==> j <= |s|
      invariant forall k | resLen <= k < res.Length :: res[k] == old(res[k])
      decreases how == Running, |s| - j
    {
      how, path, j, st := Step(res, resLen, path, s, j, st0, st);
    }
    Stopped(how, st0, s, j, st, res[..path], resLen);
    ok := how != Failed;
  }

  /** One turn of the loop. */
  method Step(res: array<char>, resLen: int, path0: int, s: string, j0: int, ghost st0: seq<string>,
      ghost st1: seq<string>)
    returns (how: Progress, path: int, j: int, ghost st: seq<string>)
    requires 1 <= path0 < resLen <= res.Length && 0 <= j0 < |s|
    requires Stands(Running, st0, s, j0, st1, res[..path0], resLen)
    modifies res
    ensures j0 < j && 0 <= path <= resLen && (how != Failed ==> 1 <= path < resLen)
    ensures Stands(how, st0, s, j, st, res[..path], resLen)
    ensures how == Running ==> j <= |s|
    ensures forall k | resLen <= k < res.Length :: res[k] == old(res[k])
  {
    path, j, st := path0, j0, st1;
    NotAfterDotDot(res, path, st0, s, j, st, resLen);
    hide *;
    if res[path - 1] == '/' && s[j] == '/' {
      StepSlash(st0, s, j, st, res[..path], resLen);
      how := Running;
      j := j + 1;
    } else if res[path - 1] == '/' && AtDot(s, j) {
      StepDot(st0, s, j, st, res[..path], resLen);
      how := if j + 1 == |s| then Finished else Running;
      j := j + 2;
    } else if res[path - 1] == '/' && AtDotDot(s, j) && !AfterDotDot(res, path) {
      StepUp(st0, s, j, st, res[..path], resLen);
      path := Up(res, path, st);
      st := if st == [] then [] else st[..|st| - 1];
      how := if path == 0 then Failed else if j + 2 == |s| then Finished else Running;
      j := j + 3;
    } else {
      StepStore(st0, s, j, st, res[..path], resLen);
      path := Store(res, path, s[j]);
      st := if s[j] == '/' then st + [Last(s[..j])] else st;
      how := if path == resLen then Failed else Running;
      j := j + 1;
    }
  }

  /** `*path++ = c;` */
  method Store(res: array<char>, path0: int, c: char) returns (path: int)
    requires 0 <= path0 < res.Length
    modifies res
    ensures path == path0 + 1 && res[..path] == old(res[..path0]) + [c]
    ensures forall k | path <= k < res.Length :: res[k] == old(res[k])
  {
    res[path0] := c;
    path := path0 + 1;
  }

  lemma StepSlash(st0: seq<string>, s: string, j: int, st: seq<string>, text: string, lim: int)
    requires Stands(Running, st0, s, j, st, text, lim) && 0 <= j < |s| && text != ""
    requires text[|text| - 1] == '/' && s[j] == '/'
    ensures Stands(Running, st0, s, j + 1, st, text, lim)
  {
    ScanFacts(st0, s, j, st, text, lim);
    SkipSlash(st0, s, j, st, text, lim);
  }

  lemma StepDot(st0: seq<string>, s: string, j: int, st: seq<string>, text: string, lim: int)
    requires Stands(Running, st0, s, j, st, text, lim) && 0 <= j < |s| && text != ""
    requires text[|text| - 1] == '/' && AtDot(s, j)
    ensures j + 1 == |s| ==> Stands(Finished, st0, s, j + 2, st, text, lim)
    ensures j + 1 != |s| ==> j + 2 <= |s| && Stands(Running, st0, s, j + 2, st, text, lim)
  {
    ScanFacts(st0, s, j, st, text, lim);
    SkipDot(st0, s, j, st, text, lim);
  }

  lemma StepUp(st0: seq<string>, s: string, j: int, st: seq<string>, text: string, lim: int)
    requires Stands(Running, st0, s, j, st, text, lim) && 0 <= j < |s| && text != ""
    requires text[|text| - 1] == '/' && AtDotDot(s, j)
    ensures AllPlain(st) && text == Dirs(st)
    ensures st == [] ==> forall x, y, z :: Stands(Failed, st0, s, x, y, z, lim)
    ensures st != [] ==>
              var up := st[..|st| - 1];
              && (j + 2 == |s| ==> Stands(Finished, st0, s, j + 3, up, Dirs(up), lim))
              && (j + 2 != |s| ==> j + 3 <= |s| && Stands(Running, st0, s, j + 3, up, Dirs(up), lim))
  {
    ScanFacts(st0, s, j, st, text, lim);
    SkipDotDot(st0, s, j, st, text, lim);
  }

  lemma StepStore(st0: seq<string>, s: string, j: int, st: seq<string>, text: string, lim: int)
    requires Stands(Running, st0, s, j, st, text, lim) && 0 <= j < |s| && text != ""
    requires text[|text| - 1] == '/' ==> s[j] != '/' && !AtDot(s, j) && !AtDotDot(s, j)
    ensures var st' := if s[j] == '/' then st + [Last(s[..j])] else st;
            && (|text| + 1 < lim ==> Stands(Running, st0, s, j + 1, st', text + [s[j]], lim))
            && (|text| + 1 == lim ==> Stands(Failed, st0, s, j + 1, st', text + [s[j]], lim))
  {
    ScanFacts(st0, s, j, st, text, lim);
    StoreChar(st0, s, j, st, text, lim);
  }

  lemma Stopped(how: Progress, st0: seq<string>, s: string, j: int, st: seq<string>, text: string, lim: int)
    requires Stands(how, st0, s, j, st, text, lim) && (how == Running ==> j == |s|)
    ensures how != Failed <==> Fits(st0, s, lim)
    ensures how != Failed ==> Walk(st0, s) == Some(text)
  {
    if how == Running { ScannedAll(st0, s, st, text, lim); }
  }

  /** The source's last test on the buffer never holds: a ".." is never stored. */
  lemma NotAfterDotDot(res: array<char>, path: int, st0: seq<string>, s: string, j: int, st: seq<string>, lim: int)
    requires 1 <= path <= res.Length && Stands(Running, st0, s, j, st, res[..path], lim)
    ensures res[path - 1] == '/' ==> !AfterDotDot(res, path)
  {
    ScanFacts(st0, s, j, st, res[..path], lim);
  }

  lemma ScanStart(st0: seq<string>, s: string, lim: int)
    requires AllPlain(st0) && |Dirs(st0)| < lim
    ensures Scanned(st0, s, 0, st0, Dirs(st0), lim)
  {
    assert s[..0] == "";
    assert Dirs(st0) + "" == Dirs(st0);
  }

  /** What the loop's tests on the buffer see. */
  lemma ScanFacts(st0: seq<string>, s: string, j: int, st: seq<string>, text: string, lim: int)
    requires Scanned(st0, s, j, st, text, lim)
    ensures 0 <= j <= |s| && AllPlain(st) && |text| >= 1 && (text[|text| - 1] == '/' <==> Last(s[..j]) == "")
    ensures Last(s[..j]) == "" ==> text == Dirs(st)
    ensures text[|text| - 1] == '/' ==>
              !(|text| > 2 && text[|text| - 2] == '.' && text[|text| - 3] == '.'
                  && (|text| == 3 || text[|text| - 4] == '/'))
  {
    SplitLast(s[..j]);
    TailOfDirs(st, Last(s[..j]));
    if Last(s[..j]) == "" { assert Dirs(st) + "" == Dirs(st); }
  }

  // ---- low_fs_resolve itself ----------------------------------------------------

  predicate AbsoluteText(add: string) { add != "" && add[0] == '/' }

  /** The directory part of `base`: everything up to its last slash, or all of
      it when it ends in "." or "..". */
  function DirOf(base: string): Option<seq<string>> {
    StrictFold([], if Plain(Last(base)) then Init(base) else Split(base))
  }

  /** The directory from which `add` is walked. */
  function Origin(base: string, add: string): Option<seq<string>> {
    if AbsoluteText(add) then Some([]) else DirOf(base)
  }

  /** The resolved text, if no ".." leaves the root. */
  function ResolvedPath(base: string, add: string): Option<string> {
    match Origin(base, add) case None => None case Some(d) => Walk(d, add)
  }

  /** The buffer takes everything that is written on the way: all of `base`,
      file name included, then `add`. */
  predicate HasRoom(base: string, add: string, resLen: int) {
    match Origin(base, add)
    case None => false
    case Some(d) => (AbsoluteText(add) || Fits([], base, resLen)) && Fits(d, add, resLen)
  }

  lemma WalkDir(base: string)
    ensures Walk([], base).Some? <==> DirOf(base).Some?
    ensures DirOf(base).Some? ==>
              var d := DirOf(base).value;
              AllPlain(d) && Walk([], base) == Some(Dirs(d) + if Plain(Last(base)) then Last(base) else "")
  {
    SplitLast(base);
    SplitParts(base);
    hide StrictFold, Split;
    if DirOf(base).Some? {
      var d := DirOf(base).value;
      StrictPlain([], if Plain(Last(base)) then Init(base) else Split(base));
      assert Dirs(d) + "" == Dirs(d);
    }
  }

  /** Every character the buffer ever has to hold. */
  function Needed(base: string, add: string): nat {
    Max(if AbsoluteText(add) then 0 else Extent([], base),
        match Origin(base, add) case None => 0 case Some(d) => Extent(d, add))
  }

  function Extent(st: seq<string>, s: string): nat {
    Max(Peak(st, Init(s)), match Walk(st, s) case None => 0 case Some(t) => |t|)
  }

  function Max(a: nat, b: nat): nat { if a > b then a else b }

  lemma RoomExactly(base: string, add: string, resLen: int)
    ensures HasRoom(base, add, resLen) <==> ResolvedPath(base, add).Some? && Needed(base, add) < resLen
  {
    hide Split, StrictFold, Peak;
    WalkDir(base);
  }

  /** The C function without the node_modules cut and the ESP32 prefix. A
      buffer of one character has no room for the root and its terminator;
      every caller passes more. */
  method LowFsResolve(res: array<char>, resLen: int, base: string, add: string) returns (ok: bool)
    requires 2 <= resLen <= res.Length
    requires '\0' !in base && '\0' !in add
    modifies res
    // It fails exactly when a ".." would leave the root or the text at some moment
    // reaches the length of the buffer.
    ensures ok <==> ResolvedPath(base, add).Some? && Needed(base, add) < resLen
    ensures ok ==> var t := ResolvedPath(base, add);
                   t.Some? && |t.value| < resLen && res[..|t.value|] == t.value && res[|t.value|] == '\0'
    ensures forall k | resLen <= k < res.Length :: res[k] == old(res[k])
  {
    hide *;
    res[0] := '/';
    var path := 1;
    ghost var d: seq<string> := [];
    assert res[..1] == "/";
    RootDir();
    RoomExactly(base, add, resLen);
    if AbsoluteText(add) {
      AbsoluteRoom(base, add, resLen);
    } else {
      ok, path := Append(res, resLen, path, base, []);
      RelativeRoom(base, add, resLen);
      if !ok {
        return;
      }
      d := DirOf(base).value;
      var end := path;
      path := ScanBack(res, end);
      BackToOrigin(base, res[..end], path);
      assert res[..end][..path] == res[..path];
      // The source's test for path == start cannot succeed: the root slash is never left.
      assert path != 0;
    }
    ok, path := Append(res, resLen, path, add, d);
    if ok {
      res[path] := '\0';
    }
  }

  lemma RootDir()
    ensures AllPlain([]) && Dirs([]) == "/"
  {}

  lemma AbsoluteRoom(base: string, add: string, resLen: int)
    requires AbsoluteText(add)
    ensures HasRoom(base, add, resLen) <==> Fits([], add, resLen)
    ensures ResolvedPath(base, add) == Walk([], add)
  {}

  lemma RelativeRoom(base: string, add: string, resLen: int)
    requires !AbsoluteText(add)
    ensures !Fits([], base, resLen) ==> !HasRoom(base, add, resLen)
    ensures Fits([], base, resLen) ==>
              && DirOf(base).Some? && AllPlain(DirOf(base).value)
              && ResolvedPath(base, add) == Walk(DirOf(base).value, add)
              && (HasRoom(base, add, resLen) <==> Fits(DirOf(base).value, add, resLen))
  {
    WalkDir(base);
  }

  /** After `base` is consumed, scanning back leaves its directory. */
  lemma BackToOrigin(base: string, text: string, path: int)
    requires Walk([], base) == Some(text)
    requires 0 <= path <= |text| && (path == 0 || text[path - 1] == '/')
    requires forall k | path <= k < |text| :: text[k] != '/'
    ensures DirOf(base).Some? && text[..path] == Dirs(DirOf(base).value) && 1 <= path
  {
    WalkDir(base);
    SplitLast(base);
    BackToDir(Dirs(DirOf(base).value), if Plain(Last(base)) then Last(base) else "", text, path);
  }
}
