/** lib_js/url.js, resolveObject: merging a relative path into a base path and
    the backward pass that removes dot segments, against the text algorithm of
    section 5.2.4 of RFC 3986. */
module UrlPath {
  import opened Segments
  import opened Slices

  // ---- section 5.2.4 of RFC 3986, on texts ------------------------------------

  predicate StartsWith(s: string, p: string) { p <= s }

  /** Length of the first path segment including its initial slash (rule 2E). */
  function FirstLength(s: string): (n: int)
    requires s != ""
    ensures 1 <= n <= |s|
  {
    NextSlash(s, 1)
  }

  /** The first slash at or after position k, or the end. */
  function NextSlash(s: string, k: int): (n: int)
    requires 0 <= k <= |s|
    ensures k <= n <= |s| && (n < |s| ==> s[n] == '/') && forall j | k <= j < n :: s[j] != '/'
    decreases |s| - k
  {
    if k == |s| || s[k] == '/' then k else NextSlash(s, k + 1)
  }

  /** Rule 2C: remove the last segment of the output and its preceding slash. */
  function RemoveLast(o: string): (r: string)
    ensures |r| <= |o|
  {
    if o == "" then "" else if o[|o| - 1] == '/' then o[..|o| - 1] else RemoveLast(o[..|o| - 1])
  }

  function RemoveDotSegments(input: string, output: string): string
    decreases |input|
  {
    if input == "" then output
    else if StartsWith(input, "../") then RemoveDotSegments(Rest(input, 3), output)
    else if StartsWith(input, "./") then RemoveDotSegments(Rest(input, 2), output)
    else if StartsWith(input, "/./") then RemoveDotSegments(Rest(input, 2), output)
    else if input == "/." then RemoveDotSegments("/", output)
    else if StartsWith(input, "/../") then RemoveDotSegments(Rest(input, 3), RemoveLast(output))
    else if input == "/.." then RemoveDotSegments("/", RemoveLast(output))
    else if input == "." || input == ".." then output
    else
      var n := FirstLength(input);
      RemoveDotSegments(Rest(input, n), output + input[..n])
  }

  // ---- the same, on segments ------------------------------------------------------

  /** A stack of segments written with a slash before each. */
  function Out(st: seq<string>): string {
    if st == [] then "" else Out(st[..|st| - 1]) + "/" + st[|st| - 1]
  }

  function Pop(st: seq<string>): seq<string> { if st == [] then [] else st[..|st| - 1] }

  predicate IsDot(s: string) { s == "." || s == ".." }

  /** One segment that is not the last. Empty segments are kept, unlike in the
      file-path machine. */
  function Apply(st: seq<string>, seg: string): seq<string> {
    if seg == "." then st else if seg == ".." then Pop(st) else st + [seg]
  }

  /** The forward stack machine. */
  function Forward(st: seq<string>, segs: seq<string>): seq<string> {
    if segs == [] then st else Apply(Forward(st, segs[..|segs| - 1]), segs[|segs| - 1])
  }

  /** A final "." or ".." leaves an empty last segment. */
  function Closed(st: seq<string>, last: string): seq<string> {
    if IsDot(last) then st + [""] else st
  }

  lemma ForwardSnoc(st: seq<string>, a: seq<string>, x: string)
    ensures Forward(st, a + [x]) == Apply(Forward(st, a), x)
  {
    assert (a + [x])[..|a|] == a;
  }

  lemma {:induction false} ForwardConcat(st: seq<string>, a: seq<string>, b: seq<string>)
    ensures Forward(st, a + b) == Forward(Forward(st, a), b)
  {
    if b == [] {
      assert a + b == a;
    } else {
      var n := |b| - 1;
      var c, x := b[..n], b[n];
      assert b == c + [x];
      assert a + b == (a + c) + [x];
      ForwardConcat(st, a, c);
      ForwardSnoc(st, a + c, x);
    }
  }

  lemma OutSnoc(st: seq<string>, x: string)
    ensures Out(st + [x]) == Out(st) + "/" + x
  {
    assert (st + [x])[..|st|] == st;
  }

  lemma {:induction false} RemoveLastSlashFree(o: string, x: string)
    requires SlashFree(x)
    ensures RemoveLast(o + "/" + x) == o
  {
    var t := o + "/" + x;
    if x == "" {
      assert t[..|t| - 1] == o;
    } else {
      var y := x[..|x| - 1];
      RemoveLastSlashFree(o, y);
      assert t[..|t| - 1] == o + "/" + y;
      assert t[|t| - 1] == x[|x| - 1];
    }
  }

  lemma RemoveLastOut(st: seq<string>)
    requires AllSlashFree(st)
    ensures RemoveLast(Out(st)) == Out(Pop(st))
  {
    if st != [] {
      RemoveLastSlashFree(Out(Pop(st)), st[|st| - 1]);
    }
  }

  /** The rest of the input after its first segment. */
  lemma {:induction false} OutCons(x: string, segs: seq<string>)
    ensures Out([x] + segs) == "/" + x + Out(segs)
  {
    OutEmpty();
    hide Out;
    if segs == [] {
      OutSnoc([], x);
      assert [x] + segs == [] + [x];
      assert "/" + x + "" == "" + "/" + x;
    } else {
      var n := |segs| - 1;
      var c, y := segs[..n], segs[n];
      OutCons(x, c);
      OutSnoc([x] + c, y);
      OutSnoc(c, y);
      assert segs == c + [y];
      assert [x] + segs == [x] + c + [y];
      Regroup("/" + x, Out(c), y);
    }
  }

  lemma OutEmpty()
    ensures Out([]) == ""
  {}

  lemma Regroup(a: string, b: string, y: string)
    ensures a + b + "/" + y == a + (b + "/" + y)
  {}

  /** What rule the input "/x" + tail falls under, tail being empty or starting
      with a slash. */
  lemma FirstRule(x: string, tail: string, o: string)
    requires SlashFree(x) && (tail == "" || tail[0] == '/')
    ensures x == "." && tail != "" ==> RemoveDotSegments("/" + x + tail, o) == RemoveDotSegments(tail, o)
    ensures x == ".." && tail != "" ==> RemoveDotSegments("/" + x + tail, o) == RemoveDotSegments(tail, RemoveLast(o))
    ensures x == "." && tail == "" ==> RemoveDotSegments("/" + x + tail, o) == o + "/"
    ensures x == ".." && tail == "" ==> RemoveDotSegments("/" + x + tail, o) == RemoveLast(o) + "/"
    ensures !IsDot(x) ==> RemoveDotSegments("/" + x + tail, o) == RemoveDotSegments(tail, o + "/" + x)
  {
    hide RemoveDotSegments, RemoveLast;
    if x == "." {
      DotRule(tail, o);
    } else if x == ".." {
      DotDotRule(tail, o);
    } else {
      NameRule(x, tail, o);
    }
  }

  /** Rules 2B, 2C and 2E, one unfolding each. */
  lemma Unfold(s: string, o: string)
    requires s != "" && s[0] == '/'
    ensures StartsWith(s, "/./") ==> RemoveDotSegments(s, o) == RemoveDotSegments(Rest(s, 2), o)
    ensures StartsWith(s, "/../") && !StartsWith(s, "/./") && s != "/." ==>
              RemoveDotSegments(s, o) == RemoveDotSegments(Rest(s, 3), RemoveLast(o))
    ensures !StartsWith(s, "/./") && s != "/." && !StartsWith(s, "/../") && s != "/.." ==>
              RemoveDotSegments(s, o) == RemoveDotSegments(Rest(s, FirstLength(s)), o + s[..FirstLength(s)])
  {
    hide RemoveLast, FirstLength;
    OtherHead(s, "../");
    OtherHead(s, "./");
    OtherHead(s, ".");
    OtherHead(s, "..");
  }

  lemma OtherHead(s: string, p: string)
    requires s != "" && p != "" && s[0] != p[0]
    ensures !StartsWith(s, p) && s != p
  {}

  lemma UnfoldEnds(o: string)
    ensures RemoveDotSegments("/.", o) == RemoveDotSegments("/", o)
    ensures RemoveDotSegments("/..", o) == RemoveDotSegments("/", RemoveLast(o))
  {
    hide RemoveLast, FirstLength;
    OtherHead("/.", "../");
    OtherHead("/.", "./");
    OtherHead("/..", "../");
    OtherHead("/..", "./");
    assert |"/."| == 2 && |"/.."| == 3 && |"/./"| == 3 && |"/../"| == 4;
    assert "/.."[2] != "/./"[2];
  }

  lemma DotRule(tail: string, o: string)
    requires tail == "" || tail[0] == '/'
    ensures RemoveDotSegments("/" + "." + tail, o) == if tail == "" then o + "/" else RemoveDotSegments(tail, o)
  {
    var s := "/" + "." + tail;
    LoneSlash(o);
    UnfoldEnds(o);
    Unfold(s, o);
    hide RemoveDotSegments, RemoveLast, FirstLength;
    if tail == "" {
      assert s == "/.";
    } else {
      assert s[..3] == "/./";
      assert Rest(s, 2) == tail;
    }
  }

  lemma DotDotRule(tail: string, o: string)
    requires tail == "" || tail[0] == '/'
    ensures RemoveDotSegments("/" + ".." + tail, o) ==
            if tail == "" then RemoveLast(o) + "/" else RemoveDotSegments(tail, RemoveLast(o))
  {
    var s := "/" + ".." + tail;
    LoneSlash(RemoveLast(o));
    UnfoldEnds(o);
    Unfold(s, o);
    hide RemoveDotSegments, RemoveLast, FirstLength;
    if tail == "" {
      assert s == "/..";
    } else {
      assert s[..4] == "/../";
      assert s[2] != "/./"[2];
      assert Rest(s, 3) == tail;
    }
  }

  lemma NameRule(x: string, tail: string, o: string)
    requires SlashFree(x) && (tail == "" || tail[0] == '/') && !IsDot(x)
    ensures RemoveDotSegments("/" + x + tail, o) == RemoveDotSegments(tail, o + "/" + x)
  {
    var s := "/" + x + tail;
    NoDotRule(x, tail);
    FirstSegment(x, tail);
    Unfold(s, o);
    hide *;
    GlueName(o, x);
  }

  lemma GlueName(o: string, x: string)
    ensures o + ("/" + x) == o + "/" + x
  {
  }

  lemma FirstSegment(x: string, tail: string)
    requires SlashFree(x) && (tail == "" || tail[0] == '/')
    ensures var s := "/" + x + tail; var n := FirstLength(s); s[..n] == "/" + x && Rest(s, n) == tail
  {
    var s := "/" + x + tail;
    var n := FirstLength(s);
    assert forall k | 0 <= k < |x| :: s[1 + k] == x[k];
    assert tail != "" ==> s[1 + |x|] == '/';
    assert n == 1 + |x|;
  }

  lemma LoneSlash(o: string)
    ensures RemoveDotSegments("/", o) == o + "/"
  {
    assert FirstLength("/") == 1;
    assert "/"[..1] == "/" && Rest("/", 1) == "";
  }

  lemma NoDotRule(x: string, tail: string)
    requires SlashFree(x) && (tail == "" || tail[0] == '/') && !IsDot(x)
    ensures var s := "/" + x + tail;
            && s != "" && !StartsWith(s, "../") && !StartsWith(s, "./")
            && !StartsWith(s, "/./") && s != "/." && !StartsWith(s, "/../") && s != "/.."
            && s != "." && s != ".."
  {
    var s := "/" + x + tail;
    assert s[0] == '/';
    assert forall k | 0 <= k < |x| :: s[1 + k] == x[k];
    assert tail != "" ==> s[1 + |x|] == '/';
    if StartsWith(s, "/./") { assert s[1] == "/./"[1] && s[2] == "/./"[2]; DotName(x, tail); }
    if StartsWith(s, "/../") { assert s[1] == "/../"[1] && s[2] == "/../"[2] && s[3] == "/../"[3]; DotName(x, tail); }
    DotName(x, tail);
  }

  lemma DotName(x: string, tail: string)
    ensures x == "." <==> |x| == 1 && x[0] == '.'
    ensures x == ".." <==> |x| == 2 && x[0] == '.' && x[1] == '.'
  {}

  /** On an absolute path the text algorithm is the stack machine on its segments. */
  lemma {:induction false} RemoveDotsOnSegments(st: seq<string>, segs: seq<string>)
    requires AllSlashFree(st) && AllSlashFree(segs) && segs != []
    ensures RemoveDotSegments(Out(segs), Out(st)) == Out(Closed(Forward(st, segs), segs[|segs| - 1]))
    decreases |segs|
  {
    var x, rest := segs[0], Rest(segs, 1);
    RestCons(segs, 0);
    RestWhole(segs);
    assert segs == [x] + rest;
    OutCons(x, rest);
    ForwardConcat(st, [x], rest);
    ForwardSnoc(st, [], x);
    assert [] + [x] == [x];
    var st1 := Apply(st, x);
    assert Forward(st, segs) == Forward(st1, rest);
    OutSnoc(st, x);
    RemoveLastOut(st);
    OutSnoc(st1, "");
    hide Out, Forward, RemoveDotSegments;
    if rest == [] {
      EndOfInput(st, x);
    } else {
      OutFirst(rest);
      FirstRule(x, Out(rest), Out(st));
      RemoveDotsOnSegments(st1, rest);
    }
  }

  lemma OutFirst(segs: seq<string>)
    requires segs != []
    ensures Out(segs) != "" && Out(segs)[0] == '/'
  {
    OutCons(segs[0], Rest(segs, 1));
    hide Out;
    assert segs == [segs[0]] + Rest(segs, 1);
  }

  lemma EndOfInput(st: seq<string>, x: string)
    requires AllSlashFree(st) && SlashFree(x)
    ensures RemoveDotSegments("/" + x + Out([]), Out(st)) == Out(Closed(Forward(Apply(st, x), []), x))
  {
    var st1 := Apply(st, x);
    assert Out([]) == "" && Forward(st1, []) == st1;
    OutSnoc(st, x);
    RemoveLastOut(st);
    OutSnoc(st1, "");
    assert Out(st1) + "/" + "" == Out(st1) + "/";
    assert forall o :: RemoveDotSegments("", o) == o;
    FirstRule(x, "", Out(st));
  }
}
