/** lib_js/querystring.js, qsEscape and unescapeBuffer as the loops they are. */
module PercentLoops {
  import opened Options
  import opened Slices
  import opened PercentText
  import opened PercentCoding

  /** What has been written, the slice that is still to be copied, and the text
      from i on give the result. */
  ghost predicate Escaping(s: seq<int>, out: seq<int>, lastPos: int, i: int) {
    && 0 <= lastPos <= i <= |s|
    && Escaped(s) == Prefixed(out + Sub(s, lastPos, i), Escaped(Rest(s, i)))
    && (lastPos == 0 ==> out == [])
  }

  /** n units read, and e to be written for them: the slice is flushed. */
  lemma EscapingFlush(s: seq<int>, out: seq<int>, lastPos: int, i: int, n: int, e: seq<int>)
    requires Escaping(s, out, lastPos, i) && 0 < n && i + n <= |s|
    requires Escaped(Rest(s, i)) == Prefixed(e, Escaped(Rest(s, i + n)))
    ensures Escaping(s, out + Sub(s, lastPos, i) + e, i + n, i + n)
  {
    hide Escaped, Prefixed, Sub, Rest;
    var mid := out + Sub(s, lastPos, i);
    PrefixedTwice(mid, e, Escaped(Rest(s, i + n)));
    EmptySub(s, i + n);
    assert mid + e + [] == mid + e;
  }

  /** A character that stays as it is: the slice grows. */
  lemma EscapingGrow(s: seq<int>, out: seq<int>, lastPos: int, i: int)
    requires Escaping(s, out, lastPos, i) && i < |s|
    requires Escaped(Rest(s, i)) == Prefixed([s[i]], Escaped(Rest(s, i + 1)))
    ensures Escaping(s, out, lastPos, i + 1)
  {
    hide Escaped, Prefixed, Sub, Rest;
    var mid := out + Sub(s, lastPos, i);
    PrefixedTwice(mid, [s[i]], Escaped(Rest(s, i + 1)));
    SubSnoc(s, lastPos, i);
    Associate(out, Sub(s, lastPos, i), [s[i]]);
  }

  lemma EmptySub(s: seq<int>, k: int)
    requires 0 <= k <= |s|
    ensures Sub(s, k, k) == []
  {}

  /** The character at the front of t. */
  lemma FrontUnits(t: seq<int>)
    requires t != []
    ensures Surrogate(t[0]) && |t| == 1 ==> Escaped(t) == None
    ensures Surrogate(t[0]) && |t| > 1 ==> Escaped(t) == Prefixed(EscapePoint(Paired(t[0], t[1])), Escaped(Rest(t, 2)))
    ensures !Surrogate(t[0]) ==> Escaped(t) == Prefixed(EscapePoint(t[0]), Escaped(Rest(t, 1)))
  {
    hide EscapePoint, Prefixed;
  }

  /** One character read. */
  lemma EscapingStep(s: seq<int>, out: seq<int>, lastPos: int, i: int)
    requires Escaping(s, out, lastPos, i) && i < |s|
    ensures NoEscape(s[i]) ==> Escaping(s, out, lastPos, i + 1)
    ensures Surrogate(s[i]) && i + 1 == |s| ==> Escaped(s) == None
    ensures Surrogate(s[i]) && i + 1 < |s| ==>
              Escaping(s, out + Sub(s, lastPos, i) + EscapePoint(Paired(s[i], s[i + 1])), i + 2, i + 2)
    ensures !Surrogate(s[i]) ==> Escaping(s, out + Sub(s, lastPos, i) + EscapePoint(s[i]), i + 1, i + 1)
  {
    hide Escaped, EscapePoint, Paired, Sub, Rest, Surrogate, NoEscape;
    FrontUnits(Rest(s, i));
    RestRest(s, i, 1);
    if NoEscape(s[i]) {
      PlainPoint(s[i]);
      EscapingGrow(s, out, lastPos, i);
    }
    if Surrogate(s[i]) {
      if i + 1 < |s| {
        RestRest(s, i, 2);
        EscapingFlush(s, out, lastPos, i, 2, EscapePoint(Paired(s[i], s[i + 1])));
      }
    } else {
      EscapingFlush(s, out, lastPos, i, 1, EscapePoint(s[i]));
    }
  }

  lemma PlainPoint(c: int)
    requires NoEscape(c)
    ensures EscapePoint(c) == [c] && !Surrogate(c)
  {}

  lemma RestRest(s: seq<int>, i: int, n: int)
    requires 0 <= i && 0 <= n && i + n <= |s|
    ensures Rest(Rest(s, i), n) == Rest(s, i + n)
  {}

  lemma PrefixedTwice(a: seq<int>, b: seq<int>, o: Option<seq<int>>)
    ensures Prefixed(a, Prefixed(b, o)) == Prefixed(a + b, o)
  {
    if o.Some? { assert a + (b + o.value) == a + b + o.value; }
  }

  lemma EscapingStart(s: seq<int>)
    ensures Escaping(s, [], 0, 0)
  {
    SubWhole(s);
    RestWhole(s);
    assert [] + Sub(s, 0, 0) == [];
    match Escaped(s) case None => case Some(b) => assert [] + b == b;
  }

  lemma EscapingEnd(s: seq<int>, out: seq<int>, lastPos: int)
    requires Escaping(s, out, lastPos, |s|)
    ensures Escaped(s) == Some(out + Sub(s, lastPos, |s|))
    ensures lastPos == 0 ==> Escaped(s) == Some(s)
    ensures lastPos == |s| ==> Escaped(s) == Some(out)
  {
    RestWhole(s);
    SubWhole(s);
    assert Escaped([]) == Some([]);
    hide Escaped;
    var mid := out + Sub(s, lastPos, |s|);
    assert mid + [] == mid;
    if lastPos == |s| { assert Sub(s, |s|, |s|) == [] && out + [] == out; }
    assert [] + s == s;
  }

  /** The bytes that the source writes for each length of character. */
  lemma EscapeUnits(v: int)
    requires 0 <= v < 0x110000
    ensures v < 0x80 && !NoEscape(v) ==> EscapePoint(v) == Escape1(v)
    ensures 0x80 <= v < 0x800 ==> EscapePoint(v) == Escape1(0xC0 + v / 64) + Escape1(0x80 + v % 64)
    ensures 0x800 <= v < 0x10000 ==>
              EscapePoint(v) == Escape1(0xE0 + v / 4096) + Escape1(0x80 + v / 64 % 64) + Escape1(0x80 + v % 64)
    ensures 0x10000 <= v ==>
              EscapePoint(v) == Escape1(0xF0 + v / 262144) + Escape1(0x80 + v / 4096 % 64) + Escape1(0x80 + v / 64 % 64)
                                + Escape1(0x80 + v % 64)
  {
    var b := Utf8(v);
    hide Escape1;
    EscapeSplit(b);
  }

  lemma EscapeSplit(b: seq<int>)
    ensures |b| == 1 ==> EscapeBytes(b) == Escape1(b[0])
    ensures |b| == 2 ==> EscapeBytes(b) == Escape1(b[0]) + Escape1(b[1])
    ensures |b| == 3 ==> EscapeBytes(b) == Escape1(b[0]) + Escape1(b[1]) + Escape1(b[2])
    ensures |b| == 4 ==> EscapeBytes(b) == Escape1(b[0]) + Escape1(b[1]) + Escape1(b[2]) + Escape1(b[3])
  {
    if 1 <= |b| <= 4 {
      EscapeCons(b);
      if |b| > 1 { EscapeCons(b[1..]); }
      if |b| > 2 { EscapeCons(b[1..][1..]); }
      if |b| > 3 { EscapeCons(b[1..][1..][1..]); }
      assert EscapeBytes([]) == [];
      hide EscapeBytes, Escape1;
    }
  }

  /** `out` and the slice that is due before an escape. */
  function Flushed(s: seq<int>, out: seq<int>, lastPos: int, i: int): seq<int>
    requires 0 <= lastPos <= i <= |s|
  {
    if lastPos < i then out + Sub(s, lastPos, i) else out
  }

  lemma FlushedIs(s: seq<int>, out: seq<int>, lastPos: int, i: int)
    requires 0 <= lastPos <= i <= |s|
    ensures Flushed(s, out, lastPos, i) == out + Sub(s, lastPos, i)
  {
    assert out + [] == out;
  }

  /** qsEscape. */
  method QsEscape(str: seq<int>) returns (r: Option<seq<int>>)
    requires Units(str)
    ensures r == Escaped(str)
  {
    hide Escaped, EscapePoint, Escaping, Sub, Rest, Escape1;
    var out, lastPos, i := [], 0, 0;
    EscapingStart(str);
    while i < |str|
      invariant 0 <= lastPos <= i <= |str| && Escaping(str, out, lastPos, i)
      decreases |str| - i
    {
      var c := str[i];
      EscapingStep(str, out, lastPos, i);
      FlushedIs(str, out, lastPos, i);
      EscapeUnits(c);
      if c < 0x80 && NoEscape(c) {
        i := i + 1;
        continue;
      }
      var flushed := Flushed(str, out, lastPos, i);
      if c < 0x80 {
        out := flushed + Escape1(c);
      } else if c < 0x800 {
        out := flushed + (Escape1(0xC0 + c / 64) + Escape1(0x80 + c % 64));
      } else if c < 0xD800 || c >= 0xE000 {
        out := flushed + (Escape1(0xE0 + c / 4096) + Escape1(0x80 + c / 64 % 64) + Escape1(0x80 + c % 64));
      } else {
        i := i + 1;
        if i >= |str| { return None; }
        var v := Paired(c, str[i]);
        EscapeUnits(v);
        out := flushed + (Escape1(0xF0 + v / 262144) + Escape1(0x80 + v / 4096 % 64) + Escape1(0x80 + v / 64 % 64)
                          + Escape1(0x80 + v % 64));
      }
      lastPos, i := i + 1, i + 1;
    }
    EscapingEnd(str, out, lastPos);
    if lastPos == 0 { return Some(str); }
    if lastPos < |str| { return Some(out + Sub(str, lastPos, |str|)); }
    return Some(out);
  }

  // ---- unescapeBuffer -----------------------------------------------------------------------

  /** What has been written, and what the text from `index` on still gives. */
  ghost predicate Unescaping(s: seq<int>, spaces: bool, done: seq<int>, index: int) {
    0 <= index <= |s| && |done| <= index && Unescaped(s, spaces) == done + Unescaped(Rest(s, index), spaces)
  }

  lemma UnescapingStep(s: seq<int>, spaces: bool, done: seq<int>, index: int)
    requires Unescaping(s, spaces, done, index) && index < |s|
    ensures var t := Rest(s, index); Unescaping(s, spaces, done + Written(t, spaces), index + Taken(t))
  {
    var t := Rest(s, index);
    UnescapedStep(t, spaces);
    TripleTaken(t);
    hide Unescaped, Written, Taken, Rest, Triple;
    RestRest(s, index, Taken(t));
    Associate(done, Written(t, spaces), Unescaped(Rest(t, Taken(t)), spaces));
  }

  lemma TripleTaken(t: seq<int>)
    requires t != []
    ensures Triple(t) ==> Taken(t) == 3
  {}

  lemma UnescapedStep(t: seq<int>, spaces: bool)
    requires t != []
    ensures Unescaped(t, spaces) == Written(t, spaces) + Unescaped(Rest(t, Taken(t)), spaces)
  {}

  lemma UnescapingEnds(s: seq<int>, spaces: bool)
    ensures Unescaping(s, spaces, [], 0)
    ensures forall done :: Unescaping(s, spaces, done, |s|) ==> Unescaped(s, spaces) == done
  {
    RestWhole(s);
    assert [] + Unescaped(s, spaces) == Unescaped(s, spaces);
    assert Unescaped([], spaces) == [];
    forall done | Unescaping(s, spaces, done, |s|) ensures Unescaped(s, spaces) == done { assert done + [] == done; }
  }

  /** The front of the rest of s, read off s itself. */
  lemma FrontAt(s: seq<int>, spaces: bool, index: int)
    requires 0 <= index < |s|
    ensures var t, c := Rest(s, index), s[index];
            && (spaces && c == 43 ==> Taken(t) == 1 && Written(t, spaces) == [32] && !Triple(t))
            && (!(spaces && c == 43) && !(c == 37 && index < |s| - 2) ==>
                  Taken(t) == 1 && Written(t, spaces) == [c % 256] && !Triple(t))
            && (c == 37 && index < |s| - 2 && Unhex(s[index + 1]) < 0 ==>
                  Taken(t) == 2 && Written(t, spaces) == [37, s[index + 1] % 256] && !Triple(t))
            && (c == 37 && index < |s| - 2 && Unhex(s[index + 1]) >= 0 && Unhex(s[index + 2]) < 0 ==>
                  Taken(t) == 3 && Written(t, spaces) == [37, s[index + 1] % 256, s[index + 2] % 256] && !Triple(t))
            && (c == 37 && index < |s| - 2 && Unhex(s[index + 1]) >= 0 && Unhex(s[index + 2]) >= 0 ==>
                  Taken(t) == 3 && Written(t, spaces) == [(16 * Unhex(s[index + 1]) + Unhex(s[index + 2])) % 256]
                      && Triple(t))
  {
    hide Unescaped;
    var t := Rest(s, index);
    assert t[0] == s[index];
    if index < |s| - 2 { assert t[1] == s[index + 1] && t[2] == s[index + 2]; }
  }

  /** unescapeBuffer: the output never gets ahead of the input, and the buffer is
      exactly full unless an escape was decoded. */
  method UnescapeBuffer(s: seq<int>, decodeSpaces: bool) returns (out: array<int>, length: int)
    requires Units(s)
    ensures out.Length == |s| && 0 <= length <= |s|
    ensures out[..length] == Unescaped(s, decodeSpaces)
  {
    hide Unescaped, Unescaping, Written, Taken, Rest, Unhex, Triple;
    out := new int[|s|];
    var index, outIndex, hasHex := 0, 0, false;
    UnescapingEnds(s, decodeSpaces);
    assert out[..0] == [];
    while index < |s|
      invariant 0 <= outIndex <= index <= |s| && Unescaping(s, decodeSpaces, out[..outIndex], index)
      invariant hasHex <==> outIndex < index
      decreases |s| - index
    {
      FrontAt(s, decodeSpaces, index);
      UnescapingStep(s, decodeSpaces, out[..outIndex], index);
      ghost var done, from, written := out[..outIndex], outIndex, Written(Rest(s, index), decodeSpaces);
      var currentChar := s[index];
      if currentChar == 43 && decodeSpaces {
        out[outIndex] := 32;
      } else {
        if currentChar == 37 && index < |s| - 2 {
          index := index + 1;
          currentChar := s[index];
          var hexHigh := Unhex(currentChar);
          if hexHigh < 0 {
            out[outIndex] := 37;
            outIndex := outIndex + 1;
          } else {
            index := index + 1;
            var nextChar := s[index];
            var hexLow := Unhex(nextChar);
            if hexLow < 0 {
              out[outIndex] := 37;
              out[outIndex + 1] := currentChar % 256;
              outIndex := outIndex + 2;
              currentChar := nextChar;
            } else {
              hasHex := true;
              currentChar := hexHigh * 16 + hexLow;
            }
          }
        }
        out[outIndex] := currentChar % 256;
      }
      outIndex, index := outIndex + 1, index + 1;
      assert out[from..outIndex] == written;
      assert out[..outIndex] == done + written;
    }
    length := if hasHex then outIndex else |s|;
  }
}
