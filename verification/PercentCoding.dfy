/** lib_js/querystring.js, escape and unescapeBuffer: the slice-copying loops are
    per-character encoders, and decoding undoes encoding. */
module PercentCoding {
  import opened Options
  import opened Slices
  import opened PercentText

  // ---- one character ------------------------------------------------------------------

  predicate ValidPoint(v: int) { 0 <= v < 0x110000 && !Surrogate(v) }

  predicate Bytes(b: seq<int>) { forall i | 0 <= i < |b| :: 0 <= b[i] < 256 }

  lemma PointOf(s: seq<int>)
    requires s != [] && WellFormed(s)
    ensures ValidPoint(Point(s)) && FromPoint(Point(s)) == Sub(s, 0, Width(s)) && !(Surrogate(s[0]) && |s| == 1)
  {
    if Surrogate(s[0]) { PairedBack(s[0], s[1]); }
    hide Paired;
  }

  lemma PairedBack(c: int, d: int)
    requires High(c) && Low(d)
    ensures 0x10000 <= Paired(c, d) < 0x110000 && FromPoint(Paired(c, d)) == [c, d]
  {
    var v := Paired(c, d) - 0x10000;
    assert c % 0x400 == c - 0xD800 && d % 0x400 == d - 0xDC00;
    assert v / 0x400 == c - 0xD800 && v % 0x400 == d - 0xDC00;
  }

  lemma OctetAt(bytes: seq<int>, k: int, rest: seq<int>)
    requires Bytes(bytes) && 0 <= k < |bytes|
    ensures Octet(EscapeBytes(bytes) + rest, 3 * k) == Some(bytes[k])
  {
    var e := EscapeBytes(bytes);
    assert e[3 * k] == 37 && e[3 * k + 1] == HexUpper(bytes[k] / 16) && e[3 * k + 2] == HexUpper(bytes[k] % 16);
    UnhexHex(bytes[k]);
  }

  lemma Utf8Bytes(v: int)
    requires ValidPoint(v)
    ensures Bytes(Utf8(v)) && 1 <= |Utf8(v)| <= 4
    ensures |Utf8(v)| == 1 <==> v < 0x80
  {}

  /** Decoding reads exactly the escape of a character. */
  lemma FrontEscaped(v: int, rest: seq<int>)
    requires ValidPoint(v) && !NoEscape(v)
    ensures var e := EscapeBytes(Utf8(v)); e != [] && Front(e + rest) == Some((|e|, v))
  {
    hide EscapeBytes, Octet, Utf8;
    var b := Utf8(v);
    Utf8Bytes(v);
    OctetAt(b, 0, rest);
    if |b| > 1 { OctetAt(b, 1, rest); }
    if |b| > 2 { OctetAt(b, 2, rest); }
    if |b| > 3 { OctetAt(b, 3, rest); }
    OctetFirst(EscapeBytes(b) + rest);
    Utf8Value(v);
  }

  lemma OctetFirst(s: seq<int>)
    ensures Octet(s, 0).Some? ==> s[0] == 37
  {}

  /** The bits of the bytes put together again. */
  lemma Utf8Value(v: int)
    requires ValidPoint(v)
    ensures var b := Utf8(v);
            && (|b| == 1 ==> b[0] == v < 0x80)
            && (|b| == 2 ==> 0xC2 <= b[0] < 0xE0 && (b[0] - 0xC0) * 64 + (b[1] - 0x80) == v)
            && (|b| == 3 ==>
                  0xE0 <= b[0] < 0xF0 && (b[0] - 0xE0) * 4096 + (b[1] - 0x80) * 64 + (b[2] - 0x80) == v >= 0x800)
            && (|b| == 4 ==> 0xF0 <= b[0] < 0xF5 && v >= 0x10000
                             && (b[0] - 0xF0) * 262144 + (b[1] - 0x80) * 4096 + (b[2] - 0x80) * 64 + (b[3] - 0x80) == v)
            && forall i | 1 <= i < |b| :: 0x80 <= b[i] < 0xC0
  {
    Base64(v);
  }

  /** The digits of v to the base 64. */
  lemma Base64(v: int)
    requires 0 <= v < 0x110000
    ensures v == 64 * (v / 64) + v % 64
    ensures v == 4096 * (v / 4096) + 64 * (v / 64 % 64) + v % 64
    ensures v == 262144 * (v / 262144) + 4096 * (v / 4096 % 64) + 64 * (v / 64 % 64) + v % 64
    ensures v / 262144 < 5
  {
    var x := v / 64;
    assert v / 4096 == x / 64;
    var y := x / 64;
    assert v / 262144 == y / 64;
  }

  lemma EscapedPart(v: int, rest: seq<int>)
    requires ValidPoint(v)
    ensures var e := EscapePoint(v); e != [] && Front(e + rest) == Some((|e|, v)) && Rest(e + rest, |e|) == rest
  {
    if NoEscape(v) {
      assert ([v] + rest)[0] == v;
    } else {
      FrontEscaped(v, rest);
    }
  }

  // ---- decoding undoes encoding ------------------------------------------------------------

  lemma WellFormedRest(s: seq<int>)
    requires s != [] && WellFormed(s)
    ensures WellFormed(Rest(s, Width(s)))
  {}

  /** decodeURIComponent(escape(s)) == s for well-formed text. */
  lemma {:induction false} DecodeEscaped(s: seq<int>)
    requires WellFormed(s)
    ensures Escaped(s).Some? && DecodeUri(Escaped(s).value) == Some(s)
    decreases |s|
  {
    if s != [] {
      var v, n := Point(s), Width(s);
      PointOf(s);
      WellFormedRest(s);
      DecodeEscaped(Rest(s, n));
      var tail := Escaped(Rest(s, n)).value;
      EscapedPart(v, tail);
      EscapedStep(s);
      hide EscapePoint, WellFormed, Escaped, Front, Sub, Rest, Surrogate, Width, Point, FromPoint;
      DecodeStep(EscapePoint(v) + tail);
      SubRest(s, n);
    }
  }

  lemma EscapedStep(s: seq<int>)
    requires s != [] && !(Surrogate(s[0]) && |s| == 1)
    ensures Escaped(s) == Prefixed(EscapePoint(Point(s)), Escaped(Rest(s, Width(s))))
  {}

  lemma DecodeStep(t: seq<int>)
    requires t != [] && Front(t).Some?
    ensures DecodeUri(t) == Prefixed(FromPoint(Front(t).value.1), DecodeUri(Rest(t, Front(t).value.0)))
  {}

  /** Unescaping the escape of bytes. */
  lemma {:induction false} UnescapeBytes(bytes: seq<int>, rest: seq<int>, spaces: bool)
    requires Bytes(bytes)
    ensures Unescaped(EscapeBytes(bytes) + rest, spaces) == bytes + Unescaped(rest, spaces)
    decreases |bytes|
  {
    hide Unescaped, Escape1;
    if bytes == [] {
      assert EscapeBytes(bytes) + rest == rest;
      assert bytes + Unescaped(rest, spaces) == Unescaped(rest, spaces);
    } else {
      var b := bytes[1..];
      UnescapeBytes(b, rest, spaces);
      var t := EscapeBytes(bytes) + rest;
      EscapeCons(bytes);
      assert t == Escape1(bytes[0]) + (EscapeBytes(b) + rest);
      UnescapeOne(bytes[0], EscapeBytes(b) + rest, spaces);
      assert bytes == [bytes[0]] + b;
      assert [bytes[0]] + (b + Unescaped(rest, spaces)) == bytes + Unescaped(rest, spaces);
    }
  }

  lemma EscapeCons(bytes: seq<int>)
    requires bytes != []
    ensures EscapeBytes(bytes) == Escape1(bytes[0]) + EscapeBytes(bytes[1..])
  {
    var b := bytes[1..];
    var l, r := EscapeBytes(bytes), Escape1(bytes[0]) + EscapeBytes(b);
    forall i | 0 <= i < |l| ensures l[i] == r[i] {
      if i >= 3 { assert (i - 3) / 3 == i / 3 - 1 && (i - 3) % 3 == i % 3; }
    }
  }

  lemma UnescapeTriple(t: seq<int>, spaces: bool)
    requires Triple(t)
    ensures Unescaped(t, spaces) == [16 * Unhex(t[1]) + Unhex(t[2])] + Unescaped(Rest(t, 3), spaces)
  {}

  lemma UnescapeOne(b: int, rest: seq<int>, spaces: bool)
    requires 0 <= b < 256
    ensures Unescaped(Escape1(b) + rest, spaces) == [b] + Unescaped(rest, spaces)
  {
    hide Unescaped, Unhex, HexUpper;
    var t := Escape1(b) + rest;
    UnhexHex(b);
    assert t[0] == 37 && t[1] == HexUpper(b / 16) && t[2] == HexUpper(b % 16);
    UnescapeTriple(t, spaces);
    assert Rest(t, 3) == rest;
  }

  /** unescapeBuffer(escape(s)) is the UTF-8 encoding of s. */
  lemma {:induction false} UnescapeEscaped(s: seq<int>, spaces: bool)
    requires WellFormed(s)
    ensures Escaped(s).Some? && Unescaped(Escaped(s).value, spaces) == Encoded(s)
    decreases |s|
  {
    if s != [] {
      var v, n := Point(s), Width(s);
      PointOf(s);
      WellFormedRest(s);
      UnescapeEscaped(Rest(s, n), spaces);
      EscapedStep(s);
      var tail := Escaped(Rest(s, n)).value;
      Utf8Bytes(v);
      if NoEscape(v) {
        UnescapePlain(v, tail, spaces);
      } else {
        UnescapeBytes(Utf8(v), tail, spaces);
      }
    }
  }

  lemma UnescapePlain(v: int, rest: seq<int>, spaces: bool)
    requires NoEscape(v)
    ensures Unescaped([v] + rest, spaces) == [v] + Unescaped(rest, spaces) && Utf8(v) == [v]
  {
    assert Rest([v] + rest, 1) == rest;
  }

  // ---- the alphabet of the output ------------------------------------------------------------

  predicate UpperHex(c: int) { 48 <= c <= 57 || 65 <= c <= 70 }

  /** The unreserved characters, section 2.3 of RFC 2396. */
  predicate Unreserved(c: int) {
    || 'A' as int <= c <= 'Z' as int || 'a' as int <= c <= 'z' as int || '0' as int <= c <= '9' as int
    || c == '-' as int || c == '_' as int || c == '.' as int || c == '!' as int || c == '~' as int
    || c == '*' as int || c == '\'' as int || c == '(' as int || c == ')' as int
  }

  /** These, and no others, stay as they are. */
  lemma EscapesExactly(v: int)
    ensures NoEscape(v) <==> Unreserved(v)
    ensures ValidPoint(v) ==> (EscapePoint(v) == [v] <==> Unreserved(v))
  {
    if ValidPoint(v) { assert |EscapeBytes(Utf8(v))| == 3 * |Utf8(v)|; }
  }

  /** What the digits of an escape count, in either case. */
  lemma UnhexIs(k: int)
    ensures 0 <= k < 10 ==> Unhex('0' as int + k) == k
    ensures 0 <= k < 6 ==> Unhex('a' as int + k) == Unhex('A' as int + k) == 10 + k
  {}

  /** Text without a "%" is its own unescaping, but for the plus signs. */
  lemma {:induction false} UnescapesPlain(s: seq<int>, spaces: bool)
    requires Units(s) && '%' as int !in s
    ensures |Unescaped(s, spaces)| == |s|
    ensures forall i | 0 <= i < |s| ::
              Unescaped(s, spaces)[i] == if spaces && s[i] == '+' as int then ' ' as int else s[i] % 256
    decreases |s|
  {
    if s != [] {
      var rest := Rest(s, 1);
      assert forall i | 0 <= i < |rest| :: rest[i] == s[i + 1];
      UnescapesPlain(rest, spaces);
      assert s[0] in s && Taken(s) == 1;
      assert Unescaped(s, spaces) == Written(s, spaces) + Unescaped(rest, spaces);
    }
  }

  /** Text in which no "%" starts an escape is its own unescaping. */
  lemma {:induction false} UnescapesStray(s: seq<int>)
    requires Units(s) && forall k | 0 <= k < |s| :: !Triple(Rest(s, k))
    ensures |Unescaped(s, false)| == |s| && forall i | 0 <= i < |s| :: Unescaped(s, false)[i] == s[i] % 256
    decreases |s|
  {
    if s != [] {
      var n := Taken(s);
      var rest := Rest(s, n);
      RestWhole(s);
      assert !Triple(Rest(s, 0));
      forall k | 0 <= k < |rest| ensures !Triple(Rest(rest, k)) { assert Rest(rest, k) == Rest(s, n + k); }
      UnescapesStray(rest);
      assert Unescaped(s, false) == Written(s, false) + Unescaped(rest, false);
    }
  }

  /** A surrogate that is left alone at the end of a text cannot be escaped. */
  lemma {:induction false} LoneSurrogate(a: seq<int>, c: int)
    requires WellFormed(a) && Surrogate(c)
    ensures Escaped(a + [c]) == None
    decreases |a|
  {
    var s := a + [c];
    if a == [] {
      assert s == [c];
    } else {
      WellFormedRest(a);
      LoneSurrogate(Rest(a, Width(a)), c);
      assert s[0] == a[0] && (|a| > 1 ==> s[1] == a[1]);
      assert Width(s) == Width(a);
      assert Rest(s, Width(s)) == Rest(a, Width(a)) + [c];
    }
  }

  /** Only unreserved characters and %HH triples. */
  predicate Safe(s: seq<int>)
    decreases |s|
  {
    || s == []
    || (Unreserved(s[0]) && Safe(Rest(s, 1)))
    || (|s| >= 3 && s[0] == 37 && UpperHex(s[1]) && UpperHex(s[2]) && Safe(Rest(s, 3)))
  }

  lemma {:induction false} SafeBytes(bytes: seq<int>, rest: seq<int>)
    requires Bytes(bytes) && Safe(rest)
    ensures Safe(EscapeBytes(bytes) + rest)
    decreases |bytes|
  {
    hide Safe, EscapeBytes, Escape1;
    if bytes == [] {
      assert EscapeBytes(bytes) + rest == rest;
    } else {
      SafeBytes(bytes[1..], rest);
      EscapeCons(bytes);
      assert EscapeBytes(bytes) + rest == Escape1(bytes[0]) + (EscapeBytes(bytes[1..]) + rest);
      SafeTriple(bytes[0], EscapeBytes(bytes[1..]) + rest);
    }
  }

  lemma SafeTriple(b: int, rest: seq<int>)
    requires 0 <= b < 256 && Safe(rest)
    ensures Safe(Escape1(b) + rest)
  {
    var t := Escape1(b) + rest;
    HexIsUpper(b);
    assert t[0] == 37 && t[1] == HexUpper(b / 16) && t[2] == HexUpper(b % 16);
    hide HexUpper, UpperHex;
    assert Rest(t, 3) == rest;
  }

  lemma HexIsUpper(b: int)
    requires 0 <= b < 256
    ensures UpperHex(HexUpper(b / 16)) && UpperHex(HexUpper(b % 16))
  {}

  /** escape writes nothing but unreserved characters and %HH triples. */
  lemma {:induction false} EscapedIsSafe(s: seq<int>)
    requires WellFormed(s)
    ensures Escaped(s).Some? && Safe(Escaped(s).value)
    decreases |s|
  {
    if s != [] {
      var v, n := Point(s), Width(s);
      PointOf(s);
      WellFormedRest(s);
      EscapedIsSafe(Rest(s, n));
      EscapedStep(s);
      var tail := Escaped(Rest(s, n)).value;
      Utf8Bytes(v);
      EscapesExactly(v);
      if NoEscape(v) {
        assert Rest([v] + tail, 1) == tail;
      } else {
        SafeBytes(Utf8(v), tail);
      }
    }
  }
}
