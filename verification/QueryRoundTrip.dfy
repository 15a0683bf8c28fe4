/** lib_js/querystring.js, stringify with the default separators, and parse as its
    inverse. */
module QueryRoundTrip {
  import opened Options
  import opened Slices
  import opened PercentText
  import opened PercentCoding
  import opened PercentLoops
  import opened QueryParse
  import opened QueryFlags

  datatype Entry = Entry(key: seq<int>, value: Value)

  /** A value as the list of texts that are written. */
  function Texts(v: Value): seq<seq<int>> {
    match v
    case One(text) => [text]
    case Many(texts) => texts
  }

  predicate Escapable(t: seq<int>) { Escaped(t).Some? }

  function Esc(t: seq<int>): seq<int> {
    match Escaped(t)
    case None => []
    case Some(e) => e
  }

  /** One "key=value". */
  function Field(key: seq<int>, text: seq<int>): seq<int> { Esc(key) + [EQ] + Esc(text) }

  /** The fields of the first n texts of an array, with "&" in between. */
  function ArrayFields(key: seq<int>, texts: seq<seq<int>>, n: int): seq<int>
    requires 0 <= n <= |texts|
  {
    if n == 0 then []
    else ArrayFields(key, texts, n - 1) + Field(key, texts[n - 1]) + (if n < |texts| then [AMP] else [])
  }

  /** The fields of the first n entries. An empty array writes nothing, not even
      the "&" that would follow it. */
  function Fields(entries: seq<Entry>, n: int): seq<int>
    requires 0 <= n <= |entries|
  {
    if n == 0 then []
    else
      var e := entries[n - 1];
      Fields(entries, n - 1) + ArrayFields(e.key, Texts(e.value), |Texts(e.value)|)
      + (if n < |entries| && Texts(e.value) != [] then [AMP] else [])
  }

  predicate AllEscapable(texts: seq<seq<int>>) { forall i | 0 <= i < |texts| :: Escapable(texts[i]) }

  predicate CanWrite(entries: seq<Entry>) {
    forall i | 0 <= i < |entries| :: Escapable(entries[i].key) && AllEscapable(Texts(entries[i].value))
  }

  predicate AllUnits(entries: seq<Entry>) {
    forall i | 0 <= i < |entries| :: Units(entries[i].key)
        && forall j | 0 <= j < |Texts(entries[i].value)| :: Units(Texts(entries[i].value)[j])
  }

  /** stringify; an unpaired surrogate at the end of a text is ERR_INVALID_URI. */
  method Stringify(entries: seq<Entry>) returns (r: Option<seq<int>>)
    requires AllUnits(entries)
    ensures r.Some? <==> CanWrite(entries)
    ensures r.Some? ==> r.value == Fields(entries, |entries|)
  {
    hide Escaped;
    var fields: seq<int>, i := [], 0;
    while i < |entries|
      invariant 0 <= i <= |entries| && CanWrite(entries[..i]) && fields == Fields(entries, i)
    {
      var v := entries[i].value;
      assert entries[..i + 1][i] == entries[i];
      var ks := QsEscape(entries[i].key);
      if ks.None? {
        assert !Escapable(entries[i].key);
        return None;
      }
      var some: Option<seq<int>> := WriteValue(ks.value + [EQ], entries[i].key, Texts(v));
      if some.None? {
        assert !AllEscapable(Texts(entries[i].value));
        return None;
      }
      fields := fields + some.value;
      if i < |entries| - 1 && |Texts(v)| > 0 { fields := fields + [AMP]; }
      assert Fields(entries, i) + some.value + [] == Fields(entries, i) + some.value;
      i := i + 1;
    }
    assert entries[..i] == entries;
    return Some(fields);
  }

  /** The inner loop over the texts of one key. */
  method WriteValue(ks: seq<int>, ghost key: seq<int>, texts: seq<seq<int>>) returns (r: Option<seq<int>>)
    requires Escapable(key) && ks == Esc(key) + [EQ] && forall j | 0 <= j < |texts| :: Units(texts[j])
    ensures r.Some? <==> AllEscapable(texts)
    ensures r.Some? ==> r.value == ArrayFields(key, texts, |texts|)
  {
    hide Escaped;
    var fields: seq<int>, j := [], 0;
    while j < |texts|
      invariant 0 <= j <= |texts| && AllEscapable(texts[..j]) && fields == ArrayFields(key, texts, j)
    {
      assert texts[..j + 1][j] == texts[j];
      var e := QsEscape(texts[j]);
      if e.None? {
        assert !Escapable(texts[j]);
        return None;
      }
      fields := fields + (ks + e.value);
      if j < |texts| - 1 { fields := fields + [AMP]; }
      assert ArrayFields(key, texts, j) + (ks + e.value) + [] == ArrayFields(key, texts, j) + (ks + e.value);
      j := j + 1;
    }
    assert texts[..j] == texts;
    return Some(fields);
  }

  // ---- the text as a list of pieces ---------------------------------------------------------

  /** Every "key=value" in order. */
  function FieldList(entries: seq<Entry>): seq<seq<int>> {
    if entries == [] then []
    else
      FieldList(entries[..|entries| - 1]) +
      ValueFields(entries[|entries| - 1].key, Texts(entries[|entries| - 1].value))
  }

  function ValueFields(key: seq<int>, texts: seq<seq<int>>): (r: seq<seq<int>>)
    ensures |r| == |texts| && forall j | 0 <= j < |r| :: r[j] == Field(key, texts[j])
  {
    seq(|texts|, j requires 0 <= j < |texts| => Field(key, texts[j]))
  }

  function JoinAmp(pieces: seq<seq<int>>): seq<int> {
    if pieces == [] then []
    else if |pieces| == 1 then pieces[0]
    else JoinAmp(pieces[..|pieces| - 1]) + [AMP] + pieces[|pieces| - 1]
  }

  predicate NoAmp(t: seq<int>) { forall k | 0 <= k < |t| :: t[k] != AMP }

  lemma JoinAmpSnoc(a: seq<seq<int>>, x: seq<int>)
    ensures JoinAmp(a + [x]) == if a == [] then x else JoinAmp(a) + [AMP] + x
  {
    assert (a + [x])[..|a|] == a;
  }

  lemma {:induction false} PiecesNoAmp(t: seq<int>, x: seq<int>)
    requires NoAmp(x)
    ensures var p := Pieces(t); var q := Pieces(t + x);
            |q| == |p| && q[..|q| - 1] == p[..|p| - 1] && q[|q| - 1] == p[|p| - 1] + x
  {
    hide Pieces;
    if x == [] {
      assert t + x == t;
      assert Pieces(t)[|Pieces(t)| - 1] + x == Pieces(t)[|Pieces(t)| - 1];
    } else {
      var n := |x| - 1;
      var y, c := x[..n], x[n];
      PiecesNoAmp(t, y);
      PiecesSnoc(t + y, c);
      assert t + x == t + y + [c];
      assert x == y + [c];
      var p := Pieces(t);
      assert p[|p| - 1] + y + [c] == p[|p| - 1] + x;
    }
  }

  /** Cutting undoes joining. */
  lemma {:induction false} PiecesJoin(pieces: seq<seq<int>>)
    requires pieces != [] && forall i | 0 <= i < |pieces| :: NoAmp(pieces[i])
    ensures Pieces(JoinAmp(pieces)) == pieces
  {
    hide Pieces, JoinAmp;
    var n := |pieces| - 1;
    var a, x := pieces[..n], pieces[n];
    assert pieces == a + [x];
    JoinAmpSnoc(a, x);
    if n == 0 {
      PiecesNoAmp([], x);
      OnePiece();
      assert [] + x == x;
    } else {
      PiecesJoin(a);
      PiecesSnoc(JoinAmp(a), AMP);
      PiecesNoAmp(JoinAmp(a) + [AMP], x);
      var p, q := Pieces(JoinAmp(a) + [AMP]), Pieces(JoinAmp(pieces));
      assert p == a + [[]];
      assert [] + x == x;
      assert q == q[..|q| - 1] + [q[|q| - 1]];
    }
  }

  lemma OnePiece()
    ensures Pieces([]) == [[]]
  {}

  lemma {:induction false} ArrayJoin(key: seq<int>, texts: seq<seq<int>>, n: int)
    requires 0 < n <= |texts|
    ensures ArrayFields(key, texts, n) == JoinAmp(ValueFields(key, texts)[..n]) + if n < |texts| then [AMP] else []
  {
    hide Field, JoinAmp;
    var fs := ValueFields(key, texts);
    assert fs[..n] == fs[..n - 1] + [fs[n - 1]];
    JoinAmpSnoc(fs[..n - 1], fs[n - 1]);
    if n > 1 {
      ArrayJoin(key, texts, n - 1);
    } else {
      assert [] + fs[0] == fs[0];
    }
  }

  lemma {:induction false} JoinAmpConcat(a: seq<seq<int>>, b: seq<seq<int>>)
    requires a != [] && b != []
    ensures JoinAmp(a + b) == JoinAmp(a) + [AMP] + JoinAmp(b)
  {
    hide JoinAmp;
    var n := |b| - 1;
    var c, x := b[..n], b[n];
    JoinAmpSnoc(a + c, x);
    JoinAmpSnoc(c, x);
    assert b == c + [x];
    assert a + b == (a + c) + [x];
    if n > 0 {
      JoinAmpConcat(a, c);
      assert JoinAmp(a) + [AMP] + JoinAmp(c) + [AMP] + x == JoinAmp(a) + [AMP] + (JoinAmp(c) + [AMP] + x);
    } else {
      assert a + c == a;
    }
  }

  /** Whether an "&" follows the last of the fields of the first n entries. */
  predicate AmpAfter(entries: seq<Entry>, n: int)
    requires 0 < n <= |entries|
  {
    n < |entries| || Texts(entries[n - 1].value) == []
  }

  /** The fields are joined by "&"; an empty array at the end leaves one behind. */
  lemma {:induction false} FieldsJoin(entries: seq<Entry>, n: int)
    requires 0 < n <= |entries|
    ensures var fs := FieldList(entries[..n]);
            Fields(entries, n) ==
              if fs == [] then [] else JoinAmp(fs) + if AmpAfter(entries, n) then [AMP] else []
  {
    hide ArrayFields, JoinAmp, Fields, FieldList;
    var texts := Texts(entries[n - 1].value);
    FieldsStep(entries, n);
    FieldListStep(entries, n);
    if n > 1 { FieldsJoin(entries, n - 1); }
    var fs, vs := FieldList(entries[..n - 1]), ValueFields(entries[n - 1].key, texts);
    assert [] + vs == vs && [] + JoinAmp(vs) == JoinAmp(vs);
    if texts == [] {
      assert fs + vs == fs;
    } else {
      LastJoin(entries[n - 1].key, texts);
      if fs != [] { JoinAmpConcat(fs, vs); }
    }
  }

  lemma FieldsStep(entries: seq<Entry>, n: int)
    requires 0 < n <= |entries|
    ensures var e := entries[n - 1];
            Fields(entries, n) ==
            if Texts(e.value) == [] then Fields(entries, n - 1)
            else Fields(entries, n - 1) + ArrayFields(e.key, Texts(e.value), |Texts(e.value)|)
                 + if n < |entries| then [AMP] else []
    ensures Fields(entries, 0) == []
  {}

  lemma FieldListStep(entries: seq<Entry>, n: int)
    requires 0 < n <= |entries|
    ensures var e := entries[n - 1];
            FieldList(entries[..n]) == FieldList(entries[..n - 1]) + ValueFields(e.key, Texts(e.value))
    ensures FieldList(entries[..0]) == []
  {
    assert entries[..n][..n - 1] == entries[..n - 1];
  }

  lemma LastJoin(key: seq<int>, texts: seq<seq<int>>)
    requires texts != []
    ensures ArrayFields(key, texts, |texts|) == JoinAmp(ValueFields(key, texts))
  {
    ArrayJoin(key, texts, |texts|);
    assert ValueFields(key, texts)[..|texts|] == ValueFields(key, texts);
  }

  // ---- escaped text --------------------------------------------------------------------------

  /** None of the characters that parse looks for. */
  predicate Inert(t: seq<int>) { forall k | 0 <= k < |t| :: t[k] != AMP && t[k] != EQ && t[k] != PLUS }

  lemma {:induction false} SafeIsInert(t: seq<int>)
    requires Safe(t)
    ensures Inert(t)
    decreases |t|
  {
    if t != [] {
      if Unreserved(t[0]) && Safe(Rest(t, 1)) {
        SafeIsInert(Rest(t, 1));
        InertFront(t, 1);
      } else {
        SafeIsInert(Rest(t, 3));
        InertFront(t, 3);
      }
    }
  }

  lemma InertFront(t: seq<int>, n: int)
    requires 0 <= n <= |t| && Inert(Rest(t, n)) && forall k | 0 <= k < n :: t[k] != AMP && t[k] != EQ && t[k] != PLUS
    ensures Inert(t)
  {
    forall k | 0 <= k < |t| ensures t[k] != AMP && t[k] != EQ && t[k] != PLUS {
      if k >= n { assert Rest(t, n)[k - n] == t[k]; }
    }
  }

  lemma EscInert(t: seq<int>)
    requires WellFormed(t)
    ensures Escapable(t) && Inert(Esc(t))
  {
    EscapedIsSafe(t);
    SafeIsInert(Escaped(t).value);
  }

  /** Escaping changed nothing if it produced no encoded byte. */
  lemma {:induction false} PlainEscape(t: seq<int>)
    requires WellFormed(t) && !HasTriple(Esc(t))
    ensures Esc(t) == t
    decreases |t|
  {
    if t != [] {
      var v, n := Point(t), Width(t);
      PointOf(t);
      WellFormedRest(t);
      EscapedStep(t);
      EscInert(t);
      EscInert(Rest(t, n));
      var tail := Esc(Rest(t, n));
      hide Escaped, WellFormed, Inert, EscapePoint, HasTriple, Rest;
      assert Esc(t) == EscapePoint(v) + tail;
      PlainPart(v, tail);
      PlainEscape(Rest(t, n));
      WidthOne(t);
      RestCons(t, 0);
      RestWhole(t);
    }
  }

  lemma WidthOne(t: seq<int>)
    requires t != [] && WellFormed(t) && NoEscape(Point(t))
    ensures Width(t) == 1 && Point(t) == t[0]
  {}

  lemma PlainPart(v: int, tail: seq<int>)
    requires ValidPoint(v) && !HasTriple(EscapePoint(v) + tail)
    ensures NoEscape(v) && EscapePoint(v) == [v] && !HasTriple(tail)
  {
    EscapeTriple(v, tail);
    hide HasTriple, EscapeBytes;
  }

  lemma EscapeTriple(v: int, tail: seq<int>)
    requires ValidPoint(v)
    ensures !NoEscape(v) ==> HasTriple(EscapePoint(v) + tail)
    ensures HasTriple(tail) ==> HasTriple([v] + tail)
  {
    if !NoEscape(v) {
      Utf8Bytes(v);
      OctetAt(Utf8(v), 0, tail);
      OctetTriple(EscapePoint(v) + tail);
    }
    hide EscapeBytes, Utf8;
    if HasTriple(tail) {
      var k :| 0 <= k < |tail| - 2 && TripleAt(tail, k);
      assert TripleAt([v] + tail, k + 1);
    }
  }

  lemma OctetTriple(t: seq<int>)
    requires Octet(t, 0).Some?
    ensures HasTriple(t)
  {
    assert TripleAt(t, 0);
  }

  lemma {:induction false} SpacedInert(t: seq<int>, plus: seq<int>)
    requires Inert(t)
    ensures Spaced(t, plus) == t
  {
    if t != [] { SpacedInert(t[..|t| - 1], plus); }
  }

  /** The standard decoder: decodeURIComponent where that succeeds. */
  ghost predicate Standard(d: Decoder) {
    !d.custom && forall t :: DecodeUri(t).Some? ==> d.decode(t) == DecodeUri(t).value
  }

  /** An escaped text comes back, whether it is decoded or not. */
  lemma TextBack(t: seq<int>, encoded: bool, d: Decoder)
    requires WellFormed(t) && Standard(d) && (!encoded ==> !HasTriple(Esc(t)))
    ensures d.Text(Esc(t), encoded) == t
  {
    EscInert(t);
    SpacedInert(Esc(t), d.Plus());
    DecodeEscaped(t);
    if encoded {
      if Esc(t) == [] { EmptyBack(t); }
    } else {
      PlainEscape(t);
    }
  }

  lemma EmptyBack(t: seq<int>)
    requires DecodeUri([]) == Some(t)
    ensures t == []
  {}

  // ---- one field ---------------------------------------------------------------------------------

  predicate NoEq(t: seq<int>) { forall k | 0 <= k < |t| :: t[k] != EQ }

  lemma {:induction false} CutKey(a: seq<int>)
    requires NoEq(a)
    ensures Cut(a) == Pair(false, a, [])
  {
    hide Cut;
    CutNothing();
    if a != [] {
      var b, c := a[..|a| - 1], a[|a| - 1];
      CutKey(b);
      CutSnoc(b, c);
      assert a == b + [c];
    }
  }

  lemma CutNothing()
    ensures Cut([]) == Pair(false, [], [])
  {}

  lemma {:induction false} CutField(a: seq<int>, b: seq<int>)
    requires NoEq(a)
    ensures Cut(a + [EQ] + b) == Pair(true, a, b)
  {
    hide Cut, NoEq;
    if b == [] {
      CutKey(a);
      CutSnoc(a, EQ);
      assert a + [EQ] + b == a + [EQ];
    } else {
      var n := |b| - 1;
      CutField(a, b[..n]);
      CutSnoc(a + [EQ] + b[..n], b[n]);
      assert a + [EQ] + b[..n] + [b[n]] == a + [EQ] + b;
      assert b[..n] + [b[n]] == b;
    }
  }

  lemma FieldCut(key: seq<int>, text: seq<int>)
    requires WellFormed(key) && WellFormed(text)
    ensures var piece := Field(key, text);
            && piece != [] && NoAmp(piece) && Cut(piece) == Pair(true, Esc(key), Esc(text))
  {
    hide Esc, Cut, WellFormed;
    EscInert(key);
    EscInert(text);
    CutField(Esc(key), Esc(text));
  }

  lemma FieldBack(obj: Query, key: seq<int>, text: seq<int>, d: Decoder)
    requires WellFormed(key) && WellFormed(text) && Standard(d)
    ensures AddPiece(obj, Field(key, text), d) == Add(obj, key, text) && NoAmp(Field(key, text))
  {
    hide Esc, FlagsOf, Cut, HasTriple, WellFormed, Field, NoAmp, Add, Decoder.Text;
    var piece := Field(key, text);
    FieldCut(key, text);
    SkippedIsPlain(piece);
    var f := FlagsOf(piece, false);
    TextBack(key, f.key, d);
    TextBack(text, f.value, d);
  }

  // ---- the whole object --------------------------------------------------------------------------

  /** Distinct well-formed keys, each with a well-formed string or an array of such. */
  predicate Proper(entries: seq<Entry>) {
    && (forall i, j | 0 <= i < j < |entries| :: entries[i].key != entries[j].key)
    && forall i | 0 <= i < |entries| :: ProperEntry(entries[i])
  }

  predicate ProperEntry(e: Entry) {
    WellFormed(e.key) && forall j | 0 <= j < |Texts(e.value)| :: WellFormed(Texts(e.value)[j])
  }

  /** The object with these properties. */
  function AsObject(entries: seq<Entry>): Query {
    if entries == [] then map[]
    else AsObject(entries[..|entries| - 1])[entries[|entries| - 1].key := entries[|entries| - 1].value]
  }

  /** The same without its empty arrays, and with the text of an array of one. */
  function AsQuery(entries: seq<Entry>): Query {
    if entries == [] then map[]
    else
      var e := entries[|entries| - 1];
      var q := AsQuery(entries[..|entries| - 1]);
      if Texts(e.value) == [] then q else q[e.key := Built(Texts(e.value), |Texts(e.value)|)]
  }

  /** The array that is built from the first n texts of a key. */
  function Built(texts: seq<seq<int>>, n: int): Value
    requires 0 < n <= |texts|
  {
    if n == 1 then One(texts[0]) else Many(texts[..n])
  }

  lemma {:induction false} ValueBack(obj: Query, key: seq<int>, texts: seq<seq<int>>, n: int, pieces: seq<seq<int>>,
      d: Decoder)
    requires WellFormed(key) && (forall j | 0 <= j < |texts| :: WellFormed(texts[j])) && Standard(d)
    requires 0 < n <= |texts| && key !in obj && AddPieces(pieces, d) == obj
    ensures AddPieces(pieces + ValueFields(key, texts)[..n], d) == obj[key := Built(texts, n)]
  {
    hide Field, AddPiece, AddPieces;
    var fs := ValueFields(key, texts);
    assert pieces + fs[..n] == pieces + fs[..n - 1] + [fs[n - 1]];
    AddPiecesSnoc(pieces + fs[..n - 1], fs[n - 1], d);
    if n > 1 {
      ValueBack(obj, key, texts, n - 1, pieces, d);
      FieldBack(obj[key := Built(texts, n - 1)], key, texts[n - 1], d);
      AddOne(obj, key, texts, n);
    } else {
      assert pieces + fs[..0] == pieces;
      FieldBack(obj, key, texts[0], d);
    }
  }

  lemma AddOne(obj: Query, key: seq<int>, texts: seq<seq<int>>, n: int)
    requires 1 < n <= |texts| && key !in obj
    ensures Add(obj[key := Built(texts, n - 1)], key, texts[n - 1]) == obj[key := Built(texts, n)]
  {
    var o := obj[key := Built(texts, n - 1)];
    assert texts[..n] == texts[..n - 1] + [texts[n - 1]];
    if n == 2 { assert texts[..2] == [texts[0], texts[1]]; }
    assert o[key := Built(texts, n)] == obj[key := Built(texts, n)];
  }

  lemma {:induction false} KeysOf(entries: seq<Entry>, key: seq<int>)
    requires forall i | 0 <= i < |entries| :: entries[i].key != key
    ensures key !in AsQuery(entries)
  {
    if entries != [] { KeysOf(entries[..|entries| - 1], key); }
  }

  lemma {:induction false} EntriesBack(entries: seq<Entry>, d: Decoder)
    requires Proper(entries) && Standard(d)
    ensures AddPieces(FieldList(entries), d) == AsQuery(entries)
    ensures forall i | 0 <= i < |FieldList(entries)| :: NoAmp(FieldList(entries)[i])
  {
    if entries != [] {
      var n := |entries| - 1;
      var a, e := entries[..n], entries[n];
      var texts := Texts(e.value);
      EntriesBack(a, d);
      KeysOf(a, e.key);
      assert ProperEntry(e);
      var fs := ValueFields(e.key, texts);
      assert fs[..|texts|] == fs;
      hide AddPiece, AddPieces, Field, WellFormed;
      if texts == [] {
        assert FieldList(a) + fs == FieldList(a);
      } else {
        ValueBack(AsQuery(a), e.key, texts, |texts|, FieldList(a), d);
      }
      forall j | 0 <= j < |fs| ensures NoAmp(fs[j]) { FieldBack(map[], e.key, texts[j], d); }
    }
  }

  /** parse(stringify(obj)), for every object within the pair limit: arrays of one
      come back as their text, empty ones not at all. */
  lemma ParseUndoesStringify(entries: seq<Entry>, maxKeys: int, d: Decoder)
    requires Proper(entries) && Standard(d) && (maxKeys > 0 ==> |FieldList(entries)| <= maxKeys)
    ensures CanWrite(entries) && Parsed(Fields(entries, |entries|), maxKeys, d) == AsQuery(entries)
  {
    hide Pieces, JoinAmp, AddPieces, Fields, FieldList, Proper, AsQuery, NoAmp;
    ProperCanWrite(entries);
    EntriesBack(entries, d);
    var fs := FieldList(entries);
    NoText(maxKeys, d);
    NothingWritten(entries);
    if entries != [] {
      FieldsJoin(entries, |entries|);
      assert entries[..|entries|] == entries;
    }
    if fs != [] {
      PiecesJoin(fs);
      assert JoinAmp(fs) + [] == JoinAmp(fs);
      PiecesSnoc(JoinAmp(fs), AMP);
      LimitedBack(fs, maxKeys, d);
    }
  }

  lemma NothingWritten(entries: seq<Entry>)
    ensures entries == [] ==> FieldList(entries) == [] && Fields(entries, 0) == []
    ensures forall d :: AddPieces([], d) == map[]
  {}

  /** The empty piece after a closing "&" is no entry, whatever the limit. */
  lemma LimitedBack(fs: seq<seq<int>>, limit: int, d: Decoder)
    requires limit > 0 ==> |fs| <= limit
    ensures AddPieces(Limited(fs, limit), d) == AddPieces(Limited(fs + [[]], limit), d) == AddPieces(fs, d)
  {
    hide AddPieces;
    AddPiecesSnoc(fs, [], d);
    assert (fs + [[]])[..|fs|] == fs;
  }

  /** No array is shorter than two. */
  predicate NoShortArray(entries: seq<Entry>) {
    forall i | 0 <= i < |entries| && entries[i].value.Many? :: |entries[i].value.texts| >= 2
  }

  /** Exactly when that is the object again. */
  lemma ComesBackExactly(entries: seq<Entry>)
    requires Proper(entries)
    ensures AsQuery(entries) == AsObject(entries) <==> NoShortArray(entries)
  {
    hide AsQuery, AsObject, Proper;
    if NoShortArray(entries) { AllComeBack(entries); }
    forall i | 0 <= i < |entries|
      ensures AsQuery(entries) == AsObject(entries) && entries[i].value.Many? ==> |entries[i].value.texts| >= 2
    {
      EntryAt(entries, i);
    }
  }

  lemma {:induction false} AllComeBack(entries: seq<Entry>)
    requires NoShortArray(entries)
    ensures AsQuery(entries) == AsObject(entries)
  {
    if entries != [] {
      var n := |entries| - 1;
      AllComeBack(entries[..n]);
      var texts := Texts(entries[n].value);
      assert texts[..|texts|] == texts;
    }
  }

  lemma {:induction false} EntryAt(entries: seq<Entry>, i: int)
    requires Proper(entries) && 0 <= i < |entries|
    ensures var e, q, o := entries[i], AsQuery(entries), AsObject(entries);
            && e.key in o && o[e.key] == e.value
            && (e.key in q <==> Texts(e.value) != [])
            && (e.key in q ==> q[e.key] == Built(Texts(e.value), |Texts(e.value)|))
  {
    var n := |entries| - 1;
    if i < n {
      EntryAt(entries[..n], i);
    } else {
      KeysOf(entries[..n], entries[n].key);
    }
  }

  lemma ProperCanWrite(entries: seq<Entry>)
    requires Proper(entries)
    ensures CanWrite(entries)
  {
    forall i | 0 <= i < |entries| ensures Escapable(entries[i].key) && AllEscapable(Texts(entries[i].value)) {
      assert ProperEntry(entries[i]);
      EscInert(entries[i].key);
      forall j | 0 <= j < |Texts(entries[i].value)| ensures Escapable(Texts(entries[i].value)[j]) {
        EscInert(Texts(entries[i].value)[j]);
      }
    }
  }
}
