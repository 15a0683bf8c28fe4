/** lib_js/querystring.js, parse with the default separators: one pass over the
    text against the plain reading "cut at &, cut at the first =, decode". */
module QueryParse {
  import opened Slices
  import opened PercentText

  const AMP := 38
  const PLUS := 43
  const PERCENT := 37
  const EQ := 61

  /** A property of the result: a string, or an array of them. */
  datatype Value = One(text: seq<int>) | Many(texts: seq<seq<int>>)

  type Query = map<seq<int>, Value>

  // ---- the plain reading -----------------------------------------------------------------

  /** The text cut at every "&". */
  function Pieces(t: seq<int>): (r: seq<seq<int>>)
    ensures r != []
  {
    if t == [] then [[]]
    else
      var n := |t| - 1;
      var r := Pieces(t[..n]);
      if t[n] == AMP then r + [[]] else Longer(r, t[n])
  }

  function Longer(r: seq<seq<int>>, c: int): (e: seq<seq<int>>)
    requires r != []
    ensures |e| == |r| && e[|e| - 1] == r[|r| - 1] + [c] && e[..|e| - 1] == r[..|r| - 1]
  {
    r[|r| - 1 := r[|r| - 1] + [c]]
  }

  /** A piece cut at its first "=": whether it has one, what is before it, what
      is after it. */
  datatype Pair = Pair(cut: bool, key: seq<int>, value: seq<int>)

  function Cut(piece: seq<int>): Pair {
    if piece == [] then Pair(false, [], [])
    else
      var n := |piece| - 1;
      var p := Cut(piece[..n]);
      if p.cut then p.(value := p.value + [piece[n]])
      else if piece[n] == EQ then p.(cut := true)
      else p.(key := p.key + [piece[n]])
  }

  /** Every "+" replaced. */
  function Spaced(t: seq<int>, plus: seq<int>): seq<int> {
    if t == [] then []
    else Spaced(t[..|t| - 1], plus) + if t[|t| - 1] == PLUS then plus else [t[|t| - 1]]
  }

  /** keyEncoded, valEncoded and encodeCheck: the search for an encoded byte.
      `check` is 1 after "%" and 2 after "%H"; a flag is raised at 3. Once a key
      is known to be encoded, the rest of it counts for the value's flag. */
  datatype Flags = Flags(key: bool, value: bool, check: int)

  function FlagStep(f: Flags, cut: bool, c: int): Flags {
    if !cut && c == EQ then f.(check := 0)
    else if !cut && !f.key then
      if c == PERCENT then f.(check := 1)
      else if f.check <= 0 then f
      else if Unhex(c) >= 0 then f.(check := f.check + 1, key := f.check + 1 == 3)
      else f.(check := 0)
    else if c == PLUS || f.value then f
    else if c == PERCENT then f.(check := 1)
    else if f.check <= 0 then f
    else if Unhex(c) >= 0 then f.(check := f.check + 1, value := f.check + 1 == 3)
    else f.(check := 0)
  }

  function FlagsOf(piece: seq<int>, custom: bool): Flags {
    if piece == [] then Flags(custom, custom, 0)
    else
      var n := |piece| - 1;
      FlagStep(FlagsOf(piece[..n], custom), Cut(piece[..n]).cut, piece[n])
  }

  /** The decoder in force: `custom` is a decoder given by the caller, which is
      always called and sees "%20" for "+". */
  datatype Decoder = Decoder(custom: bool, decode: seq<int> -> seq<int>)
  {
    function Plus(): seq<int> { if custom then [37, 50, 48] else [32] }

    /** A key or value as it goes into the result. */
    function Text(raw: seq<int>, encoded: bool): seq<int> {
      var s := Spaced(raw, Plus());
      if s != [] && encoded then decode(s) else s
    }
  }

  function Add(obj: Query, key: seq<int>, value: seq<int>): Query {
    if key !in obj then obj[key := One(value)]
    else
      match obj[key]
      case One(text) => obj[key := Many([text, value])]
      case Many(texts) => obj[key := Many(texts + [value])]
  }

  /** An empty piece is no entry. */
  function AddPiece(obj: Query, piece: seq<int>, d: Decoder): Query {
    if piece == [] then obj
    else
      var p, f := Cut(piece), FlagsOf(piece, d.custom);
      Add(obj, d.Text(p.key, f.key), d.Text(p.value, f.value))
  }

  function AddPieces(pieces: seq<seq<int>>, d: Decoder): Query {
    if pieces == [] then map[] else AddPiece(AddPieces(pieces[..|pieces| - 1], d), pieces[|pieces| - 1], d)
  }

  /** The first `limit` pieces; every piece if the limit is not positive. */
  function Limited(pieces: seq<seq<int>>, limit: int): seq<seq<int>> {
    if 0 < limit < |pieces| then pieces[..limit] else pieces
  }

  function Parsed(qs: seq<int>, limit: int, d: Decoder): Query { AddPieces(Limited(Pieces(qs), limit), d) }

  // ---- snoc equations ----------------------------------------------------------------------

  lemma PiecesSnoc(t: seq<int>, c: int)
    ensures Pieces(t + [c]) == if c == AMP then Pieces(t) + [[]] else Longer(Pieces(t), c)
  {
    assert (t + [c])[..|t|] == t;
  }

  lemma CutSnoc(t: seq<int>, c: int)
    ensures var p := Cut(t);
            Cut(t + [c]) == if p.cut then p.(value := p.value + [c])
                            else if c == EQ then p.(cut := true) else p.(key := p.key + [c])
  {
    assert (t + [c])[..|t|] == t;
  }

  lemma SpacedSnoc(t: seq<int>, c: int, plus: seq<int>)
    ensures Spaced(t + [c], plus) == Spaced(t, plus) + if c == PLUS then plus else [c]
  {
    assert (t + [c])[..|t|] == t;
  }

  lemma FlagsSnoc(t: seq<int>, c: int, custom: bool)
    ensures FlagsOf(t + [c], custom) == FlagStep(FlagsOf(t, custom), Cut(t).cut, c)
  {
    assert (t + [c])[..|t|] == t;
  }

  lemma AddPiecesSnoc(pieces: seq<seq<int>>, piece: seq<int>, d: Decoder)
    ensures AddPieces(pieces + [piece], d) == AddPiece(AddPieces(pieces, d), piece, d)
  {
    assert (pieces + [piece])[..|pieces|] == pieces;
  }

  lemma EmptyTexts(d: Decoder)
    ensures Pieces([]) == [[]] && Cut([]) == Pair(false, [], []) && Spaced([], d.Plus()) == []
    ensures FlagsOf([], d.custom) == Flags(d.custom, d.custom, 0) && AddPieces([], d) == map[]
  {}

  lemma {:induction false} PiecesPrefix(t: seq<int>, k: int)
    requires 0 <= k <= |t|
    ensures var a, b := Pieces(t[..k]), Pieces(t); |a| <= |b| && a[..|a| - 1] == b[..|a| - 1]
  {
    hide Pieces;
    if k == |t| {
      assert t[..k] == t;
    } else {
      var n := |t| - 1;
      assert t == t[..n] + [t[n]] && t[..n][..k] == t[..k];
      PiecesPrefix(t[..n], k);
      PiecesSnoc(t[..n], t[n]);
      var a, m, b := Pieces(t[..k]), Pieces(t[..n]), Pieces(t);
      assert b[..|m| - 1] == m[..|m| - 1];
      assert a[..|a| - 1] == m[..|a| - 1] == m[..|m| - 1][..|a| - 1];
    }
  }

  // ---- the pass --------------------------------------------------------------------------------

  /** The variables that belong to the current piece. */
  datatype Scan = Scan(lastPos: int, eqIdx: int, key: seq<int>, value: seq<int>, flags: Flags)

  /** They describe `piece`, the text since the last separator, with the slice
      from lastPos on still to be copied. */
  ghost predicate Reading(qs: seq<int>, i: int, piece: seq<int>, s: Scan, d: Decoder) {
    && 0 <= s.lastPos <= i <= |qs|
    && s.flags == FlagsOf(piece, d.custom)
    && s.eqIdx == (if Cut(piece).cut then 1 else 0)
    && (!Cut(piece).cut ==> s.key + Sub(qs, s.lastPos, i) == Spaced(Cut(piece).key, d.Plus()) && s.value == []
                            && Cut(piece).value == [])
    && (Cut(piece).cut ==> s.key == Spaced(Cut(piece).key, d.Plus())
                           && s.value + Sub(qs, s.lastPos, i) == Spaced(Cut(piece).value, d.Plus()))
  }

  /** `text` with the slice, where the source only copies a slice that is not empty. */
  function Copied(text: seq<int>, qs: seq<int>, lastPos: int, i: int): (r: seq<int>)
    requires 0 <= lastPos <= i <= |qs|
    ensures r == text + Sub(qs, lastPos, i)
  {
    if lastPos < i then text + Sub(qs, lastPos, i) else (assert Sub(qs, lastPos, i) == []; text)
  }

  /** What one character of a piece does to the variables. */
  function ScanStep(s: Scan, qs: seq<int>, i: int, d: Decoder): Scan
    requires 0 <= s.lastPos <= i < |qs|
  {
    var f := FlagStep(s.flags, s.eqIdx == 1, qs[i]);
    if s.eqIdx == 0 && qs[i] == EQ then
      s.(key := Copied(s.key, qs, s.lastPos, i), lastPos := i + 1, eqIdx := 1, flags := f)
    else if s.eqIdx == 0 && qs[i] == PLUS then
      s.(key := Copied(s.key, qs, s.lastPos, i) + d.Plus(), lastPos := i + 1, flags := f)
    else if qs[i] == PLUS then
      s.(value := Copied(s.value, qs, s.lastPos, i) + d.Plus(), lastPos := i + 1, flags := f)
    else s.(flags := f)
  }

  lemma ScanReads(qs: seq<int>, i: int, piece: seq<int>, s: Scan, d: Decoder)
    requires Reading(qs, i, piece, s, d) && i < |qs|
    ensures Reading(qs, i + 1, piece + [qs[i]], ScanStep(s, qs, i, d), d)
  {
    var c := qs[i];
    hide FlagStep, FlagsOf, Cut, Spaced, Sub;
    CutSnoc(piece, c);
    FlagsSnoc(piece, c, d.custom);
    SpacedSnoc(Cut(piece).key, c, d.Plus());
    SpacedSnoc(Cut(piece).value, c, d.Plus());
    SubSnoc(qs, s.lastPos, i);
    EmptySlice(qs, i + 1);
    Associate(s.key, Sub(qs, s.lastPos, i), [c]);
    Associate(s.value, Sub(qs, s.lastPos, i), [c]);
    Associate(Copied(s.key, qs, s.lastPos, i), [], []);
    Associate(Copied(s.value, qs, s.lastPos, i), [], []);
    Associate(Copied(s.key, qs, s.lastPos, i) + d.Plus(), [], []);
    Associate(Copied(s.value, qs, s.lastPos, i) + d.Plus(), [], []);
    SpacedEmpty(d);
  }

  lemma EmptySlice(qs: seq<int>, k: int)
    requires 0 <= k <= |qs|
    ensures Sub(qs, k, k) == []
  {}

  lemma SpacedEmpty(d: Decoder)
    ensures Spaced([], d.Plus()) == []
  {}

  /** The loop body for a character that is no separator, with its early exits. */
  method OnChar(qs: seq<int>, i: int, d: Decoder, s: Scan) returns (t: Scan)
    requires 0 <= s.lastPos <= i < |qs| && (s.eqIdx == 0 || s.eqIdx == 1)
    ensures t == ScanStep(s, qs, i, d)
  {
    hide Sub;
    var code := qs[i];
    var lastPos, eqIdx, key, value := s.lastPos, s.eqIdx, s.key, s.value;
    var keyEncoded, valEncoded, encodeCheck := s.flags.key, s.flags.value, s.flags.check;
    if eqIdx < 1 {
      if code == EQ {
        key := Copied(key, qs, lastPos, i);
        return Scan(i + 1, 1, key, value, Flags(keyEncoded, valEncoded, 0));
      }
      if !keyEncoded {
        if code == PERCENT {
          return Scan(lastPos, eqIdx, key, value, Flags(keyEncoded, valEncoded, 1));
        } else if encodeCheck > 0 {
          if Unhex(code) >= 0 {
            encodeCheck := encodeCheck + 1;
            if encodeCheck == 3 { keyEncoded := true; }
            return Scan(lastPos, eqIdx, key, value, Flags(keyEncoded, valEncoded, encodeCheck));
          }
          encodeCheck := 0;
        }
      }
      if code == PLUS {
        key := Copied(key, qs, lastPos, i) + d.Plus();
        return Scan(i + 1, eqIdx, key, value, Flags(keyEncoded, valEncoded, encodeCheck));
      }
    }
    if code == PLUS {
      value := Copied(value, qs, lastPos, i) + d.Plus();
      lastPos := i + 1;
    } else if !valEncoded {
      if code == PERCENT {
        encodeCheck := 1;
      } else if encodeCheck > 0 {
        if Unhex(code) >= 0 {
          encodeCheck := encodeCheck + 1;
          if encodeCheck == 3 { valEncoded := true; }
        } else {
          encodeCheck := 0;
        }
      }
    }
    t := Scan(lastPos, eqIdx, key, value, Flags(keyEncoded, valEncoded, encodeCheck));
  }

  /** obj[key] = value, or one more element for the array there. */
  method Store(obj: Query, key: seq<int>, value: seq<int>) returns (r: Query)
    ensures r == Add(obj, key, value)
  {
    if key !in obj {
      r := obj[key := One(value)];
    } else {
      var curValue := obj[key];
      if curValue.Many? {
        r := obj[key := Many(curValue.texts + [value])];
      } else {
        r := obj[key := Many([curValue.text, value])];
      }
    }
  }

  /** The end of a piece that is not empty. */
  method EndPiece(qs: seq<int>, end: int, ghost piece: seq<int>, s: Scan, d: Decoder, obj: Query) returns (r: Query)
    requires Reading(qs, end, piece, s, d) && piece != []
    ensures r == AddPiece(obj, piece, d)
  {
    hide FlagsOf, Cut, Spaced, Sub;
    var key, value := s.key, s.value;
    if s.eqIdx < 1 {
      key := Copied(key, qs, s.lastPos, end);
      SpacedEmpty(d);
    } else {
      value := Copied(value, qs, s.lastPos, end);
    }
    if |key| > 0 && s.flags.key { key := d.decode(key); }
    if |value| > 0 && s.flags.value { value := d.decode(value); }
    r := Store(obj, key, value);
  }

  /** A piece is empty when nothing of it is left to copy, copied or cut. */
  lemma EmptyPiece(qs: seq<int>, i: int, piece: seq<int>, s: Scan, d: Decoder)
    requires Reading(qs, i, piece, s, d)
    ensures piece == [] <==> s.eqIdx == 0 && s.lastPos == i && s.key == []
  {
    hide FlagsOf, Sub;
    SpacedLength(Cut(piece).key, d.Plus());
    CutLength(piece);
    if s.eqIdx == 0 && s.lastPos == i && s.key == [] { EmptySlice(qs, i); }
  }

  lemma {:induction false} SpacedLength(t: seq<int>, plus: seq<int>)
    requires |plus| >= 1
    ensures |Spaced(t, plus)| >= |t|
  {
    if t != [] { SpacedLength(t[..|t| - 1], plus); }
  }

  lemma {:induction false} CutLength(piece: seq<int>)
    ensures var p := Cut(piece); |piece| == |p.key| + |p.value| + if p.cut then 1 else 0
    ensures !Cut(piece).cut ==> Cut(piece).value == []
  {
    if piece != [] { CutLength(piece[..|piece| - 1]); }
  }

  lemma Fresh(qs: seq<int>, i: int, d: Decoder)
    requires 0 <= i <= |qs|
    ensures Reading(qs, i, [], Scan(i, 0, [], [], Flags(d.custom, d.custom, 0)), d)
  {
    EmptyTexts(d);
    EmptySlice(qs, i);
  }

  /** The pieces before the current one. */
  function Before(qs: seq<int>, i: int): seq<seq<int>>
    requires 0 <= i <= |qs|
  {
    var p := Pieces(Sub(qs, 0, i));
    p[..|p| - 1]
  }

  function Current(qs: seq<int>, i: int): seq<int>
    requires 0 <= i <= |qs|
  {
    var p := Pieces(Sub(qs, 0, i));
    p[|p| - 1]
  }

  lemma PieceStep(qs: seq<int>, i: int)
    requires 0 <= i < |qs|
    ensures qs[i] == AMP ==> Before(qs, i + 1) == Before(qs, i) + [Current(qs, i)] && Current(qs, i + 1) == []
    ensures qs[i] != AMP ==> Before(qs, i + 1) == Before(qs, i) && Current(qs, i + 1) == Current(qs, i) + [qs[i]]
  {
    hide Pieces, Sub;
    SubSnoc(qs, 0, i);
    PiecesSnoc(Sub(qs, 0, i), qs[i]);
    var p := Pieces(Sub(qs, 0, i));
    assert p == p[..|p| - 1] + [p[|p| - 1]];
  }

  lemma PieceEnds(qs: seq<int>)
    ensures Before(qs, 0) == [] && Current(qs, 0) == []
    ensures Pieces(qs) == Before(qs, |qs|) + [Current(qs, |qs|)]
  {
    hide Pieces, Sub;
    SubWhole(qs);
    NoPieces();
    var p := Pieces(qs);
    assert p == p[..|p| - 1] + [p[|p| - 1]];
  }

  lemma NoPieces()
    ensures Pieces([]) == [[]]
  {}

  /** Once `limit` pieces are done the rest of the text does not matter. */
  lemma LimitReached(qs: seq<int>, i: int, limit: int)
    requires 0 <= i <= |qs| && 0 < limit == |Before(qs, i)|
    ensures Limited(Pieces(qs), limit) == Before(qs, i)
  {
    PiecesPrefix(qs, i);
    assert Sub(qs, 0, i) == qs[..i];
    hide Pieces;
    var p := Pieces(qs);
    assert p[..limit] == Before(qs, i);
  }

  lemma LimitNotReached(qs: seq<int>, limit: int)
    requires limit <= 0 || |Before(qs, |qs|)| < limit
    ensures Limited(Pieces(qs), limit) == Before(qs, |qs|) + [Current(qs, |qs|)]
  {
    PieceEnds(qs);
    hide Pieces, Before;
  }

  /** parse: `maxKeys` is the option of that name, 1000 when it is not given. */
  method Parse(qs: seq<int>, maxKeys: int, d: Decoder) returns (obj: Query)
    ensures obj == Parsed(qs, maxKeys, d)
  {
    hide Pieces, Before, Current, Reading, AddPieces, AddPiece, Limited, ScanStep;
    obj := map[];
    PieceEnds(qs);
    EmptyTexts(d);
    Fresh(qs, 0, d);
    if |qs| == 0 {
      NoText(maxKeys, d);
      return;
    }
    var pairs := if maxKeys > 0 then maxKeys else -1;
    var s := Scan(0, 0, [], [], Flags(d.custom, d.custom, 0));
    var i := 0;
    while i < |qs|
      invariant 0 <= i <= |qs| && Reading(qs, i, Current(qs, i), s, d) && obj == AddPieces(Before(qs, i), d)
      invariant maxKeys > 0 ==> pairs == maxKeys - |Before(qs, i)| > 0
      invariant maxKeys <= 0 ==> pairs < 0
      decreases |qs| - i
    {
      PieceStep(qs, i);
      if qs[i] == AMP {
        EmptyPiece(qs, i, Current(qs, i), s, d);
        AddPiecesSnoc(Before(qs, i), Current(qs, i), d);
        NoEntry(AddPieces(Before(qs, i), d), d);
        Bounds(qs, i, Current(qs, i), s, d);
        if !(s.eqIdx < 1 && s.lastPos >= i && |s.key| == 0) {
          obj := EndPiece(qs, i, Current(qs, i), s, d, obj);
        }
        pairs := pairs - 1;
        if pairs == 0 {
          LimitReached(qs, i + 1, maxKeys);
          return;
        }
        Fresh(qs, i + 1, d);
        s := Scan(i + 1, 0, [], [], Flags(d.custom, d.custom, 0));
      } else {
        Bounds(qs, i, Current(qs, i), s, d);
        ScanReads(qs, i, Current(qs, i), s, d);
        s := OnChar(qs, i, d, s);
      }
      i := i + 1;
    }
    LimitNotReached(qs, maxKeys);
    AddPiecesSnoc(Before(qs, i), Current(qs, i), d);
    NoEntry(AddPieces(Before(qs, i), d), d);
    EmptyPiece(qs, i, Current(qs, i), s, d);
    Bounds(qs, i, Current(qs, i), s, d);
    if s.lastPos >= |qs| && s.eqIdx == 0 && |s.key| == 0 { return; }
    obj := EndPiece(qs, i, Current(qs, i), s, d, obj);
  }

  lemma NoEntry(obj: Query, d: Decoder)
    ensures AddPiece(obj, [], d) == obj
  {}

  lemma Bounds(qs: seq<int>, i: int, piece: seq<int>, s: Scan, d: Decoder)
    requires Reading(qs, i, piece, s, d)
    ensures 0 <= s.lastPos <= i <= |qs| && (s.eqIdx == 0 || s.eqIdx == 1)
  {}

  lemma NoText(maxKeys: int, d: Decoder)
    ensures Parsed([], maxKeys, d) == map[]
  {
    EmptyTexts(d);
    NoEntry(map[], d);
    assert Limited([[]], maxKeys) == [[]] == [] + [[]];
    AddPiecesSnoc([], [], d);
  }
}
