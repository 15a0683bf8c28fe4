/** lib_js/querystring.js, parse with the default separators: what it makes of texts
    that stringify does not write. */
module QueryReading {
  import opened PercentText
  import opened QueryParse
  import opened QueryRoundTrip

  /** The text with its plus signs read as spaces. */
  function Blanks(t: seq<int>): (r: seq<int>)
    ensures |r| == |t| && forall i | 0 <= i < |t| :: r[i] == if t[i] == '+' as int then ' ' as int else t[i]
  {
    seq(|t|, i requires 0 <= i < |t| => if t[i] == '+' as int then ' ' as int else t[i])
  }

  predicate NoPercent(t: seq<int>) { forall i | 0 <= i < |t| :: t[i] != '%' as int }

  lemma {:induction false} SpacedIsBlanks(t: seq<int>)
    ensures Spaced(t, [' ' as int]) == Blanks(t)
  {
    if t != [] {
      var n := |t| - 1;
      SpacedIsBlanks(t[..n]);
      assert Blanks(t) == Blanks(t[..n]) + [Blanks(t)[n]];
    }
  }

  /** Without a "%" nothing is handed to the decoder. */
  lemma {:induction false} NoFlags(piece: seq<int>)
    requires NoPercent(piece)
    ensures var f := FlagsOf(piece, false); !f.key && !f.value && f.check == 0
  {
    if piece != [] { NoFlags(piece[..|piece| - 1]); }
  }

  /** A key and a value around the first "="; all that follows it is the value. */
  lemma ReadsField(obj: Query, key: seq<int>, value: seq<int>, d: Decoder)
    requires !d.custom && NoEq(key) && NoPercent(key) && NoPercent(value)
    ensures AddPiece(obj, key + ['=' as int] + value, d) == Add(obj, Blanks(key), Blanks(value))
  {
    hide Cut, FlagsOf, NoEq, Add, Spaced;
    var piece := key + [EQ] + value;
    assert NoPercent(piece);
    NoFlags(piece);
    CutField(key, value);
    SpacedIsBlanks(key);
    SpacedIsBlanks(value);
  }

  /** Without a "=" the value is empty. */
  lemma ReadsKey(obj: Query, key: seq<int>, d: Decoder)
    requires !d.custom && key != [] && NoEq(key) && NoPercent(key)
    ensures AddPiece(obj, key, d) == Add(obj, Blanks(key), [])
  {
    hide Cut, FlagsOf, NoEq, Add, Spaced;
    NoFlags(key);
    CutKey(key);
    SpacedIsBlanks(key);
    SpacedIsBlanks([]);
    assert Blanks([]) == [];
  }

  /** A custom decoder is called for every text that is not empty, and sees "%20" for a
      plus sign. */
  lemma ReadsCustom(d: Decoder, raw: seq<int>, encoded: bool)
    requires d.custom && encoded && raw != []
    ensures d.Text(raw, encoded) == d.decode(Spaced(raw, ['%' as int, '2' as int, '0' as int]))
    ensures FlagsOf([], true) == Flags(true, true, 0)
  {
    SpacedLonger(raw, ['%' as int, '2' as int, '0' as int]);
  }

  lemma SpacedLonger(t: seq<int>, plus: seq<int>)
    requires plus != [] && t != []
    ensures Spaced(t, plus) != []
  {}

  // ---- pieces -----------------------------------------------------------------------------------

  predicate AllNoAmp(pieces: seq<seq<int>>) { forall i | 0 <= i < |pieces| :: NoAmp(pieces[i]) }

  /** Reading a text is reading its pieces in order; a limit that is not positive is
      none. */
  lemma ReadsPieces(pieces: seq<seq<int>>, limit: int, d: Decoder)
    requires pieces != [] && AllNoAmp(pieces) && limit <= 0
    ensures Parsed(JoinAmp(pieces), limit, d) == AddPieces(pieces, d)
  {
    hide Pieces, JoinAmp, AddPieces;
    PiecesJoin(pieces);
  }

  /** With a limit, it is reading the text of the first `limit` pieces. */
  lemma ReadsUpToLimit(pieces: seq<seq<int>>, limit: int, d: Decoder)
    requires AllNoAmp(pieces) && 0 < limit <= |pieces|
    ensures Parsed(JoinAmp(pieces), limit, d) == Parsed(JoinAmp(pieces[..limit]), 0, d)
  {
    hide Pieces, JoinAmp, AddPieces;
    PiecesJoin(pieces);
    ReadsPieces(pieces[..limit], 0, d);
    assert pieces[..|pieces|] == pieces;
  }

  lemma {:induction false} EmptyPieceAdds(a: seq<seq<int>>, b: seq<seq<int>>, d: Decoder)
    ensures AddPieces(a + [[]] + b, d) == AddPieces(a + b, d)
  {
    hide AddPieces, AddPiece;
    if b == [] {
      AddPiecesSnoc(a, [], d);
      NoEntry(AddPieces(a, d), d);
      assert a + [[]] + b == a + [[]] && a + b == a;
    } else {
      var n := |b| - 1;
      var c, x := b[..n], b[n];
      EmptyPieceAdds(a, c, d);
      AddPiecesSnoc(a + [[]] + c, x, d);
      AddPiecesSnoc(a + c, x, d);
      assert a + [[]] + b == a + [[]] + c + [x] && a + b == a + c + [x];
    }
  }

  /** Nothing between two "&" is no entry. */
  lemma EmptyPieceIgnored(a: seq<seq<int>>, b: seq<seq<int>>, d: Decoder)
    requires AllNoAmp(a) && AllNoAmp(b) && a + b != []
    ensures Parsed(JoinAmp(a + [[]] + b), 0, d) == Parsed(JoinAmp(a + b), 0, d)
  {
    hide JoinAmp, AddPieces, Parsed;
    EmptyPieceAdds(a, b, d);
    ReadsPieces(a + [[]] + b, 0, d);
    ReadsPieces(a + b, 0, d);
  }
}
