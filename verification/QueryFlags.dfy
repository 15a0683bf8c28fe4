/** lib_js/querystring.js, parse: when the decoder is called. A key is decoded
    exactly if it holds an encoded byte; a value that holds one is always decoded,
    but some values are decoded without. */
module QueryFlags {
  import opened PercentText
  import opened QueryParse

  /** A "%HH" in the text. */
  ghost predicate HasTriple(t: seq<int>) { exists k :: 0 <= k < |t| - 2 && TripleAt(t, k) }

  predicate TripleAt(t: seq<int>, k: int)
    requires 0 <= k < |t| - 2
  {
    t[k] == PERCENT && Unhex(t[k + 1]) >= 0 && Unhex(t[k + 2]) >= 0
  }

  /** How much of a "%HH" the text ends with. */
  function Partial(t: seq<int>): int {
    var n := |t|;
    if n > 0 && t[n - 1] == PERCENT then 1
    else if n > 1 && t[n - 2] == PERCENT && Unhex(t[n - 1]) >= 0 then 2
    else 0
  }

  lemma TripleSnoc(t: seq<int>, c: int)
    ensures HasTriple(t + [c]) <==> HasTriple(t) || (Partial(t) == 2 && Unhex(c) >= 0)
    ensures Partial(t + [c]) == if c == PERCENT then 1 else if Partial(t) == 1 && Unhex(c) >= 0 then 2 else 0
  {
    var u, n := t + [c], |t|;
    forall k | 0 <= k < n - 2 ensures TripleAt(u, k) <==> TripleAt(t, k) {}
    if HasTriple(t) {
      var k :| 0 <= k < n - 2 && TripleAt(t, k);
      assert TripleAt(u, k);
    }
    if HasTriple(u) && !HasTriple(t) {
      var k :| 0 <= k < |u| - 2 && TripleAt(u, k);
      assert k == n - 2;
    }
    if Partial(t) == 2 && Unhex(c) >= 0 { assert TripleAt(u, n - 2); }
  }

  /** The text without its "+". */
  function NoPlus(t: seq<int>): seq<int> {
    if t == [] then [] else NoPlus(t[..|t| - 1]) + if t[|t| - 1] == PLUS then [] else [t[|t| - 1]]
  }

  /** What follows the first "%HH" of a text. */
  ghost function AfterFirst(t: seq<int>): seq<int> {
    if t == [] || !HasTriple(t[..|t| - 1]) then [] else AfterFirst(t[..|t| - 1]) + [t[|t| - 1]]
  }

  lemma SnocNoPlus(t: seq<int>, c: int)
    ensures NoPlus(t + [c]) == if c == PLUS then NoPlus(t) else NoPlus(t) + [c]
  {
    assert (t + [c])[..|t|] == t;
    assert NoPlus(t) + [] == NoPlus(t);
  }

  lemma SnocAfterFirst(t: seq<int>, c: int)
    ensures AfterFirst(t + [c]) == if HasTriple(t) then AfterFirst(t) + [c] else []
  {
    assert (t + [c])[..|t|] == t;
  }

  /** `check` is in step with the text it counts for; 0 and 3 on are the same. */
  predicate InStep(check: int, t: seq<int>) {
    check >= 0 && (if 1 <= check <= 2 then Partial(t) == check else Partial(t) == 0)
  }

  ghost predicate FlagsRight(f: Flags, p: Pair) {
    && (f.key <==> HasTriple(p.key))
    && (!p.cut ==> (f.value <==> HasTriple(NoPlus(AfterFirst(p.key)))))
    && (p.cut ==> (f.value <==> HasTriple(NoPlus(AfterFirst(p.key))) || HasTriple(NoPlus(p.value))))
    && (!p.cut && !f.key ==> InStep(f.check, p.key) && f.check < 3)
    && (!p.cut && f.key && !f.value ==> InStep(f.check, NoPlus(AfterFirst(p.key))))
    && (p.cut && !f.value ==> InStep(f.check, NoPlus(p.value)))
    && (!f.key ==> AfterFirst(p.key) == [])
  }

  lemma FlagsStepKey(f: Flags, p: Pair, c: int)
    requires FlagsRight(f, p) && !p.cut && c != EQ && p.value == []
    ensures FlagsRight(FlagStep(f, false, c), p.(key := p.key + [c]))
  {
    hide HasTriple, NoPlus, AfterFirst, Partial, Unhex;
    var rest := AfterFirst(p.key);
    TripleSnoc(p.key, c);
    SnocAfterFirst(p.key, c);
    SnocNoPlus(rest, c);
    TripleSnoc(NoPlus(rest), c);
    PlusIsNoHex();
    EmptyParts();
  }

  lemma FlagsStepValue(f: Flags, p: Pair, c: int)
    requires FlagsRight(f, p) && p.cut
    ensures FlagsRight(FlagStep(f, true, c), p.(value := p.value + [c]))
  {
    hide HasTriple, NoPlus, AfterFirst, Partial, Unhex;
    PlusIsNoHex();
    SnocNoPlus(p.value, c);
    TripleSnoc(NoPlus(p.value), c);
  }

  lemma EmptyParts()
    ensures NoPlus([]) == [] && !HasTriple([]) && Partial([]) == 0 && AfterFirst([]) == []
  {}

  lemma FlagsStepCut(f: Flags, p: Pair)
    requires FlagsRight(f, p) && !p.cut && p.value == []
    ensures FlagsRight(FlagStep(f, false, EQ), p.(cut := true))
  {
    hide HasTriple, NoPlus, AfterFirst, Partial;
    EmptyParts();
  }

  /** Exactly when the decoder is called, for every piece. */
  lemma {:induction false} DecodedExactly(piece: seq<int>)
    ensures FlagsRight(FlagsOf(piece, false), Cut(piece)) && (!Cut(piece).cut ==> Cut(piece).value == [])
  {
    hide HasTriple, NoPlus, AfterFirst, Partial;
    EmptyParts();
    if piece != [] {
      var t, c := piece[..|piece| - 1], piece[|piece| - 1];
      DecodedExactly(t);
      var f, p := FlagsOf(t, false), Cut(t);
      if p.cut { FlagsStepValue(f, p, c); } else if c == EQ { FlagsStepCut(f, p); } else { FlagsStepKey(f, p, c); }
    }
  }

  lemma {:induction false} TripleWithoutPlus(t: seq<int>)
    ensures HasTriple(t) ==> HasTriple(NoPlus(t))
    ensures Partial(t) > 0 ==> Partial(NoPlus(t)) == Partial(t)
  {
    hide HasTriple, NoPlus, Partial, Unhex;
    EmptyParts();
    if t != [] {
      var a, c := t[..|t| - 1], t[|t| - 1];
      assert t == a + [c];
      TripleWithoutPlus(a);
      TripleSnoc(a, c);
      SnocNoPlus(a, c);
      TripleSnoc(NoPlus(a), c);
      PlusIsNoHex();
    }
  }

  lemma PlusIsNoHex()
    ensures Unhex(PLUS) < 0 && Unhex(PERCENT) < 0
  {}

  /** Text that is not decoded holds no encoded byte. */
  lemma SkippedIsPlain(piece: seq<int>)
    ensures !FlagsOf(piece, false).key ==> !HasTriple(Cut(piece).key)
    ensures !FlagsOf(piece, false).value ==> !HasTriple(Cut(piece).value)
  {
    DecodedExactly(piece);
    TripleWithoutPlus(Cut(piece).value);
    hide HasTriple, NoPlus, AfterFirst, Partial;
    EmptyParts();
  }

  /** The value "%+41" of "=%+41" is decoded although it holds no encoded byte. */
  lemma DecodedForNothing()
    ensures var piece := [EQ, PERCENT, PLUS, 52, 49];
            FlagsOf(piece, false).value && Cut(piece) == Pair(true, [], [PERCENT, PLUS, 52, 49])
            && !HasTriple(Cut(piece).value)
  {
    var piece := [EQ, PERCENT, PLUS, 52, 49];
    assert piece[..4] == [EQ, PERCENT, PLUS, 52] && [EQ, PERCENT, PLUS, 52][..3] == [EQ, PERCENT, PLUS];
    assert [EQ, PERCENT, PLUS][..2] == [EQ, PERCENT] && [EQ, PERCENT][..1] == [EQ] && [EQ][..0] == [];
    CutSnoc([], EQ);
    CutSnoc([EQ], PERCENT);
    CutSnoc([EQ, PERCENT], PLUS);
    CutSnoc([EQ, PERCENT, PLUS], 52);
    CutSnoc([EQ, PERCENT, PLUS, 52], 49);
    FlagsSnoc([], EQ, false);
    FlagsSnoc([EQ], PERCENT, false);
    FlagsSnoc([EQ, PERCENT], PLUS, false);
    FlagsSnoc([EQ, PERCENT, PLUS], 52, false);
    FlagsSnoc([EQ, PERCENT, PLUS, 52], 49, false);
    hide Cut, FlagsOf;
    assert [] + [EQ] == [EQ];
  }
}
