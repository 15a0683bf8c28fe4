/** lib_js/init.js, the generator runtime: how one throw or return travels through
    the try statements of a generator. */
module Generator {
  import opened Options

  /** One try statement, by the locations of the generated switch: the try block
      starts at tryLoc, the handlers at catchLoc and finallyLoc. The runtime does
      not look at the rest: `exitLoc` is where the finally block calls finish,
      `endLoc` is the first location after the statement. */
  datatype Try = Try(tryLoc: int, catchLoc: Option<int>, finallyLoc: Option<int>, exitLoc: int, endLoc: int)

  datatype Completion<V> = Normal | Throw(value: V) | Return(value: V)

  datatype Handler = Catch(loc: int) | Finally(loc: int)

  /** How the code of a finally block ends: it falls through to finish, or it
      returns or throws on its own at some location. */
  datatype Body<V> = Falls | Returns(value: V, at: int) | Throws(value: V, at: int)

  /** How the journey ends. */
  datatype Outcome<V> = Caught(loc: int, caught: V) | Thrown(thrown: V) | Returned(returned: V)

  datatype Journey<V> = Journey(visited: seq<Handler>, outcome: Outcome<V>)

  // ---- well-formed code ---------------------------------------------------------------------

  /** Locations in the order of the blocks; a handler exists. */
  predicate Ordered(t: Try) {
    && (t.catchLoc.Some? || t.finallyLoc.Some?)
    && (t.catchLoc.Some? ==> t.tryLoc < t.catchLoc.value < t.endLoc)
    && (t.finallyLoc.Some? ==> t.tryLoc < t.finallyLoc.value <= t.exitLoc < t.endLoc)
    && (t.catchLoc.Some? && t.finallyLoc.Some? ==> t.catchLoc.value < t.finallyLoc.value)
  }

  /** b lies in one block of a. */
  predicate Inside(a: Try, b: Try) {
    || (a.tryLoc <= b.tryLoc && b.endLoc <=
        (if a.catchLoc.Some? then a.catchLoc.value else if a.finallyLoc.Some? then a.finallyLoc.value else a.endLoc))
    || (a.catchLoc.Some? && a.catchLoc.value <= b.tryLoc
        && b.endLoc <= (if a.finallyLoc.Some? then a.finallyLoc.value else a.endLoc))
    || (a.finallyLoc.Some? && a.finallyLoc.value <= b.tryLoc && b.endLoc <= a.endLoc
        && (a.exitLoc < b.tryLoc || b.endLoc <= a.exitLoc))
  }

  predicate Apart(a: Try, b: Try) { a.endLoc <= b.tryLoc || b.endLoc <= a.tryLoc }

  /** Properly nested, outer statements listed first. */
  predicate Nested(tries: seq<Try>) {
    && (forall i | 0 <= i < |tries| :: Ordered(tries[i]))
    && forall i, j | 0 <= i < j < |tries| :: Inside(tries[i], tries[j]) || Apart(tries[i], tries[j])
  }

  // ---- what should happen ---------------------------------------------------------------------

  /** The handler of t that is still ahead of location p, for an exception or
      for a return, which passes catch blocks by. */
  function Ahead(t: Try, p: int, throwing: bool): Option<Handler> {
    if t.tryLoc > p then None
    else if throwing && t.catchLoc.Some? && p < t.catchLoc.value then Some(Catch(t.catchLoc.value))
    else if t.finallyLoc.Some? && p < t.finallyLoc.value then Some(Finally(t.finallyLoc.value))
    else None
  }

  /** The innermost of the first n statements with a handler ahead, -1 if none. */
  function Search(tries: seq<Try>, n: int, p: int, throwing: bool): (i: int)
    requires 0 <= n <= |tries|
    ensures -1 <= i < n && (i >= 0 ==> Ahead(tries[i], p, throwing).Some?)
    ensures forall k | i < k < n :: Ahead(tries[k], p, throwing).None?
  {
    if n == 0 then -1 else if Ahead(tries[n - 1], p, throwing).Some? then n - 1 else Search(tries, n - 1, p, throwing)
  }

  /** What a finally block makes of the completion that was on its way. */
  function After<V>(c: Completion<V>, body: Body<V>): Completion<V> {
    match body
    case Falls => c
    case Returns(v, _) => Return(v)
    case Throws(v, _) => Throw(v)
  }

  /** Where the finally block of t is left. */
  function Exit<V>(t: Try, body: Body<V>): int { if body.Falls? then t.exitLoc else body.at }

  /** The block of statement j is left from a location in it at which no statement
      inside of it has a handler ahead: that would not leave the block. */
  predicate Leaves<V>(tries: seq<Try>, j: int, body: Body<V>)
    requires 0 <= j < |tries|
  {
    tries[j].finallyLoc.Some? && !body.Falls? ==>
      && tries[j].finallyLoc.value <= body.at <= tries[j].exitLoc
      && forall k | j < k < |tries| :: Ahead(tries[k], body.at, body.Throws?).None?
  }

  predicate AllLeave<V>(tries: seq<Try>, bodies: seq<Body<V>>)
    requires |bodies| == |tries|
  {
    forall j | 0 <= j < |tries| :: Leaves(tries, j, bodies[j])
  }

  /** From one location p, without ever looking at the locations of the handlers
      that are run: each finally block ahead once, innermost first; an exception
      ends at the first catch block; what gets out is the last completion. */
  function Travel<V>(tries: seq<Try>, n: int, p: int, c: Completion<V>, bodies: seq<Body<V>>): Journey<V>
    requires 0 <= n <= |tries| == |bodies| && !c.Normal?
  {
    if n == 0 then Journey([], if c.Throw? then Thrown(c.value) else Returned(c.value))
    else
      match Ahead(tries[n - 1], p, c.Throw?)
      case None => Travel(tries, n - 1, p, c, bodies)
      case Some(Catch(loc)) => Journey([Catch(loc)], Caught(loc, c.value))
      case Some(Finally(loc)) =>
        var j := Travel(tries, n - 1, p, After(c, bodies[n - 1]), bodies);
        Journey([Finally(loc)] + j.visited, j.outcome)
  }

  // ---- why looking again from a new location finds the same ---------------------------------------

  /** Statements around b see any location in its finally block as they see any in
      its try block. */
  lemma MovedOut(a: Try, b: Try, p: int, q: int, throwing: bool, next: bool)
    requires Ordered(a) && Ordered(b) && (Inside(a, b) || Apart(a, b))
    requires Ahead(b, p, throwing).Some? && Ahead(b, p, throwing).value.Finally?
    requires b.finallyLoc.value <= q <= b.exitLoc
    ensures Ahead(a, q, next) == Ahead(a, p, next)
  {}

  /** Once its finally block has run, neither a statement nor any listed after it
      has a handler ahead. */
  lemma MovedPast(a: Try, b: Try, throwing: bool)
    requires Ordered(a) && Ordered(b) && (Inside(a, b) || Apart(a, b)) && a.finallyLoc.Some?
    ensures Ahead(a, a.exitLoc, throwing).None? && Ahead(b, a.exitLoc, throwing).None?
  {}

  /** The journey depends on the location only through what is ahead. */
  lemma TravelStep<V>(tries: seq<Try>, n: int, p: int, q: int, c: Completion<V>, bodies: seq<Body<V>>)
    requires 0 < n <= |tries| == |bodies| && !c.Normal?
    requires Ahead(tries[n - 1], q, c.Throw?) == Ahead(tries[n - 1], p, c.Throw?)
    requires Travel(tries, n - 1, q, c, bodies) == Travel(tries, n - 1, p, c, bodies)
    requires Travel(tries, n - 1, q, After(c, bodies[n - 1]), bodies)
        == Travel(tries, n - 1, p, After(c, bodies[n - 1]), bodies)
    ensures Travel(tries, n, q, c, bodies) == Travel(tries, n, p, c, bodies)
  {
    hide Ahead;
  }

  lemma {:induction false} TravelBelow<V>(tries: seq<Try>, n: int, j: int, p: int, q: int, throwing: bool,
                                          c: Completion<V>, bodies: seq<Body<V>>)
    requires Nested(tries) && 0 <= n <= j < |tries| == |bodies| && !c.Normal?
    requires Ahead(tries[j], p, throwing).Some? && Ahead(tries[j], p, throwing).value.Finally?
    requires tries[j].finallyLoc.Some? && tries[j].finallyLoc.value <= q <= tries[j].exitLoc
    ensures Travel(tries, n, q, c, bodies) == Travel(tries, n, p, c, bodies)
  {
    hide Ahead, Inside, Apart, Ordered;
    if n > 0 {
      MovedOut(tries[n - 1], tries[j], p, q, throwing, c.Throw?);
      TravelBelow(tries, n - 1, j, p, q, throwing, c, bodies);
      TravelBelow(tries, n - 1, j, p, q, throwing, After(c, bodies[n - 1]), bodies);
      TravelStep(tries, n, p, q, c, bodies);
    }
  }

  lemma {:induction false} TravelSkips<V>(tries: seq<Try>, n: int, j: int, p: int, c: Completion<V>,
      bodies: seq<Body<V>>)
    requires 0 <= j <= n <= |tries| == |bodies| && !c.Normal?
    requires forall k | j <= k < n :: Ahead(tries[k], p, c.Throw?).None?
    ensures Travel(tries, n, p, c, bodies) == Travel(tries, j, p, c, bodies)
  {
    if n > j { TravelSkips(tries, n - 1, j, p, c, bodies); }
  }

  /** Where a finally block is left, nothing from its statement on has a handler
      ahead. */
  lemma PastAll<V>(tries: seq<Try>, j: int, c: Completion<V>, body: Body<V>)
    requires Nested(tries) && 0 <= j < |tries| && tries[j].finallyLoc.Some? && Leaves(tries, j, body)
    ensures forall k | j <= k < |tries| :: Ahead(tries[k], Exit(tries[j], body), After(c, body).Throw?).None?
    ensures tries[j].finallyLoc.value <= Exit(tries[j], body) <= tries[j].exitLoc
  {
    assert Ordered(tries[j]);
    forall k | j <= k < |tries| ensures Ahead(tries[k], Exit(tries[j], body), After(c, body).Throw?).None? {
      if k > j && body.Falls? { MovedPast(tries[j], tries[k], c.Throw?); }
    }
  }

  /** After the finally block of statement j: the journey goes on from there as it
      would have from p, and nothing from j on is found again. */
  lemma AfterFinally<V>(tries: seq<Try>, j: int, p: int, c: Completion<V>, bodies: seq<Body<V>>)
    requires Nested(tries) && |tries| == |bodies| && !c.Normal? && j == Search(tries, |tries|, p, c.Throw?) && j >= 0
    requires Ahead(tries[j], p, c.Throw?).value.Finally? && Leaves(tries, j, bodies[j])
    ensures var q, d := Exit(tries[j], bodies[j]), After(c, bodies[j]);
            var rest := Travel(tries, |tries|, q, d, bodies);
            && Travel(tries, |tries|, p, c, bodies)
                == Journey([Ahead(tries[j], p, c.Throw?).value] + rest.visited, rest.outcome)
            && Search(tries, |tries|, q, d.Throw?) < j
  {
    hide Ahead, Nested, Search, Leaves, Exit;
    var q, d := Exit(tries[j], bodies[j]), After(c, bodies[j]);
    FinallyHas(tries[j], p, c.Throw?);
    PastAll(tries, j, c, bodies[j]);
    TravelAt(tries, j, p, c, bodies);
    hide Travel, After;
    TravelSkips(tries, |tries|, j + 1, p, c, bodies);
    TravelSkips(tries, |tries|, j, q, d, bodies);
    TravelBelow(tries, j, j, p, q, c.Throw?, d, bodies);
  }

  lemma TravelAt<V>(tries: seq<Try>, j: int, p: int, c: Completion<V>, bodies: seq<Body<V>>)
    requires 0 <= j < |tries| == |bodies| && !c.Normal?
    requires Ahead(tries[j], p, c.Throw?).Some? && Ahead(tries[j], p, c.Throw?).value.Finally?
    ensures var rest := Travel(tries, j, p, After(c, bodies[j]), bodies);
            Travel(tries, j + 1, p, c, bodies)
                == Journey([Ahead(tries[j], p, c.Throw?).value] + rest.visited, rest.outcome)
  {
    hide Ahead;
  }

  lemma FinallyHas(t: Try, p: int, throwing: bool)
    requires Ahead(t, p, throwing).Some? && Ahead(t, p, throwing).value.Finally?
    ensures t.finallyLoc == Some(Ahead(t, p, throwing).value.loc)
  {}

  lemma NothingAhead<V>(tries: seq<Try>, p: int, c: Completion<V>, bodies: seq<Body<V>>)
    requires |tries| == |bodies| && !c.Normal?
    ensures Search(tries, |tries|, p, c.Throw?) == -1 ==>
              Travel(tries, |tries|, p, c, bodies)
                  == Journey([], if c.Throw? then Thrown(c.value) else Returned(c.value))
    ensures var j := Search(tries, |tries|, p, c.Throw?);
            j >= 0 && Ahead(tries[j], p, c.Throw?).value.Catch? ==>
              var loc := Ahead(tries[j], p, c.Throw?).value.loc;
              Travel(tries, |tries|, p, c, bodies) == Journey([Catch(loc)], Caught(loc, c.value))
  {
    var j := Search(tries, |tries|, p, c.Throw?);
    TravelSkips(tries, |tries|, j + 1, p, c, bodies);
  }

  /** The handlers of t start at loc. */
  predicate StartsAt(t: Try, loc: int) { t.catchLoc == Some(loc) || t.finallyLoc == Some(loc) }

  /** A handler location belongs to one statement only. */
  lemma DistinctHandlers(tries: seq<Try>, j: int, loc: int)
    requires Nested(tries) && 0 <= j < |tries| && StartsAt(tries[j], loc)
    ensures forall i | 0 <= i < |tries| && i != j :: !StartsAt(tries[i], loc)
  {
    forall i | 0 <= i < |tries| && i != j ensures !StartsAt(tries[i], loc) {
      if i < j { OtherHandlers(tries[i], tries[j], loc); } else { OtherHandlers(tries[j], tries[i], loc); }
    }
  }

  lemma OtherHandlers(a: Try, b: Try, loc: int)
    requires Ordered(a) && Ordered(b) && (Inside(a, b) || Apart(a, b))
    ensures StartsAt(a, loc) ==> !StartsAt(b, loc)
  {}

  lemma HandlerStarts(t: Try, p: int, throwing: bool)
    requires Ordered(t) && Ahead(t, p, throwing).Some?
    ensures var h := Ahead(t, p, throwing).value;
            && StartsAt(t, h.loc)
            && (h.Catch? <==> t.catchLoc == Some(h.loc)) && (h.Finally? <==> t.finallyLoc == Some(h.loc))
  {}

  // ---- what the journey is like ----------------------------------------------------------------------

  /** The handler belongs to one of the first n statements. */
  ghost predicate Among(tries: seq<Try>, n: int, h: Handler)
    requires 0 <= n <= |tries|
  {
    exists k :: 0 <= k < n && StartsAt(tries[k], h.loc)
  }

  /** No handler is entered twice. */
  lemma TravelPast<V>(tries: seq<Try>, j: int, p: int, c: Completion<V>, bodies: seq<Body<V>>)
    requires 0 <= j < |tries| == |bodies| && !c.Normal?
    ensures var a, v := Ahead(tries[j], p, c.Throw?), Travel(tries, j + 1, p, c, bodies);
            && (a.None? ==> v == Travel(tries, j, p, c, bodies))
            && (a.Some? && a.value.Catch? ==> v.visited == [a.value])
  {
    hide Ahead;
  }

  /** No handler twice, and only handlers of the first n statements. */
  ghost predicate Once(tries: seq<Try>, n: int, v: seq<Handler>)
    requires 0 <= n <= |tries|
  {
    (forall i, j | 0 <= i < j < |v| :: v[i] != v[j]) && (forall i | 0 <= i < |v| :: Among(tries, n, v[i]))
  }

  lemma OnceMore(tries: seq<Try>, j: int, v: seq<Handler>)
    requires 0 <= j < |tries| && Once(tries, j, v)
    ensures Once(tries, j + 1, v)
  {
    forall i | 0 <= i < |v| ensures Among(tries, j + 1, v[i]) { AmongMore(tries, j, v[i]); }
  }

  lemma OnceCons(tries: seq<Try>, j: int, h: Handler, rest: seq<Handler>)
    requires 0 <= j < |tries| && Once(tries, j, rest) && Among(tries, j + 1, h) && !Among(tries, j, h)
    ensures Once(tries, j + 1, [h] + rest)
  {
    hide Among;
    OnceMore(tries, j, rest);
  }

  lemma {:induction false} EachOnce<V>(tries: seq<Try>, n: int, p: int, c: Completion<V>, bodies: seq<Body<V>>)
    requires Nested(tries) && 0 <= n <= |tries| == |bodies| && !c.Normal?
    ensures Once(tries, n, Travel(tries, n, p, c, bodies).visited)
  {
    hide Ahead, Nested, StartsAt, Travel, Among, Once;
    if n > 0 {
      var d := After(c, bodies[n - 1]);
      EachOnce(tries, n - 1, p, c, bodies);
      EachOnce(tries, n - 1, p, d, bodies);
      TravelPast(tries, n - 1, p, c, bodies);
      var a := Ahead(tries[n - 1], p, c.Throw?);
      if a.None? {
        OnceMore(tries, n - 1, Travel(tries, n - 1, p, c, bodies).visited);
      } else {
        AmongLast(tries, n - 1, p, c.Throw?);
        if a.value.Finally? {
          TravelAt(tries, n - 1, p, c, bodies);
          OnceCons(tries, n - 1, a.value, Travel(tries, n - 1, p, d, bodies).visited);
        } else {
          OnceLone(tries, n, a.value);
        }
      }
    } else {
      OnceNone(tries, p, c, bodies);
    }
  }

  lemma OnceLone(tries: seq<Try>, n: int, h: Handler)
    requires 0 <= n <= |tries| && Among(tries, n, h)
    ensures Once(tries, n, [h])
  {}

  lemma OnceNone<V>(tries: seq<Try>, p: int, c: Completion<V>, bodies: seq<Body<V>>)
    requires |tries| == |bodies| && !c.Normal?
    ensures Once(tries, 0, Travel(tries, 0, p, c, bodies).visited)
  {}

  lemma AmongMore(tries: seq<Try>, j: int, h: Handler)
    requires 0 <= j < |tries|
    ensures Among(tries, j, h) ==> Among(tries, j + 1, h)
  {
    if Among(tries, j, h) {
      var k :| 0 <= k < j && StartsAt(tries[k], h.loc);
    }
  }

  lemma AmongLast(tries: seq<Try>, j: int, p: int, throwing: bool)
    requires Nested(tries) && 0 <= j < |tries| && Ahead(tries[j], p, throwing).Some?
    ensures Among(tries, j + 1, Ahead(tries[j], p, throwing).value)
    ensures !Among(tries, j, Ahead(tries[j], p, throwing).value)
  {
    HandlerStarts(tries[j], p, throwing);
    DistinctHandlers(tries, j, Ahead(tries[j], p, throwing).value.loc);
    hide Ahead, StartsAt;
  }

  /** If every finally block falls through, the exception or the value gets out
      unchanged, and a return enters every finally block that is ahead. */
  lemma {:induction false} OwnValue<V>(tries: seq<Try>, n: int, p: int, c: Completion<V>, bodies: seq<Body<V>>)
    requires 0 <= n <= |tries| == |bodies| && !c.Normal? && forall i | 0 <= i < n :: bodies[i].Falls?
    ensures var j := Travel(tries, n, p, c, bodies);
            && (c.Return? ==> j.outcome == Returned(c.value))
            && (c.Throw? ==> j.outcome == Thrown(c.value) || (j.outcome.Caught? && j.outcome.caught == c.value))
            && (forall i | 0 <= i < n && Ahead(tries[i], p, false).Some? && (c.Return? || j.outcome.Thrown?) ::
                  Ahead(tries[i], p, false).value in j.visited)
  {
    if n > 0 {
      OwnValue(tries, n - 1, p, c, bodies);
      hide Ahead;
      AheadBoth(tries[n - 1], p);
    }
  }

  lemma AheadBoth(t: Try, p: int)
    ensures Ahead(t, p, true).None? ==> Ahead(t, p, false).None?
    ensures Ahead(t, p, true).Some? && Ahead(t, p, true).value.Finally? ==> Ahead(t, p, false) == Ahead(t, p, true)
  {}

  // ---- the journey by the locations alone -------------------------------------------------------------

  /** Location p is in the try block of t, or before its finally block: what is thrown
      there, or returned, comes to t. */
  predicate Guards(t: Try, p: int, throwing: bool) {
    t.tryLoc <= p && ((throwing && t.catchLoc.Some? && p < t.catchLoc.value)
                      || (t.finallyLoc.Some? && p < t.finallyLoc.value))
  }

  /** The last of the statements, and so the innermost, that guards p. */
  predicate Innermost(tries: seq<Try>, j: int, p: int, throwing: bool) {
    0 <= j < |tries| && Guards(tries[j], p, throwing) && forall k | j < k < |tries| :: !Guards(tries[k], p, throwing)
  }

  predicate Unguarded(tries: seq<Try>, p: int, throwing: bool) {
    forall k | 0 <= k < |tries| :: !Guards(tries[k], p, throwing)
  }

  lemma AheadIs(t: Try, p: int, throwing: bool)
    ensures Ahead(t, p, throwing).Some? <==> Guards(t, p, throwing)
    ensures Guards(t, p, throwing) ==>
              Ahead(t, p, throwing).value ==
              if throwing && t.catchLoc.Some? && p < t.catchLoc.value then Catch(t.catchLoc.value)
              else Finally(t.finallyLoc.value)
  {}

  lemma SearchIs(tries: seq<Try>, p: int, throwing: bool)
    ensures var i := Search(tries, |tries|, p, throwing);
            && (i < 0 <==> Unguarded(tries, p, throwing)) && (i >= 0 ==> Innermost(tries, i, p, throwing))
    ensures forall j | Innermost(tries, j, p, throwing) :: j == Search(tries, |tries|, p, throwing)
  {
    forall k | 0 <= k < |tries| ensures Ahead(tries[k], p, throwing).Some? <==> Guards(tries[k], p, throwing) {
      AheadIs(tries[k], p, throwing);
    }
    hide Guards, Ahead;
  }

  /** Nothing on the way: the exception or the value gets out. */
  lemma TravelsOut<V>(tries: seq<Try>, p: int, c: Completion<V>, bodies: seq<Body<V>>)
    requires |tries| == |bodies| && !c.Normal? && Unguarded(tries, p, c.Throw?)
    ensures Travel(tries, |tries|, p, c, bodies)
            == Journey([], if c.Throw? then Thrown(c.value) else Returned(c.value))
  {
    SearchIs(tries, p, c.Throw?);
    NothingAhead(tries, p, c, bodies);
  }

  /** What is thrown in the try block of a statement that has a catch block ends there,
      with or without a finally block. */
  lemma TravelsToCatch<V>(tries: seq<Try>, j: int, p: int, c: Completion<V>, bodies: seq<Body<V>>)
    requires |tries| == |bodies| && c.Throw? && Innermost(tries, j, p, true)
    requires tries[j].catchLoc.Some? && p < tries[j].catchLoc.value
    ensures var loc := tries[j].catchLoc.value;
            Travel(tries, |tries|, p, c, bodies) == Journey([Catch(loc)], Caught(loc, c.value))
  {
    SearchIs(tries, p, true);
    AheadIs(tries[j], p, true);
    NothingAhead(tries, p, c, bodies);
  }

  /** Anything else goes to the finally block first, and then on with what that makes
      of it, as if from the same location outside of the statement. */
  lemma TravelsToFinally<V>(tries: seq<Try>, j: int, p: int, c: Completion<V>, bodies: seq<Body<V>>)
    requires |tries| == |bodies| && !c.Normal? && Innermost(tries, j, p, c.Throw?)
    requires c.Throw? && tries[j].catchLoc.Some? ==> tries[j].catchLoc.value <= p
    ensures var rest := Travel(tries, j, p, After(c, bodies[j]), bodies);
            && tries[j].finallyLoc.Some?
            && Travel(tries, |tries|, p, c, bodies)
               == Journey([Finally(tries[j].finallyLoc.value)] + rest.visited, rest.outcome)
  {
    SearchIs(tries, p, c.Throw?);
    AheadIs(tries[j], p, c.Throw?);
    hide Ahead, Guards, Search;
    TravelSkips(tries, |tries|, j + 1, p, c, bodies);
    TravelAt(tries, j, p, c, bodies);
  }

  /** A finally block that returns or throws itself replaces what was on its way. */
  lemma Overrides<V>(tries: seq<Try>, j: int, p: int, c: Completion<V>, bodies: seq<Body<V>>)
    requires |tries| == |bodies| && !c.Normal? && Innermost(tries, j, p, c.Throw?)
    requires c.Throw? && tries[j].catchLoc.Some? ==> tries[j].catchLoc.value <= p
    requires !bodies[j].Falls? && forall i | 0 <= i < j :: bodies[i].Falls?
    ensures var out := Travel(tries, |tries|, p, c, bodies).outcome;
            && (bodies[j].Returns? ==> out == Returned(bodies[j].value))
            && (bodies[j].Throws? ==>
                  out == Thrown(bodies[j].value) || (out.Caught? && out.caught == bodies[j].value))
  {
    TravelsToFinally(tries, j, p, c, bodies);
    OwnValue(tries, j, p, After(c, bodies[j]), bodies);
    hide Travel;
  }

  // ---- the runtime --------------------------------------------------------------------------------

  datatype Method = Next | ThrowMethod | ReturnMethod

  datatype Location = At(loc: int) | End

  class Context<V> {
    /** tryEntries without the root entry, and the completions kept in them. */
    const tries: seq<Try>
    var completions: seq<Completion<V>>
    var rootCompletion: Completion<V>
    var prev: int
    var next: Location
    var done: bool
    var resumption: Method
    var arg: Option<V>
    var rval: Option<V>

    ghost predicate Valid()
      reads this
    {
      Nested(tries) && |completions| == |tries|
    }

    /** A generator suspended at location p, with nothing pending. */
    constructor (tries: seq<Try>, p: int)
      requires Nested(tries)
      ensures Valid() && this.tries == tries && prev == p && !done && rootCompletion == Normal
    {
      this.tries := tries;
      completions := seq(|tries|, _ => Normal);
      rootCompletion, prev, next, done, resumption, arg, rval := Normal, p, At(p), false, Next, None, None;
    }

    /** What dispatchException and abrupt look for, by the loop of the source. */
    method FindHandler(throwing: bool) returns (i: int)
      requires Valid()
      ensures i == Search(tries, |tries|, prev, throwing)
    {
      i := |tries| - 1;
      while i >= 0
        invariant -1 <= i < |tries| && Search(tries, i + 1, prev, throwing) == Search(tries, |tries|, prev, throwing)
        decreases i
      {
        var entry := tries[i];
        if entry.tryLoc <= prev {
          if throwing && entry.catchLoc.Some? && prev < entry.catchLoc.value { return; }
          if entry.finallyLoc.Some? && prev < entry.finallyLoc.value { return; }
        }
        i := i - 1;
      }
    }

    /** dispatchException; `rethrown` when the generator is finished already. */
    method DispatchException(exception: V) returns (rethrown: bool)
      requires Valid()
      modifies this
      ensures Valid() && prev == old(prev) && done == old(done) && rval == old(rval) && rethrown == done
      ensures rethrown ==> arg == old(arg)
      ensures var j := Search(tries, |tries|, prev, true);
              && (rethrown ==> completions == old(completions) && rootCompletion == old(rootCompletion))
              && (!rethrown && j < 0 ==>
                    next == End && rootCompletion == Throw(exception) && completions == old(completions))
              && (!rethrown && j >= 0 ==>
                    && next == At(Ahead(tries[j], prev, true).value.loc)
                    && completions == old(completions)[j := Throw(exception)] && rootCompletion == old(rootCompletion)
                    && (Ahead(tries[j], prev, true).value.Catch? ==> resumption == Next))
      // The same by the locations alone.
      ensures !rethrown && Unguarded(tries, prev, true) ==> next == End
      ensures forall j | !rethrown && Innermost(tries, j, prev, true) ::
                && completions == old(completions)[j := Throw(exception)]
                && if tries[j].catchLoc.Some? && prev < tries[j].catchLoc.value
                   then next == At(tries[j].catchLoc.value) && resumption == Next && arg == None
                   else next == At(tries[j].finallyLoc.value)
    {
      SearchIs(tries, prev, true);
      rethrown := done;
      if done { return; }
      var i := FindHandler(true);
      if i < 0 {
        rootCompletion := Throw(exception);
        next := End;
        return;
      }
      completions := completions[i := Throw(exception)];
      var entry := tries[i];
      if entry.catchLoc.Some? && prev < entry.catchLoc.value {
        next := At(entry.catchLoc.value);
        resumption, arg := Next, None;
      } else {
        next := At(entry.finallyLoc.value);
      }
    }

    /** abrupt("return", value). */
    method AbruptReturn(value: V)
      requires Valid()
      modifies this
      ensures Valid() && prev == old(prev) && done == old(done) && rootCompletion == old(rootCompletion)
      ensures var j := Search(tries, |tries|, prev, false);
              if j < 0 then next == End && resumption == ReturnMethod && arg == Some(value) && rval == Some(value)
                            && completions == old(completions)
              else next == At(Ahead(tries[j], prev, false).value.loc) && resumption == Next
                   && completions == old(completions)[j := Return(value)]
      // The same by the locations alone.
      ensures Unguarded(tries, prev, false) ==> next == End
      ensures forall j | Innermost(tries, j, prev, false) ::
                next == At(tries[j].finallyLoc.value) && completions == old(completions)[j := Return(value)]
    {
      SearchIs(tries, prev, false);
      var i := FindHandler(false);
      if i >= 0 {
        completions := completions[i := Return(value)];
        resumption := Next;
        next := At(tries[i].finallyLoc.value);
      } else {
        var thrown := Complete(Return(value));
      }
    }

    /** complete, for the completions that occur here. */
    method Complete(record: Completion<V>) returns (thrown: Option<V>)
      requires Valid() && !record.Normal?
      modifies this
      ensures Valid() && prev == old(prev) && done == old(done) && completions == old(completions)
      ensures rootCompletion == old(rootCompletion)
      ensures record.Throw? ==> thrown == Some(record.value) && next == old(next) && resumption == old(resumption)
      ensures record.Return? ==> thrown == None && next == End && resumption == ReturnMethod
                                 && arg == Some(record.value) && rval == Some(record.value)
    {
      thrown := None;
      if record.Throw? { return Some(record.value); }
      rval, arg, resumption, next := Some(record.value), Some(record.value), ReturnMethod, End;
    }

    /** finish(finallyLoc): a completion that is thrown on is not reset. */
    method Finish(finallyLoc: int, ghost j: int) returns (thrown: Option<V>)
      requires Valid() && 0 <= j < |tries| && tries[j].finallyLoc == Some(finallyLoc) && !completions[j].Normal?
      modifies this
      ensures Valid() && prev == old(prev) && done == old(done) && rootCompletion == old(rootCompletion)
      ensures old(completions[j]).Throw? ==>
                thrown == Some(old(completions[j]).value) && completions == old(completions)
      ensures old(completions[j]).Return? ==>
                && thrown == None && resumption == ReturnMethod && arg == Some(old(completions[j]).value)
                && completions == old(completions)[j := Normal]
    {
      DistinctHandlers(tries, j, finallyLoc);
      var i := |tries| - 1;
      while tries[i].finallyLoc != Some(finallyLoc)
        invariant j <= i < |tries|
        decreases i
      {
        i := i - 1;
      }
      thrown := Complete(completions[i]);
      if thrown.None? { completions := completions[i := Normal]; }
    }

    /** stop, at the end of the function. */
    method Stop() returns (thrown: Option<V>)
      requires Valid()
      modifies this`done
      ensures done && thrown == if rootCompletion.Throw? then Some(rootCompletion.value) else None
    {
      done := true;
      thrown := if rootCompletion.Throw? then Some(rootCompletion.value) else None;
    }

    /** c is on its way and not yet dispatched. */
    ghost predicate Sending(c: Completion<V>)
      reads this
    {
      && arg.Some?
      && ((resumption == ThrowMethod && c == Throw(arg.value))
          || (resumption == ReturnMethod && c == Return(arg.value)))
    }

    /** c has been dispatched: `next` is where it goes, and it is kept there. */
    ghost predicate Selected(c: Completion<V>)
      requires Valid() && !c.Normal?
      reads this
    {
      var j := Search(tries, |tries|, prev, c.Throw?);
      if j >= 0 then next == At(Ahead(tries[j], prev, c.Throw?).value.loc) && completions[j] == c
          && rootCompletion.Normal?
      else next == End && (if c.Throw? then rootCompletion == c else rootCompletion.Normal? && rval == Some(c.value))
    }

    /** The first half of an iteration of invoke. */
    method Select(ghost c: Completion<V>)
      requires Valid() && !done && rootCompletion.Normal? && !c.Normal?
          && (Sending(c) || (resumption == Next && Selected(c)))
      modifies this
      ensures Valid() && !done && prev == old(prev) && Selected(c)
    {
      if resumption == ThrowMethod {
        var rethrown := DispatchException(arg.value);
      } else if resumption == ReturnMethod {
        AbruptReturn(arg.value);
      }
    }

    /** The block that starts at a location. */
    method BlockAt(loc: int, ghost j: int) returns (i: int)
      requires Valid() && 0 <= j < |tries| && StartsAt(tries[j], loc)
      ensures i == j
    {
      DistinctHandlers(tries, j, loc);
      i := 0;
      while tries[i].catchLoc != Some(loc) && tries[i].finallyLoc != Some(loc)
        invariant 0 <= i <= j
        decreases j - i
      {
        i := i + 1;
      }
    }

    /** The second half: the generated code runs the finally block of statement i. */
    method RunFinally(i: int, body: Body<V>, ghost c: Completion<V>)
      requires Valid() && !done && rootCompletion.Normal? && !c.Normal?
      requires 0 <= i < |tries| && tries[i].finallyLoc.Some? && completions[i] == c
      modifies this
      ensures Valid() && !done && rootCompletion.Normal? && prev == Exit(tries[i], body)
      ensures var d := After(c, body); Sending(d) || (resumption == Next && Selected(d))
    {
      prev := if body.Falls? then tries[i].exitLoc else body.at;
      match body {
        case Falls =>
          var thrown := Finish(tries[i].finallyLoc.value, i);
          if thrown.Some? { resumption, arg := ThrowMethod, thrown; }
        case Returns(v, _) =>
          AbruptReturn(v);
        case Throws(v, _) =>
          resumption, arg := ThrowMethod, Some(v);
      }
    }

    /** invoke, for one exception or return that comes in at a suspended
        generator, or out of its code, at location prev. The generated code runs a
        finally block until it ends as `bodies` says, and hands over at a catch block. */
    method Invoke(throwing: bool, value: V, bodies: seq<Body<V>>) returns (visited: seq<Handler>, outcome: Outcome<V>)
      requires Valid() && !done && rootCompletion.Normal? && |bodies| == |tries| && AllLeave(tries, bodies)
      modifies this
      ensures Journey(visited, outcome) ==
              Travel(tries, |tries|, old(prev), if throwing then Throw(value) else Return(value), bodies)
    {
      hide Travel, Search, Ahead, Nested, Leaves;
      visited := [];
      ghost var c: Completion<V> := if throwing then Throw(value) else Return(value);
      ghost var goal := Travel(tries, |tries|, prev, c, bodies);
      assert [] + goal.visited == goal.visited;
      resumption, arg := if throwing then ThrowMethod else ReturnMethod, Some(value);
      while true
        invariant Valid() && !c.Normal? && (!done ==> rootCompletion.Normal?)
        invariant Sending(c) || (!done && resumption == Next && Selected(c))
        invariant done ==> c.Throw? && goal == Journey(visited, Thrown(c.value))
        invariant !done ==> var rest := Travel(tries, |tries|, prev, c, bodies);
                            goal == Journey(visited + rest.visited, rest.outcome)
        decreases if done then 0 else Search(tries, |tries|, prev, c.Throw?) + 2
      {
        if done {
          var rethrown := DispatchException(arg.value);
          return visited, Thrown(arg.value);
        }
        NothingAhead(tries, prev, c, bodies);
        Select(c);
        ghost var j := Search(tries, |tries|, prev, c.Throw?);
        match next {
          case End =>
            assert visited + [] == visited;
            assert c.Return? ==> rval == Some(c.value) && rootCompletion.Normal?;
            assert c.Throw? ==> rootCompletion == c;
            var thrown := Stop();
            if thrown.None? { return visited, Returned(rval.value); }
            resumption, arg := ThrowMethod, thrown;
          case At(loc) =>
            HandlerOf(j, c);
            var i := BlockAt(loc, j);
            if tries[i].catchLoc == Some(loc) {
              var caught := completions[i].value;
              completions := completions[i := Normal];
              return visited + [Catch(loc)], Caught(loc, caught);
            }
            AfterFinally(tries, j, prev, c, bodies);
            ghost var was := visited;
            visited := visited + [Finally(loc)];
            RunFinally(i, bodies[i], c);
            c := After(c, bodies[i]);
            Regroup(was, Finally(loc), Travel(tries, |tries|, prev, c, bodies).visited);
        }
      }
    }

    lemma Regroup(a: seq<Handler>, h: Handler, b: seq<Handler>)
      ensures a + ([h] + b) == a + [h] + b
    {}

    lemma HandlerOf(j: int, c: Completion<V>)
      requires Valid() && 0 <= j < |tries| && Ahead(tries[j], prev, c.Throw?).Some?
      ensures var h := Ahead(tries[j], prev, c.Throw?).value;
              && StartsAt(tries[j], h.loc)
              && (h.Catch? <==> tries[j].catchLoc == Some(h.loc)) && (h.Finally? ==> tries[j].finallyLoc == Some(h.loc))
    {
      HandlerStarts(tries[j], prev, c.Throw?);
    }
  }
}
