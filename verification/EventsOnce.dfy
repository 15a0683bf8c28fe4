/** lib_js/events.js, once: a run of nested emits over snapshots, with any calls of
    the emitter in between, and the window in which a once wrapper has been taken
    off but is not yet marked as fired. */
module EventsOnce {
  import opened Options
  import opened Events

  /** Wrapper w is the function -1 - w; the program's own functions are not
      negative. */
  datatype Wrapper = Wrapper(event: Event, inner: int)

  /** An emit that is going through its snapshot, or a wrapper between its
      removal and `fired = true`. */
  datatype Frame = Emitting(snapshot: seq<Listener>, at: int) | Removing(wrapper: int)

  datatype Run = Run(lists: map<Event, seq<Listener>>, wrappers: seq<Wrapper>, fired: set<int>, runs: seq<int>,
                     frames: seq<Frame>)
  {
    function Of(t: Event): seq<Listener> { if t in lists then lists[t] else [] }
  }

  datatype Step =
    | On(t: Event, fn: int, prepend: bool)
    | Once(t: Event, fn: int, prepend: bool)
    | Off(t: Event, fn: int)
    | Clear(t: Event)
    | Emit(t: Event)
    | Call
    | Fire
    | Pop

  function Put(list: seq<Listener>, l: Listener, prepend: bool): seq<Listener> {
    if prepend then [l] + list else list + [l]
  }

  predicate TopRemoving(s: Run) { s.frames != [] && s.frames[|s.frames| - 1].Removing? }

  predicate TopCalls(s: Run) {
    s.frames != [] && var f := s.frames[|s.frames| - 1]; f.Emitting? && 0 <= f.at < |f.snapshot|
  }

  /** Handlers can do anything; between removal and firing only the handlers of
      "removeListener" are emitted. A wrapper is only registered by once. */
  predicate Enabled(s: Run, step: Step) {
    match step
    case On(_, fn, _) => !TopRemoving(s) && fn >= 0
    case Once(_, fn, _) => !TopRemoving(s) && fn >= 0
    case Off(_, _) => !TopRemoving(s)
    case Clear(_) => !TopRemoving(s)
    case Emit(t) => !TopRemoving(s) || t == ListenerRemoved
    case Call => TopCalls(s)
    case Fire => TopRemoving(s)
    case Pop => s.frames != [] && s.frames[|s.frames| - 1].Emitting? && !TopCalls(s)
  }

  function Next(s: Run, step: Step): Run
    requires Enabled(s, step)
  {
    match step
    case On(t, fn, prepend) => s.(lists := s.lists[t := Put(s.Of(t), Listener(fn, None), prepend)])
    case Once(t, fn, prepend) =>
      WithWrapper(s, t, fn).(lists := s.lists[t := Put(s.Of(t), Listener(-1 - |s.wrappers|, Some(fn)), prepend)])
    case Off(t, fn) => s.(lists := s.lists[t := Removed(s.Of(t), fn)])
    case Clear(t) => s.(lists := s.lists[t := []])
    case Emit(t) => s.(frames := s.frames + [Emitting(s.Of(t), 0)])
    case Call => CallNext(s)
    case Fire =>
      var w := s.frames[|s.frames| - 1].wrapper;
      s.(frames := s.frames[..|s.frames| - 1], fired := s.fired + {w},
         runs := if 0 <= w < |s.runs| then s.runs[w := s.runs[w] + 1] else s.runs)
    case Pop => s.(frames := s.frames[..|s.frames| - 1])
  }

  function WithWrapper(s: Run, t: Event, fn: int): Run {
    s.(wrappers := s.wrappers + [Wrapper(t, fn)], runs := s.runs + [0])
  }

  /** The next listener of the innermost emit. A wrapper that has not fired takes
      itself off first. */
  function CallNext(s: Run): Run
    requires TopCalls(s)
  {
    var n := |s.frames| - 1;
    var f := s.frames[n];
    var l := f.snapshot[f.at];
    var t := s.(frames := s.frames[n := f.(at := f.at + 1)]);
    var w := -1 - l.fn;
    if l.fn >= 0 || w in s.fired || w >= |s.wrappers| then t
    else
      var e := s.wrappers[w].event;
      t.(lists := s.lists[e := Removed(s.Of(e), l.fn)], frames := t.frames + [Removing(w)])
  }

  // ---- what every run keeps ----------------------------------------------------------------

  predicate Holds(list: seq<Listener>, w: int) { exists i :: 0 <= i < |list| && list[i].fn == -1 - w }

  /** No wrapper twice in a list. */
  predicate Single(list: seq<Listener>) {
    forall i, j | 0 <= i < j < |list| && list[i].fn < 0 :: list[i].fn != list[j].fn
  }

  predicate Known(s: Run, list: seq<Listener>) {
    forall i | 0 <= i < |list| ::
      && (list[i].fn < 0 ==> -1 - list[i].fn < |s.wrappers|)
      && (list[i].inner.Some? ==> list[i].inner.value >= 0)
  }

  predicate IsRemoving(s: Run, w: int) { Removing(w) in s.frames }

  predicate ListOk(s: Run, t: Event)
    requires t in s.lists
  {
    && Single(s.lists[t]) && Known(s, s.lists[t])
    && forall i | 0 <= i < |s.lists[t]| && s.lists[t][i].fn < 0 ::
         var w := -1 - s.lists[t][i].fn;
         w < |s.wrappers| && s.wrappers[w].event == t && w !in s.fired && !IsRemoving(s, w)
  }

  /** Frames above a removing wrapper hold snapshots without it. */
  predicate FramesOk(s: Run) {
    && (forall r | 0 <= r < |s.frames| && s.frames[r].Emitting? ::
        Single(s.frames[r].snapshot) && Known(s, s.frames[r].snapshot))
    && (forall r | 0 <= r < |s.frames| && s.frames[r].Removing? ::
          0 <= s.frames[r].wrapper < |s.wrappers| && s.frames[r].wrapper !in s.fired)
    && (forall r, u | 0 <= r < u < |s.frames| && s.frames[r].Removing? :: Above(s.frames[u], s.frames[r].wrapper))
  }

  predicate Above(f: Frame, w: int) {
    match f
    case Emitting(snapshot, _) => !Holds(snapshot, w)
    case Removing(v) => v != w
  }

  predicate RunsOk(s: Run) {
    && |s.runs| == |s.wrappers| && (forall w | w in s.fired :: 0 <= w < |s.wrappers|)
    && forall w | 0 <= w < |s.runs| :: s.runs[w] == if w in s.fired then 1 else 0
  }

  predicate Inv(s: Run) {
    (forall t | t in s.lists :: ListOk(s, t)) && FramesOk(s) && RunsOk(s)
  }

  lemma PutOk(s: Run, list: seq<Listener>, l: Listener, prepend: bool)
    requires Single(list) && Known(s, list) && (l.fn < 0 ==> !Holds(list, -1 - l.fn) && -1 - l.fn < |s.wrappers|)
    requires l.inner.Some? ==> l.inner.value >= 0
    ensures Single(Put(list, l, prepend)) && Known(s, Put(list, l, prepend))
  {
    assert forall i | 0 <= i < |list| && l.fn < 0 :: list[i].fn != l.fn;
  }

  /** Removing changes no other listener, and takes the wrapper out. */
  lemma RemovedOk(s: Run, list: seq<Listener>, fn: int)
    requires Single(list) && Known(s, list)
    ensures var r := Removed(list, fn);
            && Single(r) && Known(s, r) && (forall i | 0 <= i < |r| :: r[i] in list)
            && (fn < 0 ==> !Holds(r, -1 - fn))
  {
    var k := LastMatch(list, fn);
    var r := Removed(list, fn);
    if k >= 0 {
      assert forall i | 0 <= i < |r| :: r[i] == list[if i < k then i else i + 1];
      if fn < 0 { assert list[k].fn == fn; }
    }
  }

  predicate Registrable(s: Run, t: Event, l: Listener) {
    l.fn < 0 ==> var w := -1 - l.fn; w < |s.wrappers| && s.wrappers[w].event == t && w !in s.fired && !IsRemoving(s, w)
  }

  lemma ListKept(s: Run, t: Event, r: seq<Listener>)
    requires Inv(s) && Single(r) && Known(s, r) && forall i | 0 <= i < |r| :: Registrable(s, t, r[i])
    ensures Inv(s.(lists := s.lists[t := r]))
  {
    hide Single, Known, Above;
    var u := s.(lists := s.lists[t := r]);
    forall x | x in u.lists ensures ListOk(u, x) {
      if x != t { assert ListOk(s, x); KnownSame(s, u, s.lists[x]); } else { KnownSame(s, u, r); }
    }
    forall k | 0 <= k < |u.frames| && u.frames[k].Emitting? ensures Known(u, u.frames[k].snapshot) {
      KnownSame(s, u, u.frames[k].snapshot);
    }
  }

  lemma KnownSame(s: Run, u: Run, list: seq<Listener>)
    requires Known(s, list) && |s.wrappers| <= |u.wrappers|
    ensures Known(u, list)
  {}

  lemma OfOk(s: Run, t: Event)
    requires Inv(s)
    ensures Single(s.Of(t)) && Known(s, s.Of(t)) && forall i | 0 <= i < |s.Of(t)| :: Registrable(s, t, s.Of(t)[i])
  {
    if t in s.lists { assert ListOk(s, t); }
  }

  lemma KeepsOn(s: Run, t: Event, fn: int, prepend: bool)
    requires Inv(s) && fn >= 0
    ensures Inv(s.(lists := s.lists[t := Put(s.Of(t), Listener(fn, None), prepend)]))
  {
    OfOk(s, t);
    hide Inv, Single, Known, Registrable;
    PutOk(s, s.Of(t), Listener(fn, None), prepend);
    PlainIsRegistrable(s, t, fn);
    ListKept(s, t, Put(s.Of(t), Listener(fn, None), prepend));
  }

  lemma PlainIsRegistrable(s: Run, t: Event, fn: int)
    requires fn >= 0
    ensures Registrable(s, t, Listener(fn, None))
  {}

  lemma KeepsOff(s: Run, t: Event, fn: int)
    requires Inv(s)
    ensures Inv(s.(lists := s.lists[t := Removed(s.Of(t), fn)]))
  {
    OfOk(s, t);
    hide Inv, Single, Known, Registrable, Removed;
    RemovedOk(s, s.Of(t), fn);
    ListKept(s, t, Removed(s.Of(t), fn));
  }

  lemma KeepsClear(s: Run, t: Event)
    requires Inv(s)
    ensures Inv(s.(lists := s.lists[t := []]))
  {
    ListKept(s, t, []);
  }

  /** Room for one more wrapper. */
  lemma KeepsWrapper(s: Run, t: Event, fn: int)
    requires Inv(s)
    ensures var u, n := WithWrapper(s, t, fn), |s.wrappers|;
            Inv(u) && !Holds(u.Of(t), n) && n < |u.wrappers| && u.lists == s.lists && u.Of(t) == s.Of(t)
    ensures Registrable(WithWrapper(s, t, fn), t, Listener(-1 - |s.wrappers|, Some(fn)))
  {
    hide Single, Above;
    OfOk(s, t);
    var u := WithWrapper(s, t, fn);
    forall x | x in u.lists ensures ListOk(u, x) { assert ListOk(s, x); }
  }

  lemma PutRegistrable(s: Run, t: Event, list: seq<Listener>, l: Listener, prepend: bool)
    requires Registrable(s, t, l) && forall i | 0 <= i < |list| :: Registrable(s, t, list[i])
    ensures forall i | 0 <= i < |Put(list, l, prepend)| :: Registrable(s, t, Put(list, l, prepend)[i])
  {
    hide Registrable;
  }

  lemma KeepsOnce(s: Run, t: Event, fn: int, prepend: bool)
    requires Inv(s) && fn >= 0
    ensures var l := Listener(-1 - |s.wrappers|, Some(fn));
            Inv(WithWrapper(s, t, fn).(lists := s.lists[t := Put(s.Of(t), l, prepend)]))
  {
    hide Inv, Single, Known, Holds, Registrable, WithWrapper, Run.Of, Put;
    var u := WithWrapper(s, t, fn);
    var l := Listener(-1 - |s.wrappers|, Some(fn));
    KeepsWrapper(s, t, fn);
    OfOk(u, t);
    PutOk(u, u.Of(t), l, prepend);
    PutRegistrable(u, t, u.Of(t), l, prepend);
    ListKept(u, t, Put(u.Of(t), l, prepend));
  }

  lemma KeepsEmit(s: Run, t: Event)
    requires Inv(s)
    ensures Inv(s.(frames := s.frames + [Emitting(s.Of(t), 0)]))
  {
    hide Single, Known;
    OfOk(s, t);
    var f := Emitting(s.Of(t), 0);
    var u := s.(frames := s.frames + [f]);
    forall r | 0 <= r < |s.frames| && s.frames[r].Removing? ensures Above(f, s.frames[r].wrapper) {
      assert IsRemoving(s, s.frames[r].wrapper);
    }
    forall w ensures IsRemoving(u, w) <==> IsRemoving(s, w) {}
    forall x | x in u.lists ensures ListOk(u, x) { assert ListOk(s, x); KnownSame(s, u, s.lists[x]); }
    forall k | 0 <= k < |s.frames| && s.frames[k].Emitting? ensures Known(u, s.frames[k].snapshot) {
      KnownSame(s, u, s.frames[k].snapshot);
    }
    KnownSame(s, u, s.Of(t));
  }

  lemma KeepsPop(s: Run)
    requires Inv(s) && s.frames != []
    ensures Inv(s.(frames := s.frames[..|s.frames| - 1]))
  {
    hide Single, Known, Above;
    var u := s.(frames := s.frames[..|s.frames| - 1]);
    forall w | IsRemoving(u, w) ensures IsRemoving(s, w) {}
    forall x | x in u.lists ensures ListOk(u, x) { assert ListOk(s, x); KnownSame(s, u, s.lists[x]); }
    forall k | 0 <= k < |u.frames| && u.frames[k].Emitting? ensures Known(u, u.frames[k].snapshot) {
      assert u.frames[k] == s.frames[k];
      KnownSame(s, u, s.frames[k].snapshot);
    }
  }

  /** The wrapper on top is marked as fired and its listener runs, for the first time. */
  lemma KeepsFire(s: Run)
    requires Inv(s) && TopRemoving(s)
    ensures Inv(Next(s, Fire))
  {
    hide Single, Known;
    KeepsPop(s);
    var w := s.frames[|s.frames| - 1].wrapper;
    var p, u := s.(frames := s.frames[..|s.frames| - 1]), Next(s, Fire);
    assert s.frames[|s.frames| - 1] == Removing(w);
    assert IsRemoving(s, w);
    forall x | x in u.lists ensures ListOk(u, x) {
      assert ListOk(s, x);
      assert ListOk(p, x);
      KnownSame(p, u, s.lists[x]);
    }
    forall k | 0 <= k < |u.frames| && u.frames[k].Emitting? ensures Known(u, u.frames[k].snapshot) {
      KnownSame(p, u, p.frames[k].snapshot);
    }
    forall k | 0 <= k < |u.frames| && u.frames[k].Removing? ensures u.frames[k].wrapper != w {
      assert Above(s.frames[|s.frames| - 1], s.frames[k].wrapper);
    }
  }

  /** The innermost emit goes on to its next listener. */
  lemma KeepsAdvance(s: Run)
    requires Inv(s) && TopCalls(s)
    ensures var n := |s.frames| - 1; var f := s.frames[n]; Inv(s.(frames := s.frames[n := f.(at := f.at + 1)]))
  {
    hide Single, Known, Holds;
    var n := |s.frames| - 1;
    var f := s.frames[n];
    var u := s.(frames := s.frames[n := f.(at := f.at + 1)]);
    forall w | IsRemoving(u, w) ensures IsRemoving(s, w) {
      var r :| 0 <= r < |u.frames| && u.frames[r] == Removing(w);
      assert s.frames[r] == Removing(w);
    }
    forall x | x in u.lists ensures ListOk(u, x) { assert ListOk(s, x); KnownSame(s, u, s.lists[x]); }
    forall k | 0 <= k < |u.frames| && u.frames[k].Emitting? ensures Known(u, u.frames[k].snapshot) {
      KnownSame(s, u, s.frames[k].snapshot);
    }
  }

  /** A wrapper that an emit can still call and that has not fired is not being
      removed further down. */
  lemma NotRemoving(s: Run, w: int)
    requires Inv(s) && TopCalls(s)
    requires var f := s.frames[|s.frames| - 1]; f.snapshot[f.at].fn == -1 - w
    ensures !IsRemoving(s, w)
  {
    var n := |s.frames| - 1;
    var f := s.frames[n];
    assert Holds(f.snapshot, w);
    forall r | 0 <= r < |s.frames| ensures s.frames[r] != Removing(w) {
      if r < n && s.frames[r].Removing? { assert Above(f, s.frames[r].wrapper); }
    }
  }

  lemma KeepsRemoving(s: Run, w: int)
    requires Inv(s) && 0 <= w < |s.wrappers| && w !in s.fired && !IsRemoving(s, w)
    requires forall t | t in s.lists :: !Holds(s.lists[t], w)
    ensures Inv(s.(frames := s.frames + [Removing(w)]))
  {
    hide Single, Known;
    var u := s.(frames := s.frames + [Removing(w)]);
    forall v ensures IsRemoving(u, v) <==> IsRemoving(s, v) || v == w {}
    forall x | x in u.lists ensures ListOk(u, x) {
      assert ListOk(s, x);
      assert !Holds(s.lists[x], w);
      KnownSame(s, u, s.lists[x]);
    }
    forall k | 0 <= k < |s.frames| && s.frames[k].Emitting? ensures Known(u, s.frames[k].snapshot) {
      KnownSame(s, u, s.frames[k].snapshot);
    }
  }

  lemma KeepsCall(s: Run)
    requires Inv(s) && TopCalls(s)
    ensures Inv(CallNext(s))
  {
    hide Inv, Removed, Holds, IsRemoving, Run.Of;
    var n := |s.frames| - 1;
    var f := s.frames[n];
    var l := f.snapshot[f.at];
    var t := s.(frames := s.frames[n := f.(at := f.at + 1)]);
    var w := -1 - l.fn;
    KeepsAdvance(s);
    if !(l.fn >= 0 || w in s.fired || w >= |s.wrappers|) {
      NotRemoving(s, w);
      AdvanceRemoving(s, t, w);
      KeepsTakeOff(t, w);
      SameLists(s, t, s.wrappers[w].event);
    }
  }

  lemma SameLists(s: Run, t: Run, e: Event)
    requires s.lists == t.lists
    ensures s.Of(e) == t.Of(e)
  {}

  lemma AdvanceRemoving(s: Run, t: Run, w: int)
    requires TopCalls(s) && !IsRemoving(s, w)
    requires var n := |s.frames| - 1; var f := s.frames[n]; t == s.(frames := s.frames[n := f.(at := f.at + 1)])
    ensures !IsRemoving(t, w)
  {
    forall r | 0 <= r < |t.frames| ensures t.frames[r] != Removing(w) {
      if r < |s.frames| - 1 { assert t.frames[r] == s.frames[r]; }
    }
  }

  /** A wrapper takes itself off its list. */
  lemma KeepsTakeOff(t: Run, w: int)
    requires Inv(t) && 0 <= w < |t.wrappers| && w !in t.fired && !IsRemoving(t, w)
    ensures var e := t.wrappers[w].event;
            Inv(t.(lists := t.lists[e := Removed(t.Of(e), -1 - w)], frames := t.frames + [Removing(w)]))
  {
    hide Inv, Removed, Holds, Single, Known, Registrable, Run.Of;
    var e := t.wrappers[w].event;
    var u := t.(lists := t.lists[e := Removed(t.Of(e), -1 - w)]);
    KeepsOff(t, e, -1 - w);
    OfOk(t, e);
    RemovedOk(t, t.Of(e), -1 - w);
    forall x | x in u.lists ensures !Holds(u.lists[x], w) { if x != e { OnlyThere(t, x, w); } }
    StillNot(t, u, w);
    KeepsRemoving(u, w);
  }

  lemma StillNot(t: Run, u: Run, w: int)
    requires t.frames == u.frames && !IsRemoving(t, w)
    ensures !IsRemoving(u, w)
  {}

  lemma OnlyThere(s: Run, x: Event, w: int)
    requires Inv(s) && 0 <= w < |s.wrappers| && x in s.lists && x != s.wrappers[w].event
    ensures !Holds(s.lists[x], w)
  {
    assert ListOk(s, x);
  }

  lemma KeepsStep(s: Run, step: Step)
    requires Inv(s) && Enabled(s, step)
    ensures Inv(Next(s, step))
  {
    hide Inv, CallNext, Put, WithWrapper, Removed, Run.Of;
    match step
    case On(t, fn, prepend) => KeepsOn(s, t, fn, prepend);
    case Once(t, fn, prepend) => KeepsOnce(s, t, fn, prepend);
    case Off(t, fn) => KeepsOff(s, t, fn);
    case Clear(t) => KeepsClear(s, t);
    case Emit(t) => KeepsEmit(s, t);
    case Call => KeepsCall(s);
    case Fire => KeepsFire(s);
    case Pop => KeepsPop(s);
  }

  // ---- whole runs --------------------------------------------------------------------------------

  predicate Legal(s: Run, steps: seq<Step>)
    decreases |steps|
  {
    steps == [] || (Enabled(s, steps[0]) && Legal(Next(s, steps[0]), steps[1..]))
  }

  function Play(s: Run, steps: seq<Step>): Run
    requires Legal(s, steps)
    decreases |steps|
  {
    if steps == [] then s else Play(Next(s, steps[0]), steps[1..])
  }

  lemma {:induction false} KeepsRunning(s: Run, steps: seq<Step>)
    requires Inv(s) && Legal(s, steps)
    ensures Inv(Play(s, steps))
    decreases |steps|
  {
    hide Inv, Enabled, Next;
    if steps != [] {
      KeepsStep(s, steps[0]);
      KeepsRunning(Next(s, steps[0]), steps[1..]);
    }
  }

  /** In every run, whatever the handlers do and whichever snapshots are still
      being gone through, a listener added with once runs at most once, and once it
      has fired it is in no list. */
  lemma OnceAtMostOnce(steps: seq<Step>, w: int)
    requires var s := Run(map[], [], {}, [], []); Legal(s, steps) && 0 <= w < |Play(s, steps).runs|
    ensures var e := Play(Run(map[], [], {}, [], []), steps);
            && 0 <= e.runs[w] <= 1 && (e.runs[w] == 1 <==> w in e.fired)
            && (w in e.fired ==> forall t | t in e.lists :: !Holds(e.lists[t], w))
  {
    var s := Run(map[], [], {}, [], []);
    KeepsRunning(s, steps);
    var e := Play(s, steps);
    forall t | t in e.lists && w in e.fired ensures !Holds(e.lists[t], w) { assert ListOk(e, t); }
  }

  // ---- and they do run -----------------------------------------------------------------------------

  /** What an emit has got to has fired, or is about to. */
  predicate Reached(s: Run, f: Frame) {
    f.Emitting? ==>
      && 0 <= f.at <= |f.snapshot|
      && forall k | 0 <= k < f.at && f.snapshot[k].fn < 0 ::
           var w := -1 - f.snapshot[k].fn; w in s.fired || IsRemoving(s, w)
  }

  predicate AllReached(s: Run) { forall r | 0 <= r < |s.frames| :: Reached(s, s.frames[r]) }

  /** Frames stay, but for the last; what has fired or is about to, still does. */
  lemma ReachedStays(s: Run, t: Run, f: Frame)
    requires Reached(s, f) && s.fired <= t.fired
    requires forall w | IsRemoving(s, w) :: IsRemoving(t, w) || w in t.fired
    ensures Reached(t, f)
  {}

  lemma CallRemoves(s: Run)
    requires TopCalls(s)
    ensures forall w | IsRemoving(s, w) :: IsRemoving(CallNext(s), w)
  {
    hide Removed;
    var t := CallNext(s);
    forall w | IsRemoving(s, w) ensures IsRemoving(t, w) {
      var r :| 0 <= r < |s.frames| && s.frames[r] == Removing(w);
      assert t.frames[r] == Removing(w);
    }
  }

  lemma CallReached(s: Run)
    requires Inv(s) && AllReached(s) && TopCalls(s)
    ensures AllReached(CallNext(s))
  {
    var n := |s.frames| - 1;
    var t, f := CallNext(s), s.frames[n];
    var l := f.snapshot[f.at];
    assert l.fn < 0 ==> -1 - l.fn < |s.wrappers|;
    hide Inv, Removed;
    CallRemoves(s);
    assert t.fired == s.fired && |t.frames| >= n + 1 && t.frames[n] == f.(at := f.at + 1);
    assert forall r | 0 <= r < n :: t.frames[r] == s.frames[r];
    assert forall r | n < r < |t.frames| :: t.frames[r].Removing?;
    assert l.fn < 0 && -1 - l.fn !in s.fired ==> |t.frames| == n + 2 && t.frames[n + 1] == Removing(-1 - l.fn);
    hide CallNext;
    forall r | 0 <= r < |t.frames| ensures Reached(t, t.frames[r]) {
      if r < n { ReachedStays(s, t, s.frames[r]); }
      if r == n {
        ReachedStays(s, t, f);
        if l.fn < 0 && -1 - l.fn !in s.fired { assert t.frames[n + 1] == Removing(-1 - l.fn); }
      }
    }
  }

  lemma FireReached(s: Run)
    requires AllReached(s) && TopRemoving(s)
    ensures AllReached(Next(s, Fire))
  {
    var n, t := |s.frames| - 1, Next(s, Fire);
    forall w | IsRemoving(s, w) ensures IsRemoving(t, w) || w in t.fired {
      var r :| 0 <= r < |s.frames| && s.frames[r] == Removing(w);
      if r < n { assert t.frames[r] == Removing(w); }
    }
    forall r | 0 <= r < |t.frames| ensures Reached(t, t.frames[r]) { ReachedStays(s, t, s.frames[r]); }
  }

  lemma PopReached(s: Run)
    requires AllReached(s) && Enabled(s, Pop)
    ensures AllReached(Next(s, Pop))
  {
    var n, t := |s.frames| - 1, Next(s, Pop);
    forall w | IsRemoving(s, w) ensures IsRemoving(t, w) {
      var r :| 0 <= r < |s.frames| && s.frames[r] == Removing(w);
      assert t.frames[r] == Removing(w);
    }
    forall r | 0 <= r < |t.frames| ensures Reached(t, t.frames[r]) { ReachedStays(s, t, s.frames[r]); }
  }

  lemma OtherReached(s: Run, step: Step)
    requires AllReached(s) && Enabled(s, step) && !step.Call? && !step.Fire? && !step.Pop?
    ensures AllReached(Next(s, step))
  {
    hide Removed, Put;
    var t := Next(s, step);
    forall w | IsRemoving(s, w) ensures IsRemoving(t, w) {
      var r :| 0 <= r < |s.frames| && s.frames[r] == Removing(w);
      assert t.frames[r] == Removing(w);
    }
    forall r | 0 <= r < |t.frames| ensures Reached(t, t.frames[r]) {
      if r < |s.frames| { ReachedStays(s, t, s.frames[r]); }
    }
  }

  lemma {:induction false} RunReached(s: Run, steps: seq<Step>)
    requires Inv(s) && AllReached(s) && Legal(s, steps)
    ensures Inv(Play(s, steps)) && AllReached(Play(s, steps))
    decreases |steps|
  {
    if steps != [] {
      KeepsStep(s, steps[0]);
      match steps[0] {
        case Call => CallReached(s);
        case Fire => FireReached(s);
        case Pop => PopReached(s);
        case _ => OtherReached(s, steps[0]);
      }
      hide Inv, AllReached, Enabled, Next;
      RunReached(Next(s, steps[0]), steps[1..]);
    }
  }

  /** In every run, an emit that has gone through its snapshot has fired every once
      listener in it, each exactly once. */
  lemma EmitFiresAll(steps: seq<Step>, k: int)
    requires var s := Run(map[], [], {}, [], []); Legal(s, steps) && Enabled(Play(s, steps), Pop)
    requires var e := Play(Run(map[], [], {}, [], []), steps); var f := e.frames[|e.frames| - 1];
             0 <= k < |f.snapshot| && f.snapshot[k].fn < 0
    ensures var e := Play(Run(map[], [], {}, [], []), steps);
            var w := -1 - e.frames[|e.frames| - 1].snapshot[k].fn;
            w in e.fired && 0 <= w < |e.runs| && e.runs[w] == 1
  {
    var s := Run(map[], [], {}, [], []);
    RunReached(s, steps);
    var e := Play(s, steps);
    hide Play, Legal;
    var n := |e.frames| - 1;
    assert Reached(e, e.frames[n]);
    TopNotRemoving(e, k);
  }

  /** A wrapper in the snapshot of the innermost emit is not being removed. */
  lemma TopNotRemoving(e: Run, k: int)
    requires FramesOk(e) && e.frames != [] && e.frames[|e.frames| - 1].Emitting?
    requires var f := e.frames[|e.frames| - 1]; 0 <= k < |f.snapshot|
    ensures !IsRemoving(e, -1 - e.frames[|e.frames| - 1].snapshot[k].fn)
  {
    var n := |e.frames| - 1;
    var w := -1 - e.frames[n].snapshot[k].fn;
    forall r | 0 <= r < |e.frames| ensures e.frames[r] != Removing(w) {
      if r < n && e.frames[r].Removing? {
        assert Above(e.frames[n], e.frames[r].wrapper);
        assert e.frames[n].snapshot[k].fn == -1 - w;
      }
    }
  }

  // ---- in order ------------------------------------------------------------------------------------

  /** Nothing is prepended. */
  predicate Appends(step: Step) { (step.On? || step.Once?) ==> !step.prepend }

  /** Once listeners stand in the order in which they were added. */
  predicate InOrder(list: seq<Listener>) {
    forall i, j | 0 <= i < j < |list| && list[i].fn < 0 && list[j].fn < 0 :: list[i].fn > list[j].fn
  }

  predicate AllInOrder(s: Run) { forall t | t in s.lists :: InOrder(s.lists[t]) }

  lemma RemovedInOrder(list: seq<Listener>, fn: int)
    requires InOrder(list)
    ensures InOrder(Removed(list, fn))
  {
    var k, r := LastMatch(list, fn), Removed(list, fn);
    if k >= 0 { assert forall i | 0 <= i < |r| :: r[i] == list[if i < k then i else i + 1]; }
  }

  lemma StepInOrder(s: Run, step: Step)
    requires Inv(s) && AllInOrder(s) && Enabled(s, step) && Appends(step)
    ensures AllInOrder(Next(s, step))
  {
    forall t: Event, fn: int ensures InOrder(Removed(s.Of(t), fn)) { RemovedInOrder(s.Of(t), fn); }
    hide Removed;
    match step
    case Once(t, _, _) => assert t in s.lists ==> ListOk(s, t);
    case _ =>
  }

  /** In every run in which nothing is prepended, the once listeners of each event stand
      in the order in which they were added, and so fire in that order. */
  lemma {:induction false} AddedInOrder(s: Run, steps: seq<Step>)
    requires Inv(s) && AllInOrder(s) && Legal(s, steps) && forall i | 0 <= i < |steps| :: Appends(steps[i])
    ensures AllInOrder(Play(s, steps))
    decreases |steps|
  {
    hide Inv, AllInOrder, Enabled, Next, Appends;
    if steps != [] {
      KeepsStep(s, steps[0]);
      StepInOrder(s, steps[0]);
      AddedInOrder(Next(s, steps[0]), steps[1..]);
    }
  }
}
