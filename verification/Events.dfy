/** lib_js/events.js: an event's listeners are kept as nothing, one function, or an
    array of at least two. */
module Events {
  import opened Options
  import opened Slices

  /** Event names; three of them mean something to the emitter itself. */
  datatype Event = NewListener | ListenerRemoved | Error | Named(name: string)

  /** A function by its identity; a wrapper made by `once` knows the function it
      wraps. */
  datatype Listener = Listener(fn: int, inner: Option<int>)

  datatype Entry = One(listener: Listener) | Many(list: seq<Listener>)

  /** `_events` and `_eventsCount`. */
  datatype State = State(events: map<Event, Entry>, count: int)
  {
    ghost predicate Valid() {
      && count == |events|
      && forall t | t in events && events[t].Many? :: |events[t].list| >= 2
    }

    /** The listeners of an event, in the order in which they are called. */
    function Of(t: Event): seq<Listener> {
      if t !in events then [] else match events[t] case One(l) => [l] case Many(list) => list
    }
  }

  /** removeListener takes out a listener by itself or by what it wraps. */
  predicate Matches(l: Listener, fn: int) { l.fn == fn || l.inner == Some(fn) }

  /** The last match, -1 if there is none. */
  function LastMatch(s: seq<Listener>, fn: int): (i: int)
    ensures -1 <= i < |s| && (i >= 0 ==> Matches(s[i], fn))
    ensures forall k | i < k < |s| :: !Matches(s[k], fn)
  {
    if s == [] then -1
    else if Matches(s[|s| - 1], fn) then |s| - 1
    else LastMatch(s[..|s| - 1], fn)
  }

  lemma LastMatchIs(s: seq<Listener>, fn: int, i: int)
    requires -1 <= i < |s| && (i >= 0 ==> Matches(s[i], fn)) && forall k | i < k < |s| :: !Matches(s[k], fn)
    ensures LastMatch(s, fn) == i
  {
    var j := LastMatch(s, fn);
    assert j >= 0 ==> Matches(s[j], fn);
  }

  function Removed(s: seq<Listener>, fn: int): seq<Listener> {
    var i := LastMatch(s, fn);
    if i < 0 then s else RemoveAt(s, i)
  }

  function ListOf(e: Entry): seq<Listener> { match e case One(l) => [l] case Many(list) => list }

  /** An entry is put in its place. */
  lemma Put(s: State, t: Event, e: Entry)
    requires s.Valid() && (e.Many? ==> |e.list| >= 2)
    ensures var r := State(s.events[t := e], if t in s.events then s.count else s.count + 1);
            r.Valid() && r.Of(t) == ListOf(e) && forall u | u != t :: r.Of(u) == s.Of(u)
  {
    assert s.events[t := e].Keys == s.events.Keys + {t};
  }

  /** An entry is deleted; without entries the source starts over with an empty object. */
  lemma Drop(s: State, t: Event)
    requires s.Valid() && t in s.events
    ensures var r := if s.count - 1 == 0 then State(map[], 0) else State(s.events - {t}, s.count - 1);
            r.Valid() && r.Of(t) == [] && forall u | u != t :: r.Of(u) == s.Of(u)
  {
    var m := s.events - {t};
    assert m.Keys == s.events.Keys - {t};
    if s.count - 1 == 0 {
      assert |m.Keys| == 0;
      assert m == map[];
      assert forall u | u != t :: u in s.events <==> u in m;
    }
  }

  /** removeListener takes out a function that was added by on, and the wrapper of one
      that was added by once; of several, the last. */
  lemma RemovesOriginal(a: seq<Listener>, l: Listener, b: seq<Listener>, fn: int)
    requires l == Listener(fn, None) || l.inner == Some(fn)
    requires forall k | 0 <= k < |b| :: b[k].fn != fn && b[k].inner != Some(fn)
    ensures Removed(a + [l] + b, fn) == a + b
  {
    var s := a + [l] + b;
    forall k | |a| < k < |s| ensures !Matches(s[k], fn) { assert s[k] == b[k - |a| - 1]; }
    LastMatchIs(s, fn, |a|);
    assert RemoveAt(s, |a|) == a + b;
  }

  /** Nothing goes if the function was not added. */
  lemma RemovesNothing(s: seq<Listener>, fn: int)
    requires forall k | 0 <= k < |s| :: s[k].fn != fn && s[k].inner != Some(fn)
    ensures Removed(s, fn) == s
  {
    LastMatchIs(s, fn, -1);
  }

  lemma RemovedOne(l: Listener, fn: int)
    ensures Removed([l], fn) == if Matches(l, fn) then [] else [l]
    ensures LastMatch([l], fn) >= 0 <==> Matches(l, fn)
  {
    LastMatchIs([l], fn, if Matches(l, fn) then 0 else -1);
  }

  lemma OfEntry(s: State, t: Event)
    requires s.Valid()
    ensures s.Of(t) == if t in s.events then ListOf(s.events[t]) else []
    ensures t in s.events && s.events[t].Many? ==> |s.events[t].list| >= 2
  {}

  lemma RemovedNone(fn: int)
    ensures Removed([], fn) == [] && LastMatch([], fn) == -1
  {}

  /** The listeners from the last one down to number i. */
  function Backwards(s: seq<Listener>, i: int): (r: seq<Listener>)
    requires 0 <= i <= |s|
    ensures |r| == |s| - i && forall k | 0 <= k < |r| :: r[k] == s[|s| - 1 - k]
    decreases |s| - i
  {
    if i == |s| then [] else Backwards(s, i + 1) + [s[i]]
  }

  /** What handlers of "removeListener" hear when all of `s` go from event t. */
  function Told(t: Event, s: seq<Listener>): seq<Listener> {
    Backwards(s, if t == ListenerRemoved && s != [] then 1 else 0)
  }

  lemma BackwardsEnds(s: seq<Listener>)
    ensures Backwards(s, |s|) == []
  {}

  lemma BackwardsStep(s: seq<Listener>, i: int)
    requires 0 <= i < |s|
    ensures Backwards(s, i) == Backwards(s, i + 1) + [s[i]]
  {}

  /** A listener that is the last is the last match of its own function. */
  lemma RemovedLast(s: seq<Listener>, fn: int)
    requires s != [] && s[|s| - 1].fn == fn
    ensures LastMatch(s, fn) >= 0 && Removed(s, fn) == s[..|s| - 1]
  {
    LastMatchIs(s, fn, |s| - 1);
  }

  class EventEmitter {
    var state: State

    ghost predicate Valid()
      reads this
    {
      state.Valid()
    }

    constructor ()
      ensures Valid() && state.events == map[]
    {
      state := State(map[], 0);
    }

    /** `_addListener`. If somebody listens for "newListener" these handlers run
        first, and leave the emitter in whatever state `meanwhile` is. */
    method AddListener(t: Event, l: Listener, prepend: bool, meanwhile: State)
      requires Valid() && meanwhile.Valid()
      modifies this
      ensures Valid()
      ensures var s := if NewListener in old(state.events) then meanwhile else old(state);
              && state.Of(t) == (if prepend then [l] + s.Of(t) else s.Of(t) + [l])
              && forall u | u != t :: state.Of(u) == s.Of(u)
    {
      hide State.Of, State.Valid;
      if NewListener in state.events { state := meanwhile; }
      Insert(t, l, prepend);
    }

    /** The listener is put before or behind the others. */
    method Insert(t: Event, l: Listener, prepend: bool)
      requires Valid()
      modifies this
      ensures Valid()
      ensures state.Of(t) == if prepend then [l] + old(state).Of(t) else old(state).Of(t) + [l]
      ensures forall u | u != t :: state.Of(u) == old(state).Of(u)
    {
      hide State.Of, State.Valid;
      OfEntry(state, t);
      var events := state.events;
      if t !in events {
        Put(state, t, One(l));
        assert [l] + [] == [l] == [] + [l];
        state := State(events[t := One(l)], state.count + 1);
      } else {
        var list := ListOf(events[t]);
        list := if prepend then [l] + list else list + [l];
        Put(state, t, Many(list));
        state := State(events[t := Many(list)], state.count);
      }
    }

    /** removeListener; `removed` tells whether "removeListener" is emitted after,
        which it is when a listener went and somebody listens for that. */
    method RemoveListener(t: Event, fn: int) returns (removed: bool)
      requires Valid()
      modifies this
      ensures Valid() && state.Of(t) == Removed(old(state).Of(t), fn)
      ensures forall u | u != t :: state.Of(u) == old(state).Of(u)
      ensures removed == (LastMatch(old(state).Of(t), fn) >= 0 && ListenerRemoved in state.events)
    {
      hide State.Of, State.Valid, Removed, LastMatch;
      removed := false;
      OfEntry(state, t);
      RemovedNone(fn);
      var events := state.events;
      if t !in events { return; }
      if events[t].One? { RemovedOne(events[t].listener, fn); }
      var entry := events[t];
      if entry.One? {
        if Matches(entry.listener, fn) {
          Drop(state, t);
          if state.count - 1 == 0 {
            state := State(map[], 0);
          } else {
            state := State(events - {t}, state.count - 1);
            removed := ListenerRemoved in state.events;
          }
        }
        return;
      }
      removed := RemoveFromArray(t, entry.list, fn);
    }

    /** The case of an array. */
    method RemoveFromArray(t: Event, list: seq<Listener>, fn: int) returns (removed: bool)
      requires Valid() && t in state.events && state.events[t] == Many(list)
      modifies this
      ensures Valid() && state.Of(t) == Removed(list, fn)
      ensures forall u | u != t :: state.Of(u) == old(state).Of(u)
      ensures removed == (LastMatch(list, fn) >= 0 && ListenerRemoved in state.events)
    {
      hide State.Of, State.Valid, LastMatch;
      OfEntry(state, t);
      removed := false;
      var position := FindLast(list, fn);
      if position < 0 { return; }
      var rest := if position == 0 then list[1..] else list[..position] + list[position + 1..];
      assert rest == RemoveAt(list, position);
      var next := if |rest| == 1 then One(rest[0]) else Many(rest);
      Put(state, t, next);
      state := State(state.events[t := next], state.count);
      removed := ListenerRemoved in state.events;
    }

    /** The search from the end. */
    method FindLast(list: seq<Listener>, fn: int) returns (position: int)
      ensures position == LastMatch(list, fn)
    {
      position := |list| - 1;
      while position >= 0 && !Matches(list[position], fn)
        invariant -1 <= position < |list| && forall k | position < k < |list| :: !Matches(list[k], fn)
        decreases position
      {
        position := position - 1;
      }
      LastMatchIs(list, fn, position);
    }

    /** removeAllListeners(t). `told` is what "removeListener" is emitted with, in
        order, provided that the handlers of that event leave this emitter alone:
        nothing when nobody listens for it; the listeners from the last to the first
        otherwise, except that the last of its own handlers goes untold. */
    method RemoveAllOf(t: Event) returns (told: seq<Listener>)
      requires Valid()
      modifies this
      ensures Valid() && state.Of(t) == [] && forall u | u != t :: state.Of(u) == old(state).Of(u)
      ensures told == if old(state).Of(ListenerRemoved) == [] then [] else Told(t, old(state).Of(t))
    {
      hide State.Of, State.Valid, Told;
      OfEntry(state, t);
      OfEntry(state, ListenerRemoved);
      told := [];
      if ListenerRemoved in state.events {
        told := RemoveEach(t);
        return;
      }
      if t !in state.events { return; }
      Drop(state, t);
      if state.count - 1 == 0 {
        state := State(map[], 0);
      } else {
        state := State(state.events - {t}, state.count - 1);
      }
    }

    /** Its loop, from the last listener to the first. */
    method RemoveEach(t: Event) returns (told: seq<Listener>)
      requires Valid() && ListenerRemoved in state.events
      modifies this
      ensures Valid() && state.Of(t) == [] && forall u | u != t :: state.Of(u) == old(state).Of(u)
      ensures told == Told(t, old(state).Of(t))
    {
      hide State.Of, State.Valid, Removed, LastMatch, Backwards;
      OfEntry(state, t);
      var listeners := if t in state.events then ListOf(state.events[t]) else [];
      var i := |listeners|;
      told := [];
      BackwardsEnds(listeners);
      while i > 0
        invariant 0 <= i <= |listeners| && Valid() && state.Of(t) == listeners[..i]
        invariant forall u | u != t :: state.Of(u) == old(state).Of(u)
        invariant t != ListenerRemoved ==> ListenerRemoved in state.events
        invariant i > 0 ==> told == Backwards(listeners, i)
        invariant i == 0 ==> told == Told(t, listeners)
      {
        i := i - 1;
        RemovedLast(listeners[..i + 1], listeners[i].fn);
        BackwardsStep(listeners, i);
        OfEntry(state, ListenerRemoved);
        var removed := RemoveListener(t, listeners[i].fn);
        OfEntry(state, ListenerRemoved);
        assert listeners[..i + 1][..i] == listeners[..i];
        assert t == ListenerRemoved ==> (removed <==> listeners[..i] != []);
        if removed { told := told + [listeners[i]]; }
      }
    }

    /** removeAllListeners(); whatever handlers did before, the source ends by starting
        over with an empty object. */
    method RemoveAll()
      requires Valid()
      modifies this
      ensures Valid() && forall u :: state.Of(u) == []
    {
      state := State(map[], 0);
    }

    /** emit, up to the calls: what is called, in order. An "error" that nobody
        listens for is thrown. */
    method Emit(t: Event) returns (thrown: bool, snapshot: seq<Listener>)
      requires Valid()
      ensures thrown == (t == Error && state.Of(Error) == [])
      ensures snapshot == state.Of(t)
    {
      snapshot := [];
      thrown := t == Error && Error !in state.events;
      if thrown || t !in state.events { return; }
      match state.events[t] {
        case One(l) => snapshot := [l];
        case Many(list) => snapshot := list;
      }
    }
  }
}
