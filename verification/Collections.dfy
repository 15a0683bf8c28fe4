/** lib_js/init.js, the Map polyfill: two parallel arrays, and iterators whose
    positions are moved when an entry is deleted. */
module Collections {
  import opened Options
  import opened Slices

  /** JavaScript values as far as comparing them goes. */
  datatype Key = NaN | Zero(negative: bool) | Other(n: int)

  /** `===` */
  predicate StrictEqual(a: Key, b: Key) { !a.NaN? && ((a.Zero? && b.Zero?) || a == b) }

  /** `is` of the source, which is SameValueZero. */
  predicate Same(a: Key, b: Key) { (a.NaN? && b.NaN?) || StrictEqual(a, b) }

  predicate Unique(keys: seq<Key>) { forall i, j | 0 <= i < j < |keys| :: !Same(keys[i], keys[j]) }

  predicate Increasing(s: seq<int>) { forall i, j | 0 <= i < j < |s| :: s[i] < s[j] }

  /** Where the key is, -1 if it is not there. */
  function IndexOf(keys: seq<Key>, key: Key): (i: int)
    ensures -1 <= i < |keys|
    ensures i >= 0 ==> Same(keys[i], key)
    ensures i < 0 ==> forall k | 0 <= k < |keys| :: !Same(keys[k], key)
  {
    if keys == [] then -1
    else if Same(keys[0], key) then 0
    else var i := IndexOf(keys[1..], key); if i < 0 then -1 else i + 1
  }

  lemma SameTwice(a: Key, b: Key, c: Key)
    ensures Same(a, b) && Same(c, b) ==> Same(a, c) && Same(c, a)
  {}

  lemma SamePlace(keys: seq<Key>, i: int, j: int)
    requires Unique(keys) && 0 <= i < |keys| && 0 <= j < |keys| && Same(keys[i], keys[j]) && Same(keys[j], keys[i])
    ensures i == j
  {}

  lemma IndexIs(keys: seq<Key>, key: Key, i: int)
    requires Unique(keys) && 0 <= i < |keys| && Same(keys[i], key)
    ensures IndexOf(keys, key) == i
  {
    var j := IndexOf(keys, key);
    assert j >= 0;
    SameTwice(keys[j], key, keys[i]);
    SamePlace(keys, i, j);
  }

  lemma NotThere(keys: seq<Key>, key: Key)
    requires forall k | 0 <= k < |keys| :: !Same(keys[k], key)
    ensures IndexOf(keys, key) == -1
  {}

  /** The map that the two arrays stand for. */
  function Lookup<V>(keys: seq<Key>, values: seq<V>, key: Key): Option<V>
    requires |keys| == |values|
  {
    var i := IndexOf(keys, key);
    if i < 0 then None else Some(values[i])
  }

  /** What get gives: NaN finds NaN, each zero finds either zero, and everything else
      itself only. */
  lemma LooksUp<V>(keys: seq<Key>, values: seq<V>, i: int)
    requires Unique(keys) && |keys| == |values| && 0 <= i < |keys|
    ensures keys[i] == NaN ==> Lookup(keys, values, NaN) == Some(values[i])
    ensures keys[i].Zero? ==> forall negative :: Lookup(keys, values, Zero(negative)) == Some(values[i])
    ensures keys[i].Other? ==> Lookup(keys, values, keys[i]) == Some(values[i])
  {
    IndexIs(keys, keys[i], i);
    if keys[i].Zero? {
      IndexIs(keys, Zero(false), i);
      IndexIs(keys, Zero(true), i);
      forall negative ensures Lookup(keys, values, Zero(negative)) == Some(values[i]) {
        assert Zero(negative) == Zero(false) || Zero(negative) == Zero(true);
      }
    }
  }

  lemma LooksUpNothing<V>(keys: seq<Key>, values: seq<V>, key: Key)
    requires |keys| == |values| && key !in keys && (key.Zero? ==> forall negative :: Zero(negative) !in keys)
    ensures Lookup(keys, values, key) == None
  {
    forall k | 0 <= k < |keys| ensures !Same(keys[k], key) {
      assert keys[k] in keys;
      if keys[k].Zero? { assert Zero(keys[k].negative) in keys; }
    }
    NotThere(keys, key);
  }

  lemma LookupSet<V>(keys: seq<Key>, values: seq<V>, i: int, v: V, key: Key)
    requires Unique(keys) && |keys| == |values| && 0 <= i < |keys|
    ensures Lookup(keys, values[i := v], key) == if Same(keys[i], key) then Some(v) else Lookup(keys, values, key)
  {
    if Same(keys[i], key) { IndexIs(keys, key, i); }
  }

  lemma LookupAdd<V>(keys: seq<Key>, values: seq<V>, k: Key, v: V, key: Key)
    requires Unique(keys) && |keys| == |values| && IndexOf(keys, k) < 0
    ensures Unique(keys + [k])
    ensures Lookup(keys + [k], values + [v], key) == if Same(k, key) then Some(v) else Lookup(keys, values, key)
  {
    hide IndexOf;
    var ks := keys + [k];
    var j := IndexOf(ks, key);
    if Same(k, key) {
      IndexIs(ks, key, |keys|);
    } else {
      var i := IndexOf(keys, key);
      if i >= 0 { IndexIs(ks, key, i); }
    }
  }

  lemma LookupDelete<V>(keys: seq<Key>, values: seq<V>, i: int, key: Key)
    requires Unique(keys) && |keys| == |values| && 0 <= i < |keys|
    ensures Unique(RemoveAt(keys, i))
    ensures Lookup(RemoveAt(keys, i), RemoveAt(values, i), key)
            == if Same(keys[i], key) then None else Lookup(keys, values, key)
  {
    var ks := RemoveAt(keys, i);
    var j := IndexOf(keys, key);
    forall k | 0 <= k < |ks| && (Same(keys[i], key) || j < 0) ensures !Same(ks[k], key) {
      var from := if k < i then k else k + 1;
      if Same(keys[i], key) { OtherKey(keys, i, from, key); }
    }
    if Same(keys[i], key) || j < 0 {
      NotThere(ks, key);
      if Same(keys[i], key) { IndexIs(keys, key, i); }
    } else {
      IndexIs(ks, key, if j < i then j else j - 1);
    }
  }

  lemma OtherKey(keys: seq<Key>, i: int, k: int, key: Key)
    requires Unique(keys) && 0 <= i < |keys| && 0 <= k < |keys| && i != k && Same(keys[i], key)
    ensures !Same(keys[k], key)
  {
    SameTwice(keys[k], key, keys[i]);
  }

  // ---- iterators over the entries -----------------------------------------------------------------

  /** An iterator and its position; `seen` are the serial numbers of the entries
      it has given out, `until` is the number of entries made when it came to its end. */
  class Iterator {
    var at: nat
    var done: bool
    ghost var seen: seq<int>
    ghost var until: int

    constructor ()
      ensures at == 0 && !done && seen == []
    {
      at, done, seen, until := 0, false, [], 0;
    }
  }

  /** What is before the position has been given out, what is not is newer than
      all that has. */
  predicate Places(at: int, seen: seq<int>, serials: seq<int>) {
    && 0 <= at <= |serials| && Increasing(seen)
    && (forall k | 0 <= k < at :: serials[k] in seen)
    && (forall k, m | at <= k < |serials| && 0 <= m < |seen| :: seen[m] < serials[k])
  }

  /** Deleting entry i; a position behind it moves. */
  lemma PlacesDelete(at: int, seen: seq<int>, serials: seq<int>, i: int)
    requires Places(at, seen, serials) && 0 <= i < |serials|
    ensures Places(if i < at then at - 1 else at, seen, RemoveAt(serials, i))
  {
    var r := RemoveAt(serials, i);
    var p := if i < at then at - 1 else at;
    forall k | 0 <= k < p ensures r[k] in seen { assert serials[if k < i then k else k + 1] in seen; }
    forall k, m | p <= k < |r| && 0 <= m < |seen| ensures seen[m] < r[k] {
      assert seen[m] < serials[if k < i then k else k + 1];
    }
  }

  /** A position that does not move is right exactly if it is not behind the entry. */
  lemma PlacesStay(at: int, seen: seq<int>, serials: seq<int>, i: int)
    requires Places(at, seen, serials) && Increasing(serials) && 0 <= i < |serials|
    ensures Places(at, seen, RemoveAt(serials, i)) <==> at <= i
  {
    var r := RemoveAt(serials, i);
    if at <= i {
      PlacesDelete(at, seen, serials, i);
    } else if at < |serials| {
      assert r[at - 1] == serials[at];
      assert serials[at] !in seen;
    }
  }

  lemma PlacesAdd(at: int, seen: seq<int>, serials: seq<int>, s: int)
    requires Places(at, seen, serials) && forall m | 0 <= m < |seen| :: seen[m] < s
    ensures Places(at, seen, serials + [s])
  {
    var r := serials + [s];
    forall k | 0 <= k < at ensures r[k] in seen { assert serials[k] in seen; }
  }

  lemma PlacesNext(at: int, seen: seq<int>, serials: seq<int>)
    requires Places(at, seen, serials) && at < |serials| && Increasing(serials)
    ensures Places(at + 1, seen + [serials[at]], serials)
  {
    var r := seen + [serials[at]];
    forall k | 0 <= k < at + 1 ensures serials[k] in r {
      if k < at { assert serials[k] in seen; } else { assert r[|seen|] == serials[k]; }
    }
  }

  class Map<V> {
    var keys: seq<Key>
    var values: seq<V>
    var itp: seq<Iterator>
    /** A number for each entry, in the order in which they were made. */
    ghost var serials: seq<int>
    ghost var made: int

    ghost predicate Valid()
      reads this, set it | it in itp
    {
      && |keys| == |values| == |serials| && Unique(keys) && Increasing(serials)
      && (forall k | 0 <= k < |serials| :: serials[k] < made)
      && (forall i, j | 0 <= i < j < |itp| :: itp[i] != itp[j])
      && forall i | 0 <= i < |itp| :: !itp[i].done
    }

    /** The iterator stands where an iterator should. */
    ghost predicate Placed(it: Iterator)
      reads `serials, `made, it
    {
      Places(it.at, it.seen, serials) && forall m | 0 <= m < |it.seen| :: it.seen[m] < made
    }

    constructor ()
      ensures Valid() && keys == [] && itp == []
    {
      keys, values, itp, serials, made := [], [], [], [], 0;
    }

    /** has: where the key is. NaN and the zeros are searched from the end with
        `is`, everything else with indexOf. */
    method Has(key: Key) returns (i: int)
      requires Unique(keys)
      ensures i == IndexOf(keys, key)
    {
      if !StrictEqual(key, key) || key.Zero? {
        i := |keys| - 1;
        while i >= 0 && !Same(keys[i], key)
          invariant -1 <= i < |keys| && forall k | i < k < |keys| :: !Same(keys[k], key)
          decreases i
        {
          i := i - 1;
        }
      } else {
        i := 0;
        while i < |keys| && !StrictEqual(keys[i], key)
          invariant 0 <= i <= |keys| && forall k | 0 <= k < i :: !Same(keys[k], key)
        {
          i := i + 1;
        }
        if i == |keys| { i := -1; }
      }
      if i >= 0 { IndexIs(keys, key, i); } else { NotThere(keys, key); }
    }

    method Get(key: Key) returns (v: Option<V>)
      requires Valid()
      ensures v == Lookup(keys, values, key)
    {
      var i := Has(key);
      v := if i >= 0 then Some(values[i]) else None;
    }

    /** set: a known key keeps its place, a new one goes to the end. */
    method Set(key: Key, value: V)
      requires Valid()
      modifies this
      ensures Valid() && itp == old(itp)
      ensures forall k :: Lookup(keys, values, k) ==
                          if Same(key, k) then Some(value) else Lookup(old(keys), old(values), k)
      ensures serials == if IndexOf(old(keys), key) >= 0 then old(serials) else old(serials) + [old(made)]
      ensures made == if IndexOf(old(keys), key) >= 0 then old(made) else old(made) + 1
      ensures keys == if IndexOf(old(keys), key) >= 0 then old(keys) else old(keys) + [key]
      ensures forall x: Iterator | old(allocated(x)) && old(Placed(x)) :: Placed(x)
    {
      var i := Has(key);
      if i >= 0 {
        forall k ensures Lookup(keys, values[i := value], k)
            == if Same(key, k) then Some(value) else Lookup(keys, values, k) {
          LookupSet(keys, values, i, value, k);
          SameTwice(key, keys[i], keys[i]);
          SameChain(keys[i], key, k);
        }
        values := values[i := value];
      } else {
        forall k ensures Lookup(keys + [key], values + [value], k)
            == if Same(key, k) then Some(value) else Lookup(keys, values, k) {
          LookupAdd(keys, values, key, value, k);
        }
        LookupAdd(keys, values, key, value, key);
        forall x: Iterator | Placed(x) ensures Places(x.at, x.seen, serials + [made]) {
          PlacesAdd(x.at, x.seen, serials, made);
        }
        keys, values := keys + [key], values + [value];
        serials, made := serials + [made], made + 1;
      }
    }

    /** delete: every position behind the entry moves one to the front. */
    method Delete(key: Key) returns (found: bool)
      requires Valid()
      modifies this, (set it | it in itp)`at
      ensures Valid() && itp == old(itp) && made == old(made)
      ensures found == (IndexOf(old(keys), key) >= 0)
      ensures forall k :: Lookup(keys, values, k) == if Same(key, k) then None else Lookup(old(keys), old(values), k)
      ensures serials == if found then RemoveAt(old(serials), IndexOf(old(keys), key)) else old(serials)
      ensures keys == if found then RemoveAt(old(keys), IndexOf(old(keys), key)) else old(keys)
      // An iterator that is not in _itp is left behind if it is behind the entry.
      ensures forall x: Iterator | old(allocated(x)) && old(Placed(x)) ::
                Placed(x) <==> (found ==> x in itp || old(x.at) <= IndexOf(old(keys), key))
    {
      hide Places, Lookup, IndexOf, Unique, Increasing;
      var i := Has(key);
      found := i >= 0;
      if !found {
        forall k ensures Lookup(keys, values, k) == if Same(key, k) then None else Lookup(keys, values, k) {
          AbsentKey(keys, values, key, k);
        }
        return;
      }
      forall k ensures Lookup(RemoveAt(keys, i), RemoveAt(values, i), k)
          == if Same(key, k) then None else Lookup(keys, values, k) {
        LookupDelete(keys, values, i, k);
        SameChain(keys[i], key, k);
      }
      LookupDelete(keys, values, i, key);
      SerialsDelete(serials, i);
      keys, values, serials := RemoveAt(keys, i), RemoveAt(values, i), RemoveAt(serials, i);
      MovePositions(i);
      forall x: Iterator | old(allocated(x)) && old(Placed(x))
        ensures Placed(x) <==> (x in itp || old(x.at) <= i)
      {
        PlacesDelete(old(x.at), x.seen, old(serials), i);
        PlacesStay(old(x.at), x.seen, old(serials), i);
      }
    }

    /** The loop over _itp. */
    method MovePositions(i: nat)
      requires forall n, m | 0 <= n < m < |itp| :: itp[n] != itp[m]
      modifies (set it | it in itp)`at
      ensures forall n | 0 <= n < |itp| ::
                itp[n].at == if i < old(itp[n].at) then old(itp[n].at) - 1 else old(itp[n].at)
    {
      var n := 0;
      while n < |itp|
        invariant 0 <= n <= |itp|
        invariant forall m | 0 <= m < n ::
            itp[m].at == if i < old(itp[m].at) then old(itp[m].at) - 1 else old(itp[m].at)
        invariant forall m | n <= m < |itp| :: itp[m].at == old(itp[m].at)
      {
        if i < itp[n].at { itp[n].at := itp[n].at - 1; }
        n := n + 1;
      }
    }

    /** clear leaves the positions as they are: right only for an iterator that has
        not given out anything yet. */
    method Clear()
      requires Valid()
      modifies this
      ensures Valid() && keys == [] && serials == [] && itp == old(itp)
      ensures forall x: Iterator | old(allocated(x)) && old(Placed(x)) :: Placed(x) <==> x.at == 0
    {
      keys, values, serials := [], [], [];
    }

    /** sharedIterator. */
    method Entries() returns (it: Iterator)
      requires Valid()
      modifies this`itp
      ensures Valid() && fresh(it) && itp == old(itp) + [it] && !it.done && it.seen == [] && it.at == 0
      ensures Placed(it)
    {
      it := new Iterator();
      itp := itp + [it];
    }

    /** next: the entry at the position, or the end, where the iterator leaves _itp.
        One that is not there any more makes the last of the others leave. */
    method Next(it: Iterator) returns (entry: Option<(Key, V)>)
      requires Valid()
      modifies this`itp, it
      ensures Valid() && it.done == entry.None?
      ensures entry.None? <==> old(it.done) || old(it.at) >= |keys|
      ensures entry.Some? ==>
                && itp == old(itp) && it.at == old(it.at) + 1 && it.seen == old(it.seen) + [serials[old(it.at)]]
                && entry == Some((keys[old(it.at)], values[old(it.at)]))
      ensures entry.None? ==>
                && it !in itp && it.seen == old(it.seen) && it.at == old(it.at)
                && (it in old(itp) ==>
                      |itp| == |old(itp)| - 1 && forall x :: x in itp <==> x in old(itp) && x != it)
                && (it !in old(itp) && old(itp) != [] ==> itp == old(itp)[..|old(itp)| - 1])
      // In its place, an iterator gives entries newer than all that it gave before,
      // and at the end it has given every entry that is still there.
      ensures old(Placed(it)) ==> Placed(it)
      ensures old(Placed(it)) && entry.Some? ==>
                forall m | 0 <= m < |old(it.seen)| :: old(it.seen)[m] < serials[old(it.at)]
      ensures old(Placed(it)) && entry.None? && !old(it.done) ==> forall k | 0 <= k < |serials| :: serials[k] in it.seen
      ensures it.until == if entry.None? && !old(it.done) then made else old(it.until)
    {
      if !it.done && it.at < |keys| {
        if Placed(it) { PlacesNext(it.at, it.seen, serials); }
        entry := Some((keys[it.at], values[it.at]));
        it.seen := it.seen + [serials[it.at]];
        it.at := it.at + 1;
      } else {
        if !it.done { it.until := made; }
        it.done := true;
        Leave(it);
        forall i | 0 <= i < |itp| ensures !itp[i].done { assert itp[i] in itp; }
        entry := None;
      }
    }

    /** itp.splice(itp.indexOf(p), 1): splice takes -1 as the last position. */
    method Leave(it: Iterator)
      requires forall i, j | 0 <= i < j < |itp| :: itp[i] != itp[j]
      modifies `itp
      ensures it in old(itp) ==> |itp| == |old(itp)| - 1 && forall x :: x in itp <==> x in old(itp) && x != it
      ensures it !in old(itp) ==> itp == if old(itp) == [] then [] else old(itp)[..|old(itp)| - 1]
      ensures forall i, j | 0 <= i < j < |itp| :: itp[i] != itp[j]
      ensures forall x | x in itp :: x in old(itp) && x != it
    {
      var n := 0;
      while n < |itp| && itp[n] != it
        invariant 0 <= n <= |itp| && it !in itp[..n]
      {
        n := n + 1;
      }
      if n == |itp| { n := n - 1; }
      if n < 0 { return; }
      ghost var was := itp;
      itp := RemoveAt(itp, n);
      forall x | x in was && x != was[n] ensures x in itp {
        var k :| 0 <= k < |was| && was[k] == x;
        assert itp[if k < n then k else k - 1] == x;
      }
    }
  }

  // ---- whole runs --------------------------------------------------------------------------------

  datatype Call<V> = SetCall(key: Key, value: V) | DeleteCall(key: Key) | EntriesCall | NextCall(which: nat)

  /** An iterator has given different entries, in the order in which they were made;
      at its end these were all that were there, and are still there. */
  ghost predicate Fair<V>(m: Map<V>, it: Iterator)
    reads m`serials, m`made, it
  {
    && Increasing(it.seen)
    && (!it.done ==> m.Placed(it))
    && (it.done ==> it.until <= m.made && forall k | 0 <= k < |m.serials| && m.serials[k] < it.until ::
          m.serials[k] in it.seen)
  }

  /** What holds between two calls. */
  ghost predicate Iterating<V>(m: Map<V>, its: seq<Iterator>)
    reads m, m.itp, its
  {
    && m.Valid()
    && (forall i, j | 0 <= i < j < |its| :: its[i] != its[j])
    && (forall i | 0 <= i < |its| :: Fair(m, its[i]) && (its[i].done || its[i] in m.itp))
    && (forall x | x in m.itp :: x in its)
  }

  /** For any sequence of calls in which no iterator is asked again after its end. */
  method Run<V>(m: Map<V>, calls: seq<Call<V>>) returns (its: seq<Iterator>)
    requires m.Valid() && m.itp == []
    modifies m
    ensures Iterating(m, its) && forall i | 0 <= i < |its| :: fresh(its[i])
  {
    its := [];
    var n := 0;
    while n < |calls|
      invariant 0 <= n <= |calls| && Iterating(m, its) && forall i | 0 <= i < |its| :: fresh(its[i])
    {
      hide Map.Valid, Places, Lookup, IndexOf, Increasing;
      match calls[n] {
        case SetCall(key, value) => RunSet(m, its, key, value);
        case DeleteCall(key) => RunDelete(m, its, key);
        case EntriesCall =>
          var it := m.Entries();
          StartsFair(m, it);
          its := its + [it];
        case NextCall(which) =>
          if which < |its| && !its[which].done { RunNext(m, its, which); }
      }
      n := n + 1;
    }
  }

  lemma StartsFair<V>(m: Map<V>, it: Iterator)
    requires !it.done && it.seen == [] && m.Placed(it)
    ensures Fair(m, it)
  {}

  method RunSet<V>(m: Map<V>, ghost its: seq<Iterator>, key: Key, value: V)
    requires Iterating(m, its)
    modifies m
    ensures Iterating(m, its)
  {
    hide Places, Lookup, IndexOf, Increasing;
    m.Set(key, value);
  }

  method RunDelete<V>(m: Map<V>, ghost its: seq<Iterator>, key: Key)
    requires Iterating(m, its)
    modifies m, (set it | it in m.itp)`at
    ensures Iterating(m, its)
  {
    hide Places, Lookup, IndexOf, Increasing;
    var found := m.Delete(key);
  }

  method RunNext<V>(m: Map<V>, its: seq<Iterator>, which: nat)
    requires Iterating(m, its) && which < |its| && !its[which].done
    modifies m`itp, its[which]
    ensures Iterating(m, its)
  {
    hide Lookup, IndexOf;
    var entry := m.Next(its[which]);
  }

  // ---- an iterator asked again after its end ---------------------------------------------------------

  /** Keys 1, 2, 3. */
  method ThreeKeys() returns (m: Map<int>)
    ensures fresh(m) && m.Valid() && m.itp == [] && m.keys == [Other(1), Other(2), Other(3)]
  {
    hide Lookup, IndexOf, Places, Increasing;
    m := new Map<int>();
    NotThere([], Other(1));
    m.Set(Other(1), 10);
    NotThere([Other(1)], Other(2));
    m.Set(Other(2), 20);
    NotThere([Other(1), Other(2)], Other(3));
    m.Set(Other(3), 30);
  }

  /** An iterator is asked until it is done. */
  method ToTheEnd(m: Map<int>, it: Iterator)
    requires m.Valid() && it in m.itp && it.at <= |m.keys|
    modifies m`itp, it
    ensures m.Valid() && it.done && |m.itp| == |old(m.itp)| - 1
    ensures forall x :: x in m.itp <==> x in old(m.itp) && x != it
  {
    hide Places;
    var entry := m.Next(it);
    while entry.Some?
      invariant m.Valid() && it.at <= |m.keys| && it.done == entry.None?
      invariant entry.Some? ==> m.itp == old(m.itp)
      invariant entry.None? ==> |m.itp| == |old(m.itp)| - 1
      invariant entry.None? ==> forall x :: x in m.itp <==> x in old(m.itp) && x != it
      decreases |m.keys| - it.at, if it.done then 0 else 1
    {
      entry := m.Next(it);
    }
  }

  /** An iterator at its end, asked once more, takes the other one out of _itp. */
  method TakesTheOther(m: Map<int>) returns (other: Iterator)
    requires m.Valid() && m.itp == []
    modifies m
    ensures m.Valid() && m.itp == [] && m.keys == old(m.keys)
    ensures fresh(other) && other.at == 0 && !other.done && m.Placed(other)
  {
    hide Places, Lookup, IndexOf;
    var it := m.Entries();
    other := m.Entries();
    ghost var both := m.itp;
    assert both == [it, other] && both[0] == it && both[1] == other && it != other;
    ToTheEnd(m, it);
    assert other in m.itp;
    forall i | 0 <= i < |m.itp| ensures m.itp[i] == other {
      assert m.itp[i] in m.itp;
      assert m.itp[i] in both;
    }
    assert m.itp == [other];
    var entry := m.Next(it);
  }

  /** Then that one skips an entry: it gives the first, the first is deleted, and
      the next that it gives is the third. */
  method SkipsAnEntry() returns (first: Option<(Key, int)>, next: Option<(Key, int)>, keys: seq<Key>)
    ensures first.Some? && first.value.0 == Other(1)
    ensures next.Some? && next.value.0 == Other(3)
    ensures keys == [Other(2), Other(3)]
  {
    hide Places, Lookup, IndexOf;
    var m := ThreeKeys();
    var it := TakesTheOther(m);
    first := m.Next(it);
    IndexIs(m.keys, Other(1), 0);
    var found := m.Delete(Other(1));
    next := m.Next(it);
    keys := m.keys;
  }

  lemma AbsentKey<V>(keys: seq<Key>, values: seq<V>, key: Key, k: Key)
    requires |keys| == |values| && IndexOf(keys, key) < 0
    ensures Same(key, k) ==> Lookup(keys, values, k) == None
  {
    forall n | 0 <= n < |keys| ensures Same(key, k) ==> !Same(keys[n], k) { SameTwice(keys[n], k, key); }
    if Same(key, k) { NotThere(keys, k); }
  }

  lemma SerialsDelete(serials: seq<int>, i: int)
    requires Increasing(serials) && 0 <= i < |serials|
    ensures Increasing(RemoveAt(serials, i))
  {}

  lemma SameChain(a: Key, b: Key, c: Key)
    ensures Same(a, b) ==> (Same(a, c) <==> Same(b, c))
  {}
}
