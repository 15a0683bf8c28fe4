/** src/low_loop.cpp, timers: the chores by id, and an index of them sorted by a
    32-bit stamp that wraps around. */
module Timers {
  import opened Slices

  const TWO32 := 0x1_0000_0000
  const TWO31 := 0x8000_0000

  /** A number as a signed 32-bit integer. */
  function Wrap(n: int): (w: int)
    ensures -TWO31 <= w < TWO31
  {
    (n + TWO31) % TWO32 - TWO31
  }

  /** Differences of stamps are differences of times, as long as these are small. */
  lemma WrapDifference(a: int, b: int)
    requires -TWO31 <= a - b < TWO31
    ensures Wrap(Wrap(a) - Wrap(b)) == a - b
  {}

  /** And what becomes of those that are not. */
  lemma FarDifference(a: int, b: int)
    requires -TWO32 < a - b < TWO31
    ensures Wrap(Wrap(a) - Wrap(b)) == if a - b >= -TWO31 then a - b else a - b + TWO32
  {
    if a - b >= -TWO31 {
      WrapDifference(a, b);
    } else {
      WrapDifference(a + TWO32, b);
      assert Wrap(a + TWO32) == Wrap(a);
    }
  }

  lemma WrapSum(a: int, b: int)
    ensures Wrap(Wrap(a) + b) == Wrap(a + b)
  {}

  /** How far a stamp is ahead of `last`, going round upwards. */
  function Distance(stamp: int, last: int): int { (stamp - last) % TWO32 }

  lemma DistanceIs(a: int, b: int)
    requires 0 <= a - b < TWO32
    ensures Distance(Wrap(a), Wrap(b)) == a - b
  {}

  // ---- the sorted index ------------------------------------------------------------------

  /** low_chore_t; oneshot is 0, 1, or 2 for a C callback. */
  datatype Chore = Chore(stamp: int, interval: int, oneshot: int, ref: bool)

  datatype Slot = Slot(stamp: int, id: int)

  predicate Sorted(times: seq<Slot>) { forall i, j | 0 <= i < j < |times| :: times[i].stamp <= times[j].stamp }

  /** lower_bound: the first slot that is not before the stamp. */
  function LowerBound(times: seq<Slot>, stamp: int): (k: int)
    ensures 0 <= k <= |times| && (k < |times| ==> times[k].stamp >= stamp)
    ensures forall i | 0 <= i < k :: times[i].stamp < stamp
  {
    if times == [] || times[0].stamp >= stamp then 0 else 1 + LowerBound(times[1..], stamp)
  }

  /** Where a multimap puts a new slot: behind the equal ones. */
  function UpperBound(times: seq<Slot>, stamp: int): (k: int)
    ensures 0 <= k <= |times| && (k < |times| ==> times[k].stamp > stamp)
    ensures forall i | 0 <= i < k :: times[i].stamp <= stamp
  {
    if times == [] || times[0].stamp > stamp then 0 else 1 + UpperBound(times[1..], stamp)
  }

  function InsertAt(times: seq<Slot>, k: int, s: Slot): (r: seq<Slot>)
    requires 0 <= k <= |times|
    ensures |r| == |times| + 1 && forall i | 0 <= i < |r| ::
        r[i] == if i < k then times[i] else if i == k then s else times[i - 1]
  {
    times[..k] + [s] + times[k..]
  }

  function Inserted(times: seq<Slot>, s: Slot): seq<Slot> { InsertAt(times, UpperBound(times, s.stamp), s) }

  ghost predicate Listed(times: seq<Slot>, id: int) { exists i :: 0 <= i < |times| && times[i].id == id }

  predicate DistinctIds(times: seq<Slot>) { forall i, j | 0 <= i < j < |times| :: times[i].id != times[j].id }

  /** The index holds exactly one slot for every chore, and nothing else. */
  ghost predicate Agrees(times: seq<Slot>, chores: map<int, Chore>) {
    && Sorted(times) && DistinctIds(times)
    && (forall i | 0 <= i < |times| :: times[i].id in chores && times[i].stamp == chores[times[i].id].stamp)
    && (forall id | id in chores :: Listed(times, id))
  }

  lemma InsertedSorted(times: seq<Slot>, k: int, s: Slot)
    requires Sorted(times) && 0 <= k <= |times|
    requires (forall i | 0 <= i < k :: times[i].stamp <= s.stamp) && (k < |times| ==> s.stamp < times[k].stamp)
    ensures Sorted(InsertAt(times, k, s))
  {}

  lemma InsertedDistinct(times: seq<Slot>, k: int, s: Slot)
    requires DistinctIds(times) && 0 <= k <= |times| && forall i | 0 <= i < |times| :: times[i].id != s.id
    ensures DistinctIds(InsertAt(times, k, s))
  {}

  lemma InsertedListed(times: seq<Slot>, k: int, s: Slot, id: int)
    requires 0 <= k <= |times| && (Listed(times, id) || id == s.id)
    ensures Listed(InsertAt(times, k, s), id)
  {
    var r := InsertAt(times, k, s);
    if id == s.id {
      assert r[k].id == id;
    } else {
      var i :| 0 <= i < |times| && times[i].id == id;
      assert r[if i < k then i else i + 1].id == id;
    }
  }

  lemma AgreesInserted(times: seq<Slot>, chores: map<int, Chore>, id: int, c: Chore)
    requires Agrees(times, chores) && id !in chores
    ensures Agrees(Inserted(times, Slot(c.stamp, id)), chores[id := c])
  {
    hide UpperBound, Listed, Sorted, DistinctIds;
    var s := Slot(c.stamp, id);
    var k := UpperBound(times, c.stamp);
    InsertedSorted(times, k, s);
    InsertedDistinct(times, k, s);
    forall x | x in chores[id := c] ensures Listed(InsertAt(times, k, s), x) { InsertedListed(times, k, s, x); }
  }

  lemma ErasedListed(times: seq<Slot>, k: int, id: int)
    requires 0 <= k < |times| && Listed(times, id) && id != times[k].id
    ensures Listed(RemoveAt(times, k), id)
  {
    var i :| 0 <= i < |times| && times[i].id == id;
    assert RemoveAt(times, k)[if i < k then i else i - 1].id == id;
  }

  lemma ErasedShape(times: seq<Slot>, k: int)
    requires Sorted(times) && DistinctIds(times) && 0 <= k < |times|
    ensures Sorted(RemoveAt(times, k)) && DistinctIds(RemoveAt(times, k))
    ensures forall i | 0 <= i < |times| - 1 :: RemoveAt(times, k)[i].id != times[k].id
  {}

  lemma AgreesErased(times: seq<Slot>, chores: map<int, Chore>, k: int)
    requires Agrees(times, chores) && 0 <= k < |times|
    ensures Agrees(RemoveAt(times, k), chores - {times[k].id})
  {
    hide Listed, Sorted, DistinctIds;
    ErasedShape(times, k);
    var id := times[k].id;
    forall x | x in chores - {id} ensures Listed(RemoveAt(times, k), x) { ErasedListed(times, k, x); }
  }

  /** Slots with the same stamp stand in the order in which they were put in. */
  ghost predicate InTurn(times: seq<Slot>, turn: map<int, int>, turns: int) {
    && (forall i | 0 <= i < |times| :: times[i].id in turn && turn[times[i].id] < turns)
    && (forall i, j | 0 <= i < j < |times| && times[i].stamp == times[j].stamp ::
          times[i].id in turn && times[j].id in turn && turn[times[i].id] < turn[times[j].id])
  }

  lemma InsertedInTurn(times: seq<Slot>, turn: map<int, int>, turns: int, s: Slot)
    requires InTurn(times, turn, turns) && Sorted(times) && forall i | 0 <= i < |times| :: times[i].id != s.id
    ensures InTurn(Inserted(times, s), turn[s.id := turns], turns + 1)
  {
    hide UpperBound;
    var k := UpperBound(times, s.stamp);
    assert k < |times| ==> forall i | k <= i < |times| :: times[i].stamp >= times[k].stamp;
  }

  lemma ErasedInTurn(times: seq<Slot>, turn: map<int, int>, turns: int, k: int)
    requires InTurn(times, turn, turns) && 0 <= k < |times|
    ensures InTurn(RemoveAt(times, k), turn, turns)
  {}

  lemma StaysInTurn(times: seq<Slot>, chores: map<int, Chore>, turn: map<int, int>, turns: int, k: int, s: Slot)
    requires Agrees(times, chores) && InTurn(times, turn, turns) && 0 <= k < |times| && s.id == times[k].id
    ensures InTurn(Inserted(RemoveAt(times, k), s), turn[s.id := turns], turns + 1)
  {
    ErasedShape(times, k);
    ErasedInTurn(times, turn, turns, k);
    InsertedInTurn(RemoveAt(times, k), turn, turns, s);
  }

  // ---- the next timer -------------------------------------------------------------------------

  /** The circular search: lower_bound, or the first slot if that is the end. */
  function Next(times: seq<Slot>, last: int): (k: int)
    requires times != []
    ensures 0 <= k < |times|
  {
    var k := LowerBound(times, last);
    if k == |times| then 0 else k
  }

  /** It finds the slot that is the least far ahead of `last`. */
  lemma NextIsFirst(times: seq<Slot>, last: int, i: int)
    requires Sorted(times) && 0 <= i < |times| && forall j | 0 <= j < |times| :: -TWO31 <= times[j].stamp < TWO31
    requires -TWO31 <= last < TWO31
    ensures Distance(times[Next(times, last)].stamp, last) <= Distance(times[i].stamp, last)
  {
    var k := Next(times, last);
    assert k < i || k == i || i < k;
    DistanceForm(times[k].stamp, last);
    DistanceForm(times[i].stamp, last);
    hide Distance;
  }

  /** Of equal stamps, the search finds the first. */
  lemma NextIsLowest(times: seq<Slot>, last: int, i: int)
    requires Sorted(times) && 0 <= i < |times| && times[i].stamp == times[Next(times, last)].stamp
    ensures Next(times, last) <= i
  {}

  lemma DistanceForm(stamp: int, last: int)
    requires -TWO31 <= stamp < TWO31 && -TWO31 <= last < TWO31
    ensures Distance(stamp, last) == if stamp >= last then stamp - last else stamp - last + TWO32
  {}

  // ---- the loop's timers -----------------------------------------------------------------------------

  /** Ids of the chores that keep the loop alive. */
  function Refs(chores: map<int, Chore>): set<int> { set id | id in chores && chores[id].ref }

  lemma RefsSet(chores: map<int, Chore>, id: int, c: Chore)
    ensures |Refs(chores[id := c])| ==
            |Refs(chores)| - (if id in chores && chores[id].ref then 1 else 0) + if c.ref then 1 else 0
  {
    var a, b := Refs(chores), Refs(chores[id := c]);
    assert b == if c.ref then (a - {id}) + {id} else a - {id};
    assert id in a <==> id in chores && chores[id].ref;
  }

  lemma RefsLess(chores: map<int, Chore>, id: int)
    requires id in chores
    ensures |Refs(chores - {id})| == |Refs(chores)| - if chores[id].ref then 1 else 0
  {
    var a, b := Refs(chores), Refs(chores - {id});
    assert b == a - {id};
    assert id in a <==> chores[id].ref;
  }

  class Loop {
    var chores: map<int, Chore>
    var times: seq<Slot>
    var runRef: int
    var lastChoreTime: int

    /** The times behind the stamps, which do not wrap: when each chore is due,
        the time of the last chore that ran, and the latest look at the clock. */
    ghost var due: map<int, int>
    ghost var lastTime: int
    ghost var clock: int

    /** Which of the slots that were ever put in a chore's slot is. */
    ghost var turn: map<int, int>
    ghost var turns: int

    /** run_ref without the timers. */
    ghost function Others(): int
      reads this
    {
      runRef - |Refs(chores)|
    }

    /** Everything that is due lies within 2^32 ms from the last chore on, and
        less than 2^31 ms in the future. */
    ghost predicate Timely()
      reads this
    {
      && lastChoreTime == Wrap(lastTime) && lastTime <= clock
      && forall id | id in chores ::
           && id in due && lastTime <= due[id] < lastTime + TWO32 && due[id] < clock + TWO31
           && chores[id].stamp == Wrap(due[id]) && 0 <= chores[id].interval < TWO31
    }

    ghost predicate Valid()
      reads this
    {
      Agrees(times, chores) && Timely() && InTurn(times, turn, turns)
    }

    constructor (ghost now: int, tick: int, runRef: int)
      requires tick == Wrap(now)
      ensures Valid() && chores == map[] && this.runRef == runRef && lastTime == now && clock == now
    {
      chores, times, this.runRef, lastChoreTime, due, lastTime, clock := map[], [], runRef, tick, map[], now, now;
      turn, turns := map[], 0;
    }

    /** find on the stamp, then the search for the id: it ends at the chore's slot. */
    method FindSlot(id: int) returns (k: int)
      requires Valid() && id in chores
      ensures 0 <= k < |times| && times[k].id == id
    {
      ghost var at :| 0 <= at < |times| && times[at].id == id;
      k := LowerBound(times, chores[id].stamp);
      while times[k].id != id
        invariant 0 <= k <= at
        decreases at - k
      {
        k := k + 1;
      }
    }

    /** The chore's slot is the newest, and no other has got another turn. */
    twostate predicate ItsTurn(id: int)
      reads this
    {
      turn == old(turn)[id := old(turns)] && turns == old(turns) + 1
    }

    twostate predicate NoTurn()
      reads this
    {
      turn == old(turn) && turns == old(turns)
    }

    lemma SlotsDiffer(id: int)
      requires Valid() && id !in chores
      ensures Sorted(times) && forall i | 0 <= i < |times| :: times[i].id != id
    {}

    /** A chore is put in, under an id that is not in use. */
    method Put(id: int, c: Chore, ghost when: int)
      requires Valid() && id !in chores && c.stamp == Wrap(when) && lastTime <= when < lastTime + TWO32
      requires when < clock + TWO31 && 0 <= c.interval < TWO31
      modifies `chores, `times, `due, `turn, `turns
      ensures Valid() && chores == old(chores)[id := c] && due == old(due)[id := when] && ItsTurn(id)
    {
      hide Agrees, Inserted, Wrap, InTurn;
      SlotsDiffer(id);
      AgreesInserted(times, chores, id, c);
      InsertedInTurn(times, turn, turns, Slot(c.stamp, id));
      turn, turns := turn[id := turns], turns + 1;
      times := Inserted(times, Slot(c.stamp, id));
      chores := chores[id := c];
      due := due[id := when];
    }

    /** A chore is taken out of both. */
    method Take(id: int)
      requires Valid() && id in chores
      modifies `chores, `times
      ensures Valid() && chores == old(chores) - {id}
    {
      var k := FindSlot(id);
      AgreesErased(times, chores, k);
      ErasedInTurn(times, turn, turns, k);
      times := RemoveAt(times, k);
      chores := chores - {id};
    }

    /** low_loop_set_chore, with the id that the stash gave. */
    method SetChore(id: int, tick: int, delay: int, oneshot: bool, ghost now: int)
      requires Valid() && id !in chores && tick == Wrap(now) && delay < TWO31
      requires clock <= now && now + (if delay < 0 then 0 else delay) < lastTime + TWO32
      modifies this
      ensures Valid() && Others() == old(Others()) && lastTime == old(lastTime)
      ensures id in chores && chores == old(chores)[id := chores[id]]
      ensures due == old(due)[id := now + if delay < 0 then 0 else delay]
      ensures chores[id].ref && chores[id].interval == (if delay < 0 then 0 else delay)
      ensures chores[id].oneshot == (if oneshot then 1 else 0) && ItsTurn(id)
    {
      hide Agrees, Refs, Wrap, InTurn;
      clock := now;
      var interval := if delay < 0 then 0 else delay;
      WrapSum(now, interval);
      var c := Chore(Wrap(tick + interval), interval, if oneshot then 1 else 0, true);
      RefsSet(chores, id, c);
      runRef := runRef + 1;
      Put(id, c, now + interval);
    }

    /** low_loop_clear_chore and low_clear_timeout. */
    method ClearChore(id: int)
      requires Valid()
      modifies this
      ensures Valid() && Others() == old(Others()) && chores == old(chores) - {id}
      ensures lastTime == old(lastTime) && due == old(due) && clock == old(clock) && NoTurn()
    {
      if id !in chores { return; }
      RefsLess(chores, id);
      if chores[id].ref { runRef := runRef - 1; }
      Take(id);
    }

    /** The smallest id in use. */
    ghost predicate Smallest(id: int)
      reads this
    {
      id in chores && forall x | x in chores :: id <= x
    }

    /** low_set_timeout: a new id below all others if none is given, and the old
        chore of that id is replaced. `first` is the key of the first chore. */
    method SetTimeout(index: int, first: int, tick: int, delay: int, ghost now: int) returns (id: int)
      requires Valid() && tick == Wrap(now) && delay < TWO31 && (chores != map[] ==> Smallest(first))
      requires clock <= now && now + (if delay < 0 then 0 else delay) < lastTime + TWO32
      modifies this
      ensures Valid() && Others() == old(Others()) && lastTime == old(lastTime)
      ensures if index == 0 then id < 0 && id !in old(chores) else id == index
      ensures id in chores && chores == old(chores)[id := chores[id]] && !chores[id].ref && chores[id].oneshot == 2
      ensures due == old(due)[id := now + if delay < 0 then 0 else delay] && ItsTurn(id)
    {
      hide Agrees, Timely, Refs, Wrap, InTurn;
      id := index;
      if index == 0 {
        id := if |chores| > 0 then first - 1 else -1;
        if id >= 0 { id := -1; }
        assert chores != map[] ==> forall x | x in chores :: first <= x;
      } else {
        ClearChore(id);
      }
      PutTimeout(id, tick, delay, now);
      assert old(chores)[id := chores[id]] == (old(chores) - {id})[id := chores[id]];
    }

    /** The second half of low_set_timeout. */
    method PutTimeout(id: int, tick: int, delay: int, ghost now: int)
      requires Valid() && tick == Wrap(now) && delay < TWO31 && id !in chores
      requires clock <= now && now + (if delay < 0 then 0 else delay) < lastTime + TWO32
      modifies this
      ensures Valid() && Others() == old(Others()) && lastTime == old(lastTime)
      ensures id in chores && chores == old(chores)[id := chores[id]] && !chores[id].ref && chores[id].oneshot == 2
      ensures due == old(due)[id := now + if delay < 0 then 0 else delay] && ItsTurn(id)
    {
      hide Agrees, Refs, Wrap, InTurn;
      clock := now;
      var interval := if delay < 0 then 0 else delay;
      WrapSum(now, interval);
      var c := Chore(Wrap(tick + interval), interval, 2, false);
      RefsSet(chores, id, c);
      Put(id, c, now + interval);
    }

    /** low_loop_chore_ref. */
    method ChoreRef(id: int, ref: bool)
      requires Valid()
      modifies this
      ensures Valid() && Others() == old(Others()) && times == old(times) && due == old(due)
      ensures lastTime == old(lastTime)
      ensures chores == if id in old(chores) then old(chores)[id := old(chores)[id].(ref := ref)] else old(chores)
      ensures NoTurn()
    {
      if id !in chores { return; }
      var c := chores[id];
      RefsSet(chores, id, c.(ref := ref));
      if c.ref != ref {
        runRef := if ref then runRef + 1 else runRef - 1;
        chores := chores[id := c.(ref := ref)];
      } else {
        assert chores[id := c.(ref := ref)] == chores;
      }
    }

    /** No chore has been due for 2^32 ms. */
    ghost predicate NotLate(now: int)
      requires Valid()
      reads this
    {
      forall x | x in chores :: now < due[x] + TWO32
    }

    /** x is the chore that is due first, of those in `all`. */
    ghost predicate Foremost(x: int, all: map<int, Chore>, when: map<int, int>) {
      x in all && x in when && forall y | y in all && y in when :: when[x] <= when[y]
    }

    /** What the loop does when a chore is due: `fired` is its id. Otherwise it
        waits `millisecs`, without end if there is no chore. */
    method Fire(tick: int, ghost now: int) returns (fired: bool, id: int, millisecs: int)
      requires Valid() && tick == Wrap(now) && clock <= now && NotLate(now)
      modifies this
      ensures Valid() && Others() == old(Others())
      // Nothing fires early; what is due fires, unless it is late by more than 2^31 ms.
      ensures fired <==> exists x :: Foremost(x, old(chores), old(due)) && old(due)[x] <= now <= old(due)[x] + TWO31
      ensures !fired ==> chores == old(chores) && due == old(due) && lastTime == old(lastTime) && NoTurn()
      ensures !fired && chores == map[] ==> millisecs == -1
      ensures !fired && chores != map[] ==>
                && millisecs > 0
                && exists x :: Foremost(x, chores, due) && now + millisecs == due[x] + if due[x] > now then 0 else TWO32
      // The earliest one fires, and fired times never go back.
      ensures fired ==> Foremost(id, old(chores), old(due))
      // Of those due at the same time, the one that was set first.
      ensures fired ==> forall x | x in old(chores) && old(due)[x] == old(due)[id] ::
                          id in old(turn) && x in old(turn) && old(turn)[id] <= old(turn)[x]
      ensures fired ==> if old(chores)[id].oneshot == 0 then ItsTurn(id) else NoTurn()
      ensures fired ==> lastTime == old(due)[id] && old(lastTime) <= lastTime <= now
      // An interval is due again, at once if it has fallen behind.
      ensures fired && old(chores)[id].oneshot != 0 ==> chores == old(chores) - {id} && due == old(due)
      ensures fired && old(chores)[id].oneshot == 0 ==>
                && chores.Keys == old(chores).Keys && id in chores
                && chores == old(chores)[id := old(chores)[id].(stamp := chores[id].stamp)]
                && var again := old(due)[id] + old(chores)[id].interval;
                   due == old(due)[id := if again < now then now else again]
    {
      hide Agrees, Timely, Refs, Wrap, InTurn;
      fired, id, millisecs := false, 0, -1;
      if |times| == 0 {
        NoChores();
        return;
      }
      var k := Next(times, lastChoreTime);
      millisecs := Ahead(k, tick, now);
      id := times[k].id;
      fired := millisecs <= 0;
      if fired {
        if chores[id].oneshot != 0 { RunOnce(k, now); } else { RunAgain(k, tick, now); }
      }
    }

    /** How far the earliest chore is ahead of the clock. */
    method Ahead(k: int, tick: int, ghost now: int) returns (millisecs: int)
      requires Valid() && times != [] && k == Next(times, lastChoreTime)
      requires tick == Wrap(now) && clock <= now && NotLate(now)
      ensures Foremost(times[k].id, chores, due) && lastTime <= due[times[k].id] < now + TWO31
      ensures var d := due[times[k].id] - now; millisecs == if d >= -TWO31 then d else d + TWO32
      ensures forall x | x in chores :: x in due
      ensures forall x | x in chores && due[x] == due[times[k].id] ::
                times[k].id in turn && x in turn && turn[times[k].id] <= turn[x]
    {
      Earliest(k);
      FarDifference(due[times[k].id], now);
      millisecs := Wrap(times[k].stamp - tick);
    }

    /** The earliest chore runs: its stamp is the last chore time. */
    ghost predicate First(id: int, now: int)
      requires Valid()
      reads this
    {
      && id in chores && lastTime <= due[id] <= now <= due[id] + TWO31 && clock <= now
      && forall x | x in chores :: due[id] <= due[x]
    }

    method RunOnce(k: int, ghost now: int)
      requires Valid() && 0 <= k < |times| && First(times[k].id, now)
      modifies this
      ensures Valid() && Others() == old(Others()) && due == old(due) && lastTime == old(due[times[k].id]) && NoTurn()
      ensures chores == old(chores) - {old(times[k].id)}
    {
      hide Agrees, RemoveAt, Wrap, InTurn, Refs;
      KnownSlot(k);
      var id := times[k].id;
      lastChoreTime, lastTime, clock := times[k].stamp, due[id], now;
      AgreesErased(times, chores, k);
      ErasedInTurn(times, turn, turns, k);
      RefsLess(chores, id);
      times := RemoveAt(times, k);
      if chores[id].ref { runRef := runRef - 1; }
      chores := chores - {id};
    }

    lemma KnownSlot(k: int)
      requires Valid() && 0 <= k < |times|
      ensures times[k].id in chores && times[k].stamp == chores[times[k].id].stamp
    {}

    method RunAgain(k: int, tick: int, ghost now: int)
      requires Valid() && 0 <= k < |times| && First(times[k].id, now) && tick == Wrap(now)
      modifies this
      ensures Valid() && Others() == old(Others()) && lastTime == old(due[times[k].id]) && ItsTurn(old(times[k].id))
      ensures var id := old(times[k].id);
              && id in old(chores) && id in chores
              && chores == old(chores)[id := old(chores)[id].(stamp := chores[id].stamp)]
              && due == old(due)[id := Later(old(due)[id] + old(chores)[id].interval, now)]
    {
      hide Refs, Agrees, Inserted, RemoveAt, Wrap, InTurn;
      KnownSlot(k);
      var id := times[k].id;
      ghost var when := due[id];
      lastChoreTime, lastTime, clock := times[k].stamp, when, now;
      AgreesErased(times, chores, k);
      var c := chores[id];
      var stamp := Restamped(c, when, tick, now);
      var d := c.(stamp := stamp);
      RefsSet(chores, id, d);
      AgreesInserted(RemoveAt(times, k), chores - {id}, id, d);
      StaysInTurn(times, chores, turn, turns, k, Slot(stamp, id));
      turn, turns := turn[id := turns], turns + 1;
      assert (chores - {id})[id := d] == chores[id := d];
      times := Inserted(RemoveAt(times, k), Slot(stamp, id));
      chores := chores[id := d];
      due := due[id := Later(when + c.interval, now)];
    }

    /** The next stamp of an interval, never in the past. */
    method Restamped(c: Chore, ghost when: int, tick: int, ghost now: int) returns (stamp: int)
      requires c.stamp == Wrap(when) && tick == Wrap(now) && when <= now <= when + TWO31 && 0 <= c.interval < TWO31
      ensures stamp == Wrap(Later(when + c.interval, now))
    {
      WrapSum(when, c.interval);
      stamp := Wrap(c.stamp + c.interval);
      WrapDifference(when + c.interval, now);
      if Wrap(stamp - tick) < 0 { stamp := tick; }
    }

    function Later(a: int, b: int): int { if a < b then b else a }

    lemma NoChores()
      requires Valid() && times == []
      ensures chores == map[]
    {
      forall id ensures id !in chores { NotListed(id); }
    }

    /** The slot found is due first. */
    lemma Earliest(k: int)
      requires Valid() && times != [] && k == Next(times, lastChoreTime)
      ensures times[k].id in chores && forall x | x in chores :: due[times[k].id] <= due[x]
      ensures forall x | x in chores && due[x] == due[times[k].id] ::
                times[k].id in turn && x in turn && turn[times[k].id] <= turn[x]
    {
      var id := times[k].id;
      forall x | x in chores
        ensures due[id] <= due[x]
        ensures due[x] == due[id] ==> id in turn && x in turn && turn[id] <= turn[x]
      {
        assert Listed(times, x);
        var i :| 0 <= i < |times| && times[i].id == x;
        if times[i].stamp == times[k].stamp { NextIsLowest(times, lastChoreTime, i); }
        NextIsFirst(times, lastChoreTime, i);
        DistanceIs(due[id], lastTime);
        DistanceIs(due[x], lastTime);
      }
    }
  }

  lemma NotListed(id: int)
    ensures !Listed([], id)
  {}
}
