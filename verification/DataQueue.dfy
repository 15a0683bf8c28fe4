/** src/low_data_thread.cpp: the two intrusive lists behind the data queue.
    A callback is linked through its own mNext, so whether it is queued has to be
    read off mNext and the two last pointers. */
module DataQueue {
  import opened Queues

  class Callback {
    var next: Callback?
    var inDataThread: bool

    constructor ()
      ensures next == null && !inDataThread
    {
      next, inDataThread := null, false;
    }
  }

  /** Callbacks that a data thread runs. */
  ghost function Held(all: set<Callback>): set<Callback>
    reads all
  {
    set c | c in all && c.inDataThread
  }

  /** data_callback_first[p] and data_callback_last[p], and the callbacks `q`
      that the list holds, in order. */
  class CallbackList {
    var first: Callback?
    var last: Callback?
    ghost var q: seq<Callback>

    ghost predicate Valid()
      reads this, set c | c in q
    {
      && Distinct(q)
      && (q == [] ==> first == null && last == null)
      && (q != [] ==> first == q[0] && last == q[|q| - 1] && q[|q| - 1].next == null)
      && forall i | 0 <= i < |q| - 1 :: q[i].next == q[i + 1]
    }

    constructor ()
      ensures Valid() && q == []
    {
      first, last, q := null, null, [];
    }

    lemma Linked(callback: Callback)
      requires Valid()
      ensures callback in q ==> callback.next != null || last == callback
      ensures last == callback || first == callback ==> callback in q
    {
      if callback in q {
        var i :| 0 <= i < |q| && q[i] == callback;
        assert i < |q| - 1 ==> q[i].next == q[i + 1];
      }
    }

    /** Append a callback that is in no list. */
    method Push(callback: Callback)
      requires Valid() && callback !in q && callback.next == null
      modifies this, (set c | c in q)`next
      ensures Valid() && q == Append(old(q), callback) && callback.next == null
    {
      if last != null {
        last.next := callback;
      } else {
        first := callback;
      }
      last := callback;
      q := Append(q, callback);
    }

    /** Take the first callback off the list. */
    method Shift() returns (callback: Callback)
      requires Valid() && first != null
      modifies this
      ensures callback == old(q)[0] && Valid() && q == DropAt(old(q), 0)
    {
      callback := first;
      first := callback.next;
      if first == null {
        last := null;
      }
      q := DropAt(q, 0);
    }

    /** Take entry k + 1 off the list, given the entry before it. */
    method UnlinkAfter(elem: Callback, callback: Callback, ghost k: int)
      requires Valid() && 0 <= k < |q| - 1 && q[k] == elem && q[k + 1] == callback
      modifies this, elem`next
      ensures Valid() && q == DropAt(old(q), k + 1)
    {
      if last == callback {
        last := elem;
        elem.next := null;
      } else {
        assert k + 1 < |q| - 1;
        elem.next := callback.next;
      }
      q := DropAt(q, k + 1);
    }

    /** The entry that comes before the callback. */
    method Before(callback: Callback) returns (elem: Callback?, ghost k: int)
      requires Valid()
      ensures elem == null ==> forall i | 0 < i < |q| :: q[i] != callback
      ensures elem != null ==> 0 <= k < |q| - 1 && q[k] == elem && q[k + 1] == callback
    {
      elem, k := first, 0;
      while elem != null && elem.next != callback
        invariant 0 <= k <= |q| && elem == if k < |q| then q[k] else null
        invariant forall i | 0 < i < |q| && i <= k :: q[i] != callback
        decreases |q| - k
      {
        elem, k := elem.next, k + 1;
      }
    }

    /** One priority of the search in low_data_clear_callback, for a callback
        that is not first in the list. */
    method Remove(callback: Callback)
      requires Valid() && first != callback
      modifies this, (set c | c in q)`next
      ensures Valid() && q == Without(old(q), callback)
    {
      var elem, k := Before(callback);
      if elem != null {
        WithoutAt(q, callback, k + 1);
        UnlinkAfter(elem, callback, k);
      }
    }

    /** One priority of the worker's search: the first callback that no data
        thread runs is taken off the list. */
    method TakeRunnable(ghost all: set<Callback>) returns (taken: Callback?)
      requires Valid() && forall c | c in q :: c in all
      modifies this, (set c | c in q)`next
      ensures var k := FirstFree(old(q), old(Held(all)));
              && Valid()
              && (k == |old(q)| ==> taken == null && q == old(q))
              && (k < |old(q)| ==> taken == old(q)[k] && q == DropAt(old(q), k))
    {
      taken := null;
      ghost var held, k := Held(all), 0;
      if first == null {
        FirstFreeIs(q, held, 0);
        return;
      }
      var callback := first;
      if callback.inDataThread {
        var before := callback;
        callback, k := callback.next, 1;
        while callback != null && callback.inDataThread
          invariant 1 <= k <= |q| && before == q[k - 1] && callback == if k < |q| then q[k] else null
          invariant forall i | 0 <= i < k :: q[i].inDataThread
          decreases |q| - k
        {
          before, callback, k := callback, callback.next, k + 1;
        }
        FirstFreeIs(q, held, k);
        if callback == null { return; }
        UnlinkAfter(before, callback, k - 1);
      } else {
        FirstFreeIs(q, held, 0);
        callback := Shift();
      }
      taken := callback;
    }
  }

  /** The data queue: priority 0 (reads) and priority 1 (writes). */
  class DataThreads {
    const list0: CallbackList
    const list1: CallbackList
    /** Every callback there is. */
    ghost var all: set<Callback>

    ghost predicate Valid()
      reads this, list0, list1, all
    {
      && list0 != list1
      && (forall c | c in list0.q :: c in all && c !in list1.q)
      && (forall c | c in list1.q :: c in all)
      && list0.Valid() && list1.Valid()
      && forall c | c in all && c !in list0.q && c !in list1.q :: c.next == null
    }

    /** Valid, but for a callback that was just taken off its list. */
    ghost predicate Taking(callback: Callback)
      reads this, list0, list1, all
    {
      && list0 != list1 && callback in all && callback !in list0.q && callback !in list1.q
      && (forall c | c in list0.q :: c in all && c !in list1.q)
      && (forall c | c in list1.q :: c in all)
      && list0.Valid() && list1.Valid()
      && forall c | c in all && c !in list0.q && c !in list1.q && c != callback :: c.next == null
    }

    constructor ()
      ensures Valid() && list0.q == [] && list1.q == [] && all == {}
    {
      list0 := new CallbackList();
      list1 := new CallbackList();
      all := {};
    }

    /** The source's test for being queued: exact on a valid queue. */
    predicate IsQueued(callback: Callback)
      reads this, list0, list1, callback
    {
      callback.next != null || list0.last == callback || list1.last == callback
    }

    lemma QueuedTest(callback: Callback)
      requires Valid() && callback in all
      ensures IsQueued(callback) <==> callback in list0.q || callback in list1.q
    {
      list0.Linked(callback);
      list1.Linked(callback);
    }

    /** low_data_set_callback; `wake` tells whether the workers are woken. */
    method SetCallback(callback: Callback, priority: int) returns (wake: bool)
      requires Valid() && callback in all && 0 <= priority < 2
      modifies list0, list1, all`next
      ensures Valid()
      ensures var queued := callback in old(list0.q) || callback in old(list1.q);
              && (queued ==> list0.q == old(list0.q) && list1.q == old(list1.q) && !wake)
              && (!queued && priority == 0 ==> list0.q == Append(old(list0.q), callback) && list1.q == old(list1.q))
              && (!queued && priority == 1 ==> list0.q == old(list0.q) && list1.q == Append(old(list1.q), callback))
              && (!queued ==> wake == !callback.inDataThread)
    {
      QueuedTest(callback);
      if IsQueued(callback) {
        return false;
      }
      if priority == 0 {
        list0.Push(callback);
      } else {
        list1.Push(callback);
      }
      wake := !callback.inDataThread;
    }

    /** low_data_clear_callback, up to the wait for the flag. */
    method ClearCallback(callback: Callback)
      requires Valid() && callback in all
      modifies list0, list1, all`next
      ensures Valid()
      ensures list0.q == Without(old(list0.q), callback) && list1.q == Without(old(list1.q), callback)
      ensures callback !in list0.q && callback !in list1.q
    {
      hide Without, DropAt;
      ClearLinks(callback);
      callback.next := null;
    }

    /** The three ways of unlinking in low_data_clear_callback. */
    method ClearLinks(callback: Callback)
      requires Valid() && callback in all
      modifies list0, list1, all`next
      ensures Taking(callback)
      ensures list0.q == Without(old(list0.q), callback) && list1.q == Without(old(list1.q), callback)
    {
      QueuedTest(callback);
      list0.Linked(callback);
      list1.Linked(callback);
      if list0.first == callback {
        WithoutAt(list0.q, callback, 0);
        hide Without, DropAt;
        var c := list0.Shift();
      } else if list1.first == callback {
        WithoutAt(list1.q, callback, 0);
        hide Without, DropAt;
        var c := list1.Shift();
      } else if IsQueued(callback) {
        hide Without, DropAt;
        list0.Remove(callback);
        list1.Remove(callback);
      }
    }

    /** low_data_thread_main's search: priority 0 before priority 1. */
    method Take() returns (callback: Callback?)
      requires Valid()
      modifies list0, list1, all
      ensures Valid()
      ensures var held := old(Held(all));
              var j, k := FirstFree(old(list0.q), held), FirstFree(old(list1.q), held);
              if j < |old(list0.q)| then
                callback == old(list0.q)[j] && list0.q == DropAt(old(list0.q), j) && list1.q == old(list1.q)
              else if k < |old(list1.q)| then
                callback == old(list1.q)[k] && list0.q == old(list0.q) && list1.q == DropAt(old(list1.q), k)
              else callback == null && list0.q == old(list0.q) && list1.q == old(list1.q)
      ensures Held(all) == if callback == null then old(Held(all)) else old(Held(all)) + {callback}
      ensures callback != null ==> callback !in old(Held(all))
    {
      hide FirstFree, DropAt;
      ghost var held := Held(all);
      callback := TakeFrom(list0, list1);
      assert Held(all) == held;
      if callback == null {
        callback := TakeFrom(list1, list0);
        assert Held(all) == held;
        if callback == null { return; }
      }
      Mark(callback);
    }

    /** One priority: what is taken is still to be unlinked and flagged. */
    method TakeFrom(list: CallbackList, other: CallbackList) returns (taken: Callback?)
      requires Valid() && ((list == list0 && other == list1) || (list == list1 && other == list0))
      modifies list, all`next
      ensures other.q == old(other.q)
      ensures var k := FirstFree(old(list.q), old(Held(all)));
              && (k == |old(list.q)| ==> taken == null && list.q == old(list.q) && Valid())
              && (k < |old(list.q)| ==>
                    taken == old(list.q)[k] && list.q == DropAt(old(list.q), k) && Taking(taken)
                    && taken !in old(Held(all)))
    {
      hide FirstFree, DropAt;
      taken := list.TakeRunnable(all);
      assert list.q == old(list.q) || taken in old(list.q);
    }

    /** The taken callback is unlinked and flagged. */
    method Mark(callback: Callback)
      requires Taking(callback)
      modifies callback
      ensures Valid() && Held(all) == old(Held(all)) + {callback}
    {
      callback.next := null;
      callback.inDataThread := true;
    }
  }
}
