/**
 * Timeouts of an event_base: the min-heap, the common-timeout lists, and the events that stand
 * in the heap for those lists. Read from outside, the whole is one map from events to deadlines.
 */
module Timeouts {
  import opened MinHeap
  import opened Seqs
  import opened TimeoutView

  const MAX_COMMON_TIMEOUTS := 256

  /** A struct timeval: microseconds, and the common-timeout list its magic bits name, -1 for none. */
  datatype Timeval = Timeval(t: Time, list: int)

  datatype Wait = Forever | For(d: Time)

  class Base {
    const heap: TimeHeap
    var queues: seq<seq<Ev>>   // common_timeout_queues, the list of each
    var duration: seq<Time>    // and the duration of each
    var magic: map<Ev, int>    // the list an event's ev_timeout names, -1 if it is plain
    var timed: set<Ev>         // EVLIST_TIMEOUT
    var active: set<Ev>        // EVLIST_ACTIVE
    var late: set<Ev>          // those active with EV_TIMEOUT in ev_res
    var running: int           // the list whose proxy was taken from the active queue and has not run, or -1
    var eventTv: Time          // the last time seen

    ghost function V(): View
      reads this, heap
    {
      View(queues, heap.Elems(), timed, magic, heap.key)
    }

    /** All of Valid but that the lists are covered. */
    ghost predicate Coherent()
      reads this, heap
    {
      && heap.Valid() && heap.idx.Keys == heap.key.Keys && Good(V())
      && |duration| == |queues| <= MAX_COMMON_TIMEOUTS
      && late <= active <= magic.Keys
    }

    ghost predicate Valid()
      reads this, heap
    {
      Coherent() && AllCovered(V(), late, running) && -1 <= running < |queues|
    }

    ghost function Pending(): map<Ev, Time>
      reads this, heap
    {
      Deadlines(V())
    }

    constructor (now: Time)
      ensures Valid() && fresh(heap) && Pending() == map[] && queues == [] && magic == map[] && active == {} && running == -1
    {
      heap := new TimeHeap();
      queues, duration, magic, timed, active, late, running, eventTv := [], [], map[], {}, {}, {}, -1, now;
    }

    /** event_assign: an event is set up, with no timeout. */
    method Assign(e: Ev)
      requires Valid() && e !in magic && e.User?
      modifies this`magic, heap
      ensures Valid() && magic == old(magic)[e := -1] && V() == Known(old(V()), e) && Pending() == old(Pending())
    {
      hide TimeHeap.Valid, TimeHeap.Elems, Good, Covered;
      GoodAt(V(), e);
      KnownGood(V(), e);
      heap.Init(e);
      magic := magic[e := -1];
    }

    /** event_queue_remove for EVLIST_TIMEOUT. */
    method Unlink(e: Ev)
      requires Coherent() && e in timed
      modifies this`queues, this`timed, heap
      ensures Coherent() && V() == Unlinked(old(V()), e) && heap.key == old(heap.key)
    {
      hide TimeHeap.Valid, TimeHeap.Elems, Good;
      GoodAt(V(), e);
      UnlinkedGood(V(), e);
      if magic[e] >= 0 {
        queues := queues[magic[e] := Without(queues[magic[e]], e)];
      } else {
        var _ := heap.Erase(e);
      }
      timed := timed - {e};
    }

    /** insert_common_timeout_inorder: search from the end for the place of e. */
    method InsertInOrder(list: nat, e: Ev) returns (k: nat)
      requires list < |queues| && Sorted(queues[list], heap.key)
      modifies this`queues
      ensures PlaceIn(old(queues)[list], heap.key, e, k)
      ensures var q := old(queues)[list]; queues == old(queues)[list := q[..k] + [e] + q[k..]]
    {
      var q := queues[list];
      k := |q|;
      while k > 0 && !(When(heap.key, e) >= When(heap.key, q[k - 1]))
        invariant k <= |q| && forall a :: k <= a < |q| ==> When(heap.key, e) < When(heap.key, q[a])
      {
        k := k - 1;
      }
      queues := queues[list := q[..k] + [e] + q[k..]];
    }

    /** event_queue_insert for EVLIST_TIMEOUT. */
    method Link(e: Ev) returns (ghost k: nat)
      requires Coherent() && e in magic && e !in timed && -1 <= magic[e] < |queues|
      requires e.Proxy? ==> magic[e] == -1 && e.list < |queues|
      modifies this`queues, this`timed, heap
      ensures Coherent() && V() == Linked(old(V()), e, k) && heap.key == old(heap.key)
      ensures if 0 <= magic[e] then PlaceIn(old(queues)[magic[e]], heap.key, e, k) else k == 0
    {
      hide TimeHeap.Valid, TimeHeap.Elems, Good, Sorted, PlaceIn;
      GoodAt(V(), e);
      ghost var v := V();
      k := 0;
      if magic[e] >= 0 {
        k := InsertInOrder(magic[e], e);
      } else {
        heap.Push(e);
      }
      LinkedGood(v, e, k);
      timed := timed + {e};
    }

    /** An old timeout of e is dropped; if it has fired and its callback is still to run, that is called off. */
    method Free(e: Ev)
      requires Coherent()
      modifies this`queues, this`timed, this`active, this`late, heap
      ensures Coherent() && V() == Freed(old(V()), e)
      ensures late == old(late) - {e} && active == if e in old(late) then old(active) - {e} else old(active)
    {
      hide TimeHeap.Valid, TimeHeap.Elems, Good, Unlinked;
      if e in timed {
        Unlink(e);
      }
      if e in late {
        active, late := active - {e}, late - {e};
      }
    }

    /** The store to ev_timeout. */
    method Stamp(e: Ev, list: int, t: Time)
      requires Coherent() && e in magic && e !in timed
      modifies this`magic, heap
      ensures Coherent() && V() == Stamped(old(V()), e, list, t)
    {
      hide TimeHeap.Valid, TimeHeap.Elems, Good, Sorted;
      GoodAt(V(), e);
      StampedGood(V(), e, list, t);
      heap.SetKey(e, t);
      magic := magic[e := list];
    }

    /** The timeout part of event_add_internal, up to the insertion. */
    method Place(e: Ev, list: int, t: Time) returns (ghost k: nat)
      requires Coherent() && e in magic && -1 <= list < |queues|
      requires e.Proxy? ==> list == -1 && e.list < |queues|
      modifies this`queues, this`timed, this`magic, this`active, this`late, heap
      ensures Coherent() && Fits(old(V()), e, list, t, k) && V() == Put(old(V()), e, list, t, k)
      ensures late == old(late) - {e} && active == if e in old(late) then old(active) - {e} else old(active)
    {
      hide TimeHeap.Valid, TimeHeap.Elems, Good, PlaceIn, Linked, Freed;
      FreedGood(V(), e);
      Free(e);
      Stamp(e, list, t);
      k := Link(e);
    }

    /** common_timeout_schedule: the proxy of a list is to fire with its first event. */
    method Schedule(list: nat)
      requires Coherent() && list < |queues| && queues[list] != []
      modifies this`queues, this`timed, this`magic, this`active, this`late, heap
      ensures Coherent() && V() == Put(old(V()), Proxy(list), -1, When(old(heap.key), old(queues)[list][0]), 0)
      ensures late == old(late) - {Proxy(list)}
      ensures forall x :: x != Proxy(list) ==> (x in active <==> x in old(active))
    {
      hide TimeHeap.Valid, TimeHeap.Elems, Good, Sorted, PlaceIn, Put;
      GoodAt(V(), Proxy(list));
      ghost var k := Place(Proxy(list), -1, When(heap.key, queues[list][0]));
    }

    /** event_add: e, a user's event, is to fire at tv, or tv from now. */
    method AddTimeout(e: Ev, tv: Timeval, absolute: bool, now: Time)
      requires Valid() && e in magic && e.User? && -1 <= tv.list < |queues|
      modifies this`queues, this`timed, this`magic, this`active, this`late, heap
      ensures Valid() && Pending() == old(Pending())[e := if absolute then tv.t else now + tv.t] && magic.Keys == old(magic.Keys)
      ensures e in active <==> e in old(active) && e !in old(late)
      ensures e !in late && forall x: Ev :: x.User? && x != e ==> (x in active <==> x in old(active)) && (x in late <==> x in old(late))
    {
      hide TimeHeap.Valid, TimeHeap.Elems, Good, Sorted, PlaceIn, Put, Covered;
      ghost var v, late0 := V(), late;
      var t := if absolute then tv.t else now + tv.t;
      ghost var k := Place(e, tv.list, t);
      PutGood(v, e, tv.list, t, k);
      PutLists(v, e, tv.list, t, k);
      PutKnown(v, e, tv.list, t, k);
      forall i | 0 <= i < |v.queues| ensures i != tv.list || k > 0 ==> Covered(V(), i, late, running) {
        PutCovers(v, e, tv.list, t, k, late0, running, i);
      }
      if tv.list >= 0 && queues[tv.list][0] == e {
        ghost var w, late1 := V(), late;
        GoodAt(w, Proxy(tv.list));
        Schedule(tv.list);
        ProxyCovers(w, tv.list, late1, running);
        PutGood(w, Proxy(tv.list), -1, When(w.key, w.queues[tv.list][0]), 0);
        PutKnown(w, Proxy(tv.list), -1, When(w.key, w.queues[tv.list][0]), 0);
      }
    }

    /** event_del: e, a user's event, has no timeout and is not active any more. */
    method Del(e: Ev)
      requires Valid() && e.User?
      modifies this`queues, this`timed, this`active, this`late, heap
      ensures Valid() && Pending() == old(Pending()) - {e} && active == old(active) - {e} && late == old(late) - {e}
    {
      hide TimeHeap.Valid, TimeHeap.Elems, Good, Covered, AllCovered, Freed;
      FreedGood(V(), e);
      FreedCovers(V(), e, late, running, late - {e}, running);
      Free(e);
      active, late := active - {e}, late - {e};
      assert late == old(late) - {e} && active == old(active) - {e};
    }

    /** event_del_internal, then event_active_nolock with EV_TIMEOUT. */
    method Fire(e: Ev)
      requires Valid() && e in timed
      modifies this`queues, this`timed, this`active, this`late, heap
      ensures Valid() && V() == Freed(old(V()), e) && active == old(active) + {e} && late == old(late) + {e}
    {
      hide TimeHeap.Valid, TimeHeap.Elems, Good, Covered, AllCovered, Freed;
      GoodAt(V(), e);
      FreedCovers(V(), e, late, running, late + {e}, running);
      Free(e);
      active, late := active + {e}, late + {e};
      assert late == old(late) + {e} && active == old(active) + {e};
    }

    /** timeout_process: everything in the heap that is due has fired, in order of expiry. */
    method Process(now: Time) returns (fired: seq<Ev>)
      requires Valid()
      modifies this`queues, this`timed, this`active, this`late, heap
      ensures Valid() && Fired(old(V()), V(), fired, now) && Sorted(fired, heap.key) && queues == old(queues)
      ensures active == old(active) + Set(fired) && late == old(late) + Set(fired)
    {
      hide TimeHeap.Valid, TimeHeap.Elems, Good, Covered, AllCovered, Freed, Set, Sorted, FiredSome, Fired;
      fired := [];
      ghost var v0 := V();
      FiredNone(v0, now);
      var found, e := heap.Top();
      while found && !(When(heap.key, e) > now)
        invariant Valid() && FiredSome(v0, V(), fired, now) && Sorted(fired, heap.key) && queues == v0.queues
        invariant found <==> heap.Elems() != {}
        invariant found ==> e in heap.Elems() && forall x :: x in heap.Elems() ==> When(heap.key, e) <= When(heap.key, x)
        invariant active == old(active) + Set(fired) && late == old(late) + Set(fired)
        decreases heap.Elems()
      {
        ghost var v := V();
        HeapOnly(v, e);
        Fire(e);
        FiredMore(v0, v, fired, now, e, old(active), old(late));
        fired := fired + [e];
        found, e := heap.Top();
      }
      FiredAll(v0, V(), fired, now);
    }

    /** event_process_active_single_queue takes the proxy of a list from the active queue. */
    method StartProxy(i: nat)
      requires Valid() && running == -1 && i < |queues| && Proxy(i) in late
      modifies this`queues, this`timed, this`active, this`late, this`running, heap
      ensures Valid() && running == i && V() == Freed(old(V()), Proxy(i))
      ensures late == old(late) - {Proxy(i)} && active == old(active) - {Proxy(i)}
    {
      hide TimeHeap.Valid, TimeHeap.Elems, Good, Covered, AllCovered, Freed;
      FreedCovers(V(), Proxy(i), late, running, late - {Proxy(i)}, i);
      Free(Proxy(i));
      running := i;
    }

    /** common_timeout_callback: exactly the events of the list that are due have fired, in order. */
    method CommonCallback(now: Time) returns (ghost m: nat)
      requires Valid() && running != -1
      modifies this`queues, this`timed, this`magic, this`active, this`late, this`running, heap
      ensures Valid() && running == -1 && magic.Keys == old(magic.Keys)
      ensures var i := old(running); var q := old(queues)[i];
              m <= |q| && DueUpTo(q, old(heap.key), now, m) && Called(old(V()), i, m, V())
      ensures var fired := Set(old(queues)[old(running)][..m]);
              forall x: Ev :: x != Proxy(old(running)) ==>
                (x in active <==> x in old(active) || x in fired) && (x in late <==> x in old(late) || x in fired)
      ensures m < |old(queues)[old(running)]| ==> Proxy(old(running)) !in late
    {
      hide TimeHeap.Valid, TimeHeap.Elems, Good, Covered, Freed, Set, Sorted, Put;
      ghost var v0 := V();
      var i := running;
      m := 0;
      assert Popped(v0, i, 0) == v0 && Set(v0.queues[i][..0]) == {} by { PopNone(v0, i); }
      while queues[i] != [] && !(When(heap.key, queues[i][0]) > now)
        invariant m <= |v0.queues[i]| && Valid() && V() == Popped(v0, i, m) && running == i
        invariant forall a :: 0 <= a < m ==> When(v0.key, v0.queues[i][a]) <= now
        invariant active == old(active) + Set(v0.queues[i][..m]) && late == old(late) + Set(v0.queues[i][..m])
        decreases |v0.queues[i]| - m
      {
        PopHead(v0, i, m, old(active), old(late));
        Fire(queues[i][0]);
        m := m + 1;
      }
      GoodAt(v0, Proxy(i));
      AllLater(v0.queues[i], v0.key, now, m);
      RunDone(V(), late, i);
      running := -1;
      if queues[i] != [] {
        ghost var v, late0 := V(), late;
        Schedule(i);
        ProxyCovers(v, i, late0, -1);
        PutKnown(v, Proxy(i), -1, When(v.key, v.queues[i][0]), 0);
      }
    }

    /** timeout_next: how long the loop may sleep when nothing is active. */
    method TimeoutNext(now: Time) returns (w: Wait)
      requires Valid() && active == {} && running == -1
      ensures w.Forever? <==> timed == {}
      ensures w.For? ==> w.d >= 0 && (exists e :: e in timed && w.d == if When(heap.key, e) <= now then 0 else When(heap.key, e) - now)
      ensures w.For? ==> forall e :: e in timed ==> w.d == 0 || now + w.d <= When(heap.key, e)
    {
      var found, top := heap.Top();
      ghost var v := V();
      forall e | e in timed ensures found && When(heap.key, top) <= When(heap.key, e) {
        assert Placed(v, e);
        if magic[e] >= 0 {
          assert Covered(v, magic[e], late, running);
        }
      }
      if !found {
        return Forever;
      }
      if When(heap.key, top) <= now {
        return For(0);
      }
      w := For(When(heap.key, top) - now);
    }

    /** event_base_init_common_timeout: the list for a duration, made if there is none. */
    method InitCommon(d: Time) returns (r: int)
      requires Valid()
      modifies this`queues, this`duration, this`magic, heap
      ensures Valid() && Pending() == old(Pending())
      ensures forall e: Ev :: e.User? ==> (e in magic <==> e in old(magic))
      ensures r == -1 <==> d !in old(duration) && |old(queues)| == MAX_COMMON_TIMEOUTS
      ensures r != -1 ==> 0 <= r < |duration| == |queues| && duration[r] == d
      ensures r == |old(duration)| <==> d !in old(duration) && |old(queues)| < MAX_COMMON_TIMEOUTS
      ensures duration == if r == |old(duration)| then old(duration) + [d] else old(duration)
    {
      hide TimeHeap.Valid, TimeHeap.Elems, Good, Covered, AllCovered;
      r := 0;
      while r < |duration|
        invariant 0 <= r <= |duration| && forall j :: 0 <= j < r ==> duration[j] != d
      {
        if duration[r] == d {
          return;
        }
        r := r + 1;
      }
      if |queues| == MAX_COMMON_TIMEOUTS {
        return -1;
      }
      GoodAt(V(), Proxy(r));
      NewList(V(), late, running);
      heap.Init(Proxy(r));
      magic := magic[Proxy(r) := -1];
      queues, duration := queues + [[]], duration + [d];
    }

    /**
     * One turn of the loop at time now, as far as timeouts go: timeout_process, then the callbacks of the proxies
     * it made active. What was due has fired, and nothing else; nothing due is left.
     */
    method Turn(now: Time)
      requires Valid() && running == -1
      modifies this, heap
      ensures Valid() && running == -1 && magic.Keys == old(magic.Keys) && duration == old(duration) && eventTv == old(eventTv)
      ensures Pending() == map e | e in old(Pending()) && old(Pending())[e] > now :: old(Pending())[e]
      ensures forall e: Ev :: e.User? ==> (e in late <==> e in old(late) || (e in old(Pending()) && old(Pending())[e] <= now))
    {
      hide TimeHeap.Valid, TimeHeap.Elems, Good, Covered, AllCovered, Freed, Set, Sorted, Put, Fired, Swept, Called, DueUpTo, Deadlines;
      ghost var v0, late0 := V(), late;
      var fired := Process(now);
      SweepHeap(v0, late0, V(), fired, now);
      var i := 0;
      while i < |queues|
        invariant 0 <= i <= |queues| == |v0.queues| && Valid() && running == -1 && Swept(v0, late0, V(), late, now, i)
        invariant magic.Keys == old(magic.Keys) && duration == old(duration) && eventTv == old(eventTv)
      {
        ghost var v, l := V(), late;
        if Proxy(i) in late {
          FreedGood(v, Proxy(i));
          StartProxy(i);
          ghost var m := CommonCallback(now);
          CalledIs(Freed(v, Proxy(i)), i, m, V(), now);
          SweepList(v0, late0, v, l, now, i, m, V(), late);
        } else {
          SweepSkip(v0, late0, v, late, now, i);
        }
        i := i + 1;
      }
      SweepAll(v0, late0, V(), late, now);
    }

    /** timeout_correct, without a monotonic clock: a clock set back takes every deadline with it. */
    method TimeoutCorrect(tv: Time)
      requires Valid()
      modifies this`eventTv, heap
      ensures Valid() && eventTv == tv
      ensures var back := if tv < old(eventTv) then old(eventTv) - tv else 0;
              Pending() == map e | e in old(Pending()) :: old(Pending())[e] - back
    {
      hide TimeHeap.Valid, TimeHeap.Elems, Good, Covered, AllCovered, Advanced, Deadlines;
      if tv >= eventTv {
        eventTv := tv;
        return;
      }
      var off := eventTv - tv;
      AdvancedGood(V(), off, late, running);
      SubtractEverywhere(off);
      eventTv := tv;
    }

    /** Its loops, over the heap and over every list. */
    method SubtractEverywhere(off: Time)
      requires Coherent()
      modifies heap
      ensures V() == Advanced(old(V()), off) && heap.Valid() && heap.idx.Keys == heap.key.Keys
    {
      hide TimeHeap.Valid, TimeHeap.Elems, Good, Earlier, Below;
      ghost var v := V();
      BelowAll(v);
      heap.SubtractAll(off);
      var i := 0;
      while i < |queues|
        invariant 0 <= i <= |queues| && heap.Valid() && heap.Elems() == v.heap && heap.idx.Keys == heap.key.Keys
        invariant heap.key == Earlier(v.key, Below(v, i), off)
      {
        SubtractList(i, off, v);
        i := i + 1;
      }
    }

    method SubtractList(i: nat, off: Time, ghost v: View)
      requires i < |queues| == |v.queues| && queues[i] == v.queues[i] && Good(v)
      requires heap.Valid() && heap.Elems() == v.heap && heap.idx.Keys == heap.key.Keys
      requires heap.key == Earlier(v.key, Below(v, i), off)
      modifies heap
      ensures heap.Valid() && heap.Elems() == v.heap && heap.idx.Keys == heap.key.Keys
      ensures heap.key == Earlier(v.key, Below(v, i + 1), off)
    {
      hide TimeHeap.Valid, TimeHeap.Elems, Good, Sorted, Earlier, Below, Set;
      var q := queues[i];
      BelowNext(v, i);
      var j := 0;
      while j < |q|
        invariant 0 <= j <= |q| && heap.Valid() && heap.Elems() == v.heap && heap.idx.Keys == heap.key.Keys
        invariant heap.key == Earlier(v.key, Below(v, i) + Set(q[..j]), off)
      {
        EarlierOne(v, i, j, off);
        heap.SetKey(q[j], heap.key[q[j]] - off);
        j := j + 1;
      }
    }
  }
}
