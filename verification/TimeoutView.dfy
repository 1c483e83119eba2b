/**
 * Where the events with a timeout are, and what each change does to that: the heap, the common-timeout lists,
 * and the events (proxies) that stand in the heap for those lists.
 */
module TimeoutView {
  import opened MinHeap
  import opened Seqs

  ghost predicate Sorted(q: seq<Ev>, key: map<Ev, Time>)
  {
    forall a, b :: 0 <= a < b < |q| ==> When(key, q[a]) <= When(key, q[b])
  }

  /** Where every event with a timeout is, and when it expires. */
  datatype View = View(
    queues: seq<seq<Ev>>,   // the common-timeout lists
    heap: set<Ev>,
    timed: set<Ev>,         // events with EVLIST_TIMEOUT
    magic: map<Ev, int>,    // the list an event's ev_timeout names, -1 if it is plain
    key: map<Ev, Time>)     // ev_timeout

  /** Every event in list i names it; none is there twice; they lie in order of expiry. */
  ghost predicate ListOk(v: View, i: nat)
    requires i < |v.queues|
  {
    && NoDup(v.queues[i]) && Sorted(v.queues[i], v.key) && Proxy(i) in v.magic
    && forall e :: e in v.queues[i] ==> e.User? && e in v.timed && e in v.magic && v.magic[e] == i
  }

  /** An event with EVLIST_TIMEOUT set is where its ev_timeout says. */
  ghost predicate Placed(v: View, e: Ev)
  {
    && e in v.magic && -1 <= v.magic[e] < |v.queues|
    && (if v.magic[e] == -1 then e in v.heap else e in v.queues[v.magic[e]])
    && (e.Proxy? ==> v.magic[e] == -1 && e.list < |v.queues|)
  }

  ghost predicate Good(v: View)
  {
    && v.key.Keys == v.magic.Keys
    && (forall i :: 0 <= i < |v.queues| ==> ListOk(v, i))
    && (forall e :: e in v.timed ==> Placed(v, e))
    && (forall e :: e in v.heap ==> e in v.timed && e in v.magic && v.magic[e] == -1)
    && (forall e: Ev :: e in v.magic && e.Proxy? ==> e.list < |v.queues|)
  }

  lemma GoodAt(v: View, e: Ev)
    requires Good(v)
    ensures v.key.Keys == v.magic.Keys && (if e in v.timed then Placed(v, e) else e !in v.heap)
    ensures forall i :: 0 <= i < |v.queues| ==> Sorted(v.queues[i], v.key) && Proxy(i) in v.magic
  {
    forall i | 0 <= i < |v.queues| ensures Sorted(v.queues[i], v.key) && Proxy(i) in v.magic { assert ListOk(v, i); }
  }

  /** List i will be looked at in time: its proxy is in the heap no later than any of it, or has already fired. */
  ghost predicate Covered(v: View, i: nat, late: set<Ev>, running: int)
    requires i < |v.queues|
  {
    || v.queues[i] == [] || running == i || Proxy(i) in late
    || (Proxy(i) in v.heap && forall e :: e in v.queues[i] ==> When(v.key, Proxy(i)) <= When(v.key, e))
  }

  ghost predicate AllCovered(v: View, late: set<Ev>, running: int)
  {
    forall i :: 0 <= i < |v.queues| ==> Covered(v, i, late, running)
  }

  /** What a user sees: the deadline of each of their events that has one. */
  ghost function Deadlines(v: View): map<Ev, Time>
  {
    map e | e in v.timed && e.User? :: When(v.key, e)
  }

  lemma {:induction false} WithoutKeeps(q: seq<Ev>, e: Ev, key: map<Ev, Time>)
    requires NoDup(q) && Sorted(q, key)
    ensures NoDup(Without(q, e)) && Sorted(Without(q, e), key)
  {
    if q != [] {
      var w := Without(q[1..], e);
      WithoutKeeps(q[1..], e, key);
      forall b | 0 <= b < |w| ensures w[b] != q[0] && When(key, q[0]) <= When(key, w[b]) {
        assert w[b] in q[1..];
      }
    }
  }

  /** Storing the time of an event does not disturb a list it is not in. */
  lemma SortedOther(q: seq<Ev>, key: map<Ev, Time>, e: Ev, t: Time)
    requires Sorted(q, key) && e !in q
    ensures Sorted(q, key[e := t])
  {
    forall a, b | 0 <= a < b < |q| ensures When(key[e := t], q[a]) <= When(key[e := t], q[b]) {
      assert q[a] in q && q[b] in q;
    }
  }

  lemma SortedEarlier(q: seq<Ev>, key: map<Ev, Time>, s: set<Ev>, off: Time)
    requires Sorted(q, key) && forall e :: e in q ==> e in s && e in key
    ensures Sorted(q, Earlier(key, s, off))
  {
    forall a, b | 0 <= a < b < |q| ensures When(Earlier(key, s, off), q[a]) <= When(Earlier(key, s, off), q[b]) {
      assert q[a] in q && q[b] in q;
    }
  }

  /** A new event, without a timeout. */
  ghost function Known(v: View, e: Ev): View
  {
    v.(magic := v.magic[e := -1], key := v.key[e := 0])
  }

  lemma KnownGood(v: View, e: Ev)
    requires Good(v) && e !in v.magic && e.User?
    ensures Good(Known(v, e)) && e !in v.timed && e !in v.heap && Deadlines(Known(v, e)) == Deadlines(v)
    ensures forall i, late, running :: 0 <= i < |v.queues| && Covered(v, i, late, running) ==> Covered(Known(v, e), i, late, running)
  {
    var w := Known(v, e);
    forall i | 0 <= i < |w.queues| ensures ListOk(w, i) && e !in w.queues[i] {
      assert ListOk(v, i);
      SortedOther(v.queues[i], v.key, e, 0);
    }
    forall x | x in w.timed ensures Placed(w, x) && x != e { assert Placed(v, x); }
  }

  /** event_queue_remove for EVLIST_TIMEOUT. */
  ghost function Unlinked(v: View, e: Ev): View
  {
    if e !in v.magic || !(0 <= v.magic[e] < |v.queues|) then v.(timed := v.timed - {e}, heap := v.heap - {e})
    else v.(timed := v.timed - {e}, queues := v.queues[v.magic[e] := Without(v.queues[v.magic[e]], e)])
  }

  lemma UnlinkedGood(v: View, e: Ev)
    requires Good(v) && e in v.timed
    ensures Placed(v, e) && Good(Unlinked(v, e)) && Deadlines(Unlinked(v, e)) == Deadlines(v) - {e}
    ensures e !in Unlinked(v, e).heap
  {
    assert Placed(v, e);
    var w := Unlinked(v, e);
    forall i | 0 <= i < |w.queues| ensures ListOk(w, i) {
      assert ListOk(v, i);
      WithoutKeeps(v.queues[i], e, v.key);
    }
    forall x | x in w.timed ensures Placed(w, x) {
      assert Placed(v, x);
      if v.magic[x] >= 0 { assert ListOk(v, v.magic[x]); }
    }
  }

  /** A store to ev_timeout of an event without a timeout. */
  ghost function Stamped(v: View, e: Ev, list: int, t: Time): View
  {
    v.(magic := v.magic[e := list], key := v.key[e := t])
  }

  lemma StampedGood(v: View, e: Ev, list: int, t: Time)
    requires Good(v) && e in v.magic && e !in v.timed
    ensures Good(Stamped(v, e, list, t)) && Deadlines(Stamped(v, e, list, t)) == Deadlines(v) && e !in v.heap
    ensures forall i :: 0 <= i < |v.queues| ==> e !in v.queues[i]
  {
    var w := Stamped(v, e, list, t);
    forall i | 0 <= i < |w.queues| ensures ListOk(w, i) && e !in v.queues[i] {
      assert ListOk(v, i);
      SortedOther(v.queues[i], v.key, e, t);
    }
    forall x | x in w.timed ensures Placed(w, x) { assert Placed(v, x); }
  }

  /** event_queue_insert for EVLIST_TIMEOUT: into the heap, or into its list at k. */
  ghost function Linked(v: View, e: Ev, k: nat): View
  {
    if e !in v.magic || !(0 <= v.magic[e] < |v.queues| && k <= |v.queues[v.magic[e]]|) then v.(timed := v.timed + {e}, heap := v.heap + {e})
    else
      var q := v.queues[v.magic[e]];
      v.(timed := v.timed + {e}, queues := v.queues[v.magic[e] := q[..k] + [e] + q[k..]])
  }

  /** The place of e in q: after everything that expires no later, before everything that expires later. */
  ghost predicate PlaceIn(q: seq<Ev>, key: map<Ev, Time>, e: Ev, k: nat)
  {
    && k <= |q|
    && (forall a :: 0 <= a < k ==> When(key, q[a]) <= When(key, e))
    && (forall a :: k <= a < |q| ==> When(key, e) < When(key, q[a]))
  }

  lemma LinkedGood(v: View, e: Ev, k: nat)
    requires Good(v) && e in v.magic && e !in v.timed && -1 <= v.magic[e] < |v.queues|
    requires e.Proxy? ==> v.magic[e] == -1 && e.list < |v.queues|
    requires 0 <= v.magic[e] ==> PlaceIn(v.queues[v.magic[e]], v.key, e, k)
    ensures Good(Linked(v, e, k))
    ensures Deadlines(Linked(v, e, k)) == if e.User? then Deadlines(v)[e := When(v.key, e)] else Deadlines(v)
  {
    var w := Linked(v, e, k);
    if v.magic[e] >= 0 {
      assert ListOk(v, v.magic[e]);
      InsertKeeps(v.queues[v.magic[e]], v.key, e, k);
    }
    forall i | 0 <= i < |w.queues| ensures ListOk(w, i) {
      assert ListOk(v, i);
    }
    forall x | x in w.timed ensures Placed(w, x) {
      if x != e { assert Placed(v, x); }
    }
  }

  lemma InsertKeeps(q: seq<Ev>, key: map<Ev, Time>, e: Ev, k: nat)
    requires NoDup(q) && Sorted(q, key) && e !in q && PlaceIn(q, key, e, k)
    ensures var r := q[..k] + [e] + q[k..];
            NoDup(r) && Sorted(r, key) && forall x :: x in r <==> x in q || x == e
  {
    var r := q[..k] + [e] + q[k..];
    forall a, b | 0 <= a < b < |r| ensures r[a] != r[b] && When(key, r[a]) <= When(key, r[b]) {
      InsertPair(q, key, e, k, a, b);
    }
    InsertMembers(q, e, k);
  }

  lemma InsertPair(q: seq<Ev>, key: map<Ev, Time>, e: Ev, k: nat, a: nat, b: nat)
    requires NoDup(q) && Sorted(q, key) && e !in q && PlaceIn(q, key, e, k) && a < b <= |q|
    ensures var r := q[..k] + [e] + q[k..]; r[a] != r[b] && When(key, r[a]) <= When(key, r[b])
  {
    hide When;
    if k < b { assert q[b - 1] in q; }
    if a < k { assert q[a] in q; }
  }

  lemma InsertMembers(q: seq<Ev>, e: Ev, k: nat)
    requires k <= |q|
    ensures forall x :: x in q[..k] + [e] + q[k..] <==> x in q || x == e
  {
    assert q == q[..k] + q[k..];
  }

  /** e without its timeout, if it had one. */
  ghost function Freed(v: View, e: Ev): View
  {
    if e in v.timed then Unlinked(v, e) else v
  }

  lemma FreedGood(v: View, e: Ev)
    requires Good(v)
    ensures var u := Freed(v, e);
            && Good(u) && u.timed == v.timed - {e} && u.magic == v.magic && u.key == v.key && |u.queues| == |v.queues|
            && Deadlines(u) == Deadlines(v) - {e} && u.heap == v.heap - {e}
            && forall i, x :: 0 <= i < |v.queues| ==> (x in u.queues[i] <==> x in v.queues[i] && x != e)
  {
    forall i | 0 <= i < |v.queues| ensures NoDup(v.queues[i]) && (e in v.queues[i] ==> e in v.timed && v.magic[e] == i) {
      assert ListOk(v, i);
    }
    if e in v.timed { UnlinkedGood(v, e); }
  }

  /** Taking e out uncovers no list, unless e is the proxy of one and has not fired. */
  lemma FreedCovers(v: View, e: Ev, late: set<Ev>, running: int, late': set<Ev>, running': int)
    requires Good(v) && AllCovered(v, late, running)
    requires late - {e} <= late' && (running == running' || running == -1)
    requires e.Proxy? ==> e in late' || running' == e.list
    ensures AllCovered(Freed(v, e), late', running')
  {
    FreedGood(v, e);
    var u := Freed(v, e);
    forall i | 0 <= i < |u.queues| ensures Covered(u, i, late', running') {
      assert Covered(v, i, late, running);
      if u.queues[i] != [] { assert u.queues[i][0] in u.queues[i]; }
    }
  }

  /** Taking out an event of the heap touches no list. */
  lemma HeapOnly(v: View, e: Ev)
    requires Good(v) && e in v.heap
    ensures e in v.timed && Freed(v, e) == v.(timed := v.timed - {e}, heap := v.heap - {e})
  {
  }

  /** e gets a new deadline, wherever it was before. */
  ghost function Put(v: View, e: Ev, list: int, t: Time, k: nat): View
  {
    Linked(Stamped(Freed(v, e), e, list, t), e, k)
  }

  /** k is the place of e in its list. */
  ghost predicate Fits(v: View, e: Ev, list: int, t: Time, k: nat)
  {
    && e in v.magic && -1 <= list < |Freed(v, e).queues| && (e.Proxy? ==> list == -1 && e.list < |v.queues|)
    && (if list >= 0 then PlaceIn(Freed(v, e).queues[list], v.key[e := t], e, k) else k == 0)
  }

  lemma PutKnown(v: View, e: Ev, list: int, t: Time, k: nat)
    requires e in v.magic
    ensures Put(v, e, list, t, k).magic.Keys == v.magic.Keys
  {
  }

  lemma PutGood(v: View, e: Ev, list: int, t: Time, k: nat)
    requires Good(v) && Fits(v, e, list, t, k)
    ensures Good(Put(v, e, list, t, k))
    ensures Deadlines(Put(v, e, list, t, k)) == if e.User? then Deadlines(v)[e := t] else Deadlines(v)
  {
    var u := Freed(v, e);
    FreedGood(v, e);
    hide Good, Freed, PlaceIn, Linked, Deadlines;
    StampedGood(u, e, list, t);
    LinkedGood(Stamped(u, e, list, t), e, k);
    DeadlinesPut(v, e, t);
  }

  lemma DeadlinesPut(v: View, e: Ev, t: Time)
    ensures (Deadlines(v) - {e})[e := t] == Deadlines(v)[e := t]
    ensures e.Proxy? ==> Deadlines(v) - {e} == Deadlines(v)
  {
  }

  /** What Put does to each list. */
  lemma PutLists(v: View, e: Ev, list: int, t: Time, k: nat)
    requires Good(v) && Fits(v, e, list, t, k)
    ensures var w := Put(v, e, list, t, k);
            && |w.queues| == |v.queues| && w.key == v.key[e := t] && w.magic == v.magic[e := list]
            && w.heap == v.heap - {e} + (if list < 0 then {e} else {}) && w.timed == v.timed + {e}
            && forall i, x :: 0 <= i < |v.queues| ==>
                 (x in w.queues[i] <==> (x == e && i == list) || (x != e && x in v.queues[i]))
    ensures list >= 0 ==> var q := Freed(v, e).queues[list];
                          k <= |q| && Put(v, e, list, t, k).queues[list] == q[..k] + [e] + q[k..]
  {
    FreedGood(v, e);
    hide Good, Freed;
    if list >= 0 { InsertMembers(Freed(v, e).queues[list], e, k); }
  }

  /** A user's event that does not become the first of its list uncovers no list. */
  lemma PutCovers(v: View, e: Ev, list: int, t: Time, k: nat, late: set<Ev>, running: int, i: nat)
    requires Good(v) && e.User? && Fits(v, e, list, t, k) && i < |v.queues| && Covered(v, i, late, running)
    ensures var w := Put(v, e, list, t, k); i < |w.queues| && (i != list || k > 0 ==> Covered(w, i, late - {e}, running))
  {
    PutLists(v, e, list, t, k);
    FreedGood(v, e);
    if i == list && k > 0 {
      var h := Freed(v, e).queues[list][0];
      assert h in Freed(v, e).queues[list] && h in v.queues[i] && h != e;
    }
    hide Good, Freed, Put;
  }

  /** A proxy put at the time of the first event of its list covers it, and uncovers no other. */
  lemma ProxyCovers(v: View, list: nat, late: set<Ev>, running: int)
    requires Good(v) && list < |v.queues| && v.queues[list] != [] && Proxy(list) in v.magic
    ensures Fits(v, Proxy(list), -1, When(v.key, v.queues[list][0]), 0)
    ensures var w := Put(v, Proxy(list), -1, When(v.key, v.queues[list][0]), 0);
            && w.queues == v.queues
            && forall i, s :: 0 <= i < |w.queues| && late - {Proxy(list)} <= s && (i == list || Covered(v, i, late, running))
                 ==> Covered(w, i, s, running)
  {
    var w := Put(v, Proxy(list), -1, When(v.key, v.queues[list][0]), 0);
    if Proxy(list) in v.timed { assert Placed(v, Proxy(list)); }
    forall i | 0 <= i < |v.queues| ensures forall x :: x in v.queues[i] ==> x.User? { assert ListOk(v, i); }
    assert ListOk(v, list);
    forall x | x in v.queues[list] ensures When(w.key, Proxy(list)) <= When(w.key, x) {
      var a :| 0 <= a < |v.queues[list]| && v.queues[list][a] == x;
    }
  }

  ghost function Set(q: seq<Ev>): set<Ev>
  {
    set e | e in q
  }

  /** The events fired have left the heap; each of them was due, and expired no later than what is left. */
  ghost predicate FiredSome(v0: View, v: View, fired: seq<Ev>, now: Time)
  {
    && v == v0.(heap := v0.heap - Set(fired), timed := v0.timed - Set(fired))
    && (forall e :: e in fired ==> e in v0.heap && When(v.key, e) <= now)
    && (forall e, x :: e in fired && x in v.heap ==> When(v.key, e) <= When(v.key, x))
  }

  /** Exactly what was due has left the heap; the lists are as they were. */
  ghost predicate Fired(v0: View, v: View, fired: seq<Ev>, now: Time)
  {
    && v == v0.(heap := v0.heap - Set(fired), timed := v0.timed - Set(fired))
    && forall e :: e in fired <==> e in v0.heap && When(v0.key, e) <= now
  }

  lemma FiredNone(v: View, now: Time)
    ensures FiredSome(v, v, [], now) && Sorted([], v.key)
    ensures Set([]) == {}
  {
    assert v.heap - Set([]) == v.heap && v.timed - Set([]) == v.timed;
  }

  lemma FiredMore(v0: View, v: View, fired: seq<Ev>, now: Time, e: Ev, a: set<Ev>, l: set<Ev>)
    requires FiredSome(v0, v, fired, now) && Sorted(fired, v.key) && e in v.heap && When(v.key, e) <= now
    requires forall x :: x in v.heap ==> When(v.key, e) <= When(v.key, x)
    ensures FiredSome(v0, v.(timed := v.timed - {e}, heap := v.heap - {e}), fired + [e], now) && Sorted(fired + [e], v.key)
    ensures a + Set(fired) + {e} == a + Set(fired + [e]) && l + Set(fired) + {e} == l + Set(fired + [e])
  {
    var w := v.(timed := v.timed - {e}, heap := v.heap - {e});
    assert Set(fired + [e]) == Set(fired) + {e};
    assert w.heap == v0.heap - Set(fired + [e]) && w.timed == v0.timed - Set(fired + [e]);
    forall x | 0 <= x < |fired| ensures When(v.key, fired[x]) <= When(v.key, e) { assert fired[x] in fired; }
  }

  lemma FiredAll(v0: View, v: View, fired: seq<Ev>, now: Time)
    requires FiredSome(v0, v, fired, now) && forall x :: x in v.heap ==> When(v.key, x) > now
    ensures Fired(v0, v, fired, now)
  {
    forall x | x in v0.heap && x !in fired ensures When(v0.key, x) > now { assert x in v.heap; }
  }

  /** The first m events of a list have fired. */
  ghost function Popped(v: View, i: nat, m: nat): View
    requires i < |v.queues| && m <= |v.queues[i]|
  {
    v.(queues := v.queues[i := v.queues[i][m..]], timed := v.timed - Set(v.queues[i][..m]))
  }

  lemma PopHead(v0: View, i: nat, m: nat, a: set<Ev>, l: set<Ev>)
    requires Good(v0) && i < |v0.queues| && m < |v0.queues[i]|
    ensures var e, v := v0.queues[i][m], Popped(v0, i, m);
            && e in v.timed && e.User? && Freed(v, e) == Popped(v0, i, m + 1)
            && a + Set(v0.queues[i][..m]) + {e} == a + Set(v0.queues[i][..m + 1])
            && l + Set(v0.queues[i][..m]) + {e} == l + Set(v0.queues[i][..m + 1])
  {
    var q := v0.queues[i];
    var e, v := q[m], Popped(v0, i, m);
    assert ListOk(v0, i) && e in q;
    assert q[..m + 1] == q[..m] + [e];
    assert Set(q[..m + 1]) == Set(q[..m]) + {e};
    assert q[m..] == [e] + q[m + 1..];
    WithoutIs(q[m + 1..], e);
    assert v0.timed - Set(q[..m]) - {e} == v0.timed - Set(q[..m + 1]);
  }

  lemma PopNone(v: View, i: nat)
    requires i < |v.queues|
    ensures Popped(v, i, 0) == v && Set(v.queues[i][..0]) == {}
  {
    assert v.queues[i][0..] == v.queues[i];
    assert v.queues[i := v.queues[i]] == v.queues;
    assert v.timed - Set(v.queues[i][..0]) == v.timed;
  }

  lemma RunDone(v: View, late: set<Ev>, running: nat)
    requires AllCovered(v, late, running)
    ensures forall i :: 0 <= i < |v.queues| && (i != running || v.queues[i] == []) ==> Covered(v, i, late, -1)
  {
    forall i | 0 <= i < |v.queues| && (i != running || v.queues[i] == []) ensures Covered(v, i, late, -1) {
      assert Covered(v, i, late, running);
    }
  }

  /** How many events of a list are due. */
  ghost predicate DueUpTo(q: seq<Ev>, key: map<Ev, Time>, now: Time, m: nat)
  {
    m <= |q| && (forall a :: 0 <= a < m ==> When(key, q[a]) <= now) && (forall a :: m <= a < |q| ==> When(key, q[a]) > now)
  }

  lemma AllLater(q: seq<Ev>, key: map<Ev, Time>, now: Time, m: nat)
    requires Sorted(q, key) && m <= |q| && (forall a :: 0 <= a < m ==> When(key, q[a]) <= now)
    requires m < |q| ==> When(key, q[m]) > now
    ensures DueUpTo(q, key, now, m)
  {
  }

  /** Events of list i - 1 and below, and of the heap, that are due. */
  ghost predicate Gone(v0: View, now: Time, i: int, e: Ev)
  {
    e in v0.timed && e in v0.magic && v0.magic[e] < i && When(v0.key, e) <= now
  }

  /** The state of a pass that has dealt with the heap and the lists below i. */
  ghost predicate Swept(v0: View, late0: set<Ev>, v: View, late: set<Ev>, now: Time, i: int)
  {
    && |v.queues| == |v0.queues|
    && (forall e: Ev :: e.User? ==> (e in v.timed <==> e in v0.timed && !Gone(v0, now, i, e)))
    && (forall e: Ev :: e.User? ==> (e in late <==> e in late0 || Gone(v0, now, i, e)))
    && (forall e: Ev :: e.User? && e in v0.timed ==> When(v.key, e) == When(v0.key, e))
    && (forall e: Ev :: e.User? && e in v0.magic ==> e in v.magic && v.magic[e] == v0.magic[e])
    && (forall e :: e in v.heap ==> When(v.key, e) > now)
    && (forall j :: 0 <= j < i && j < |v.queues| ==> Proxy(j) !in late || v.queues[j] == [])
  }

  lemma SweepHeap(v0: View, late0: set<Ev>, v: View, fired: seq<Ev>, now: Time)
    requires Good(v0) && Fired(v0, v, fired, now)
    ensures Swept(v0, late0, v, late0 + Set(fired), now, 0)
  {
    forall e | e in v0.timed ensures v0.magic[e] < 0 <==> e in v0.heap { assert Placed(v0, e); }
  }

  /** A list whose proxy has not fired has nothing that is due. */
  lemma SweepSkip(v0: View, late0: set<Ev>, v: View, late: set<Ev>, now: Time, i: nat)
    requires Good(v0) && Good(v) && Swept(v0, late0, v, late, now, i) && i < |v.queues|
    requires AllCovered(v, late, -1) && Proxy(i) !in late
    ensures Swept(v0, late0, v, late, now, i + 1)
  {
    assert Covered(v, i, late, -1);
    forall e: Ev | e.User? && e in v0.timed && v0.magic[e] == i ensures !Gone(v0, now, i + 1, e) {
      assert Placed(v0, e) && !Gone(v0, now, i, e) && Placed(v, e);
    }
    assert forall e: Ev :: Gone(v0, now, i + 1, e) <==> Gone(v0, now, i, e) || (e in v0.magic && v0.magic[e] == i && Gone(v0, now, i + 1, e));
  }

  /** The callback of list i has fired what is due of it, and moved its proxy to what is left. */
  lemma SweepList(v0: View, late0: set<Ev>, v: View, late: set<Ev>, now: Time, i: nat, m: nat, w: View, late': set<Ev>)
    requires Good(v0) && Good(v) && Swept(v0, late0, v, late, now, i) && i < |v.queues|
    requires var u := Freed(v, Proxy(i));
             && i < |u.queues| && m <= |u.queues[i]| && DueUpTo(u.queues[i], u.key, now, m) && Called(u, i, m, w)
             && forall x: Ev :: x != Proxy(i) ==> (x in late' <==> x in late || x in Set(u.queues[i][..m]))
    requires i < |w.queues| && (w.queues[i] != [] ==> Proxy(i) !in late')
    ensures Swept(v0, late0, w, late', now, i + 1)
  {
    hide Freed, Called, DueUpTo, Put, Popped, Good, When;
    FreedGood(v, Proxy(i));
    var u := Freed(v, Proxy(i));
    var q := u.queues[i];
    UsersOnly(u, i);
    CalledIs(u, i, m, w, now);
    forall e: Ev | e.User? ensures e in q[..m] <==> Gone(v0, now, i + 1, e) && !Gone(v0, now, i, e) {
      SweptInList(v0, late0, v, late, now, i, e);
      SplitAt(q, u.key, now, m, e);
    }
    forall j | 0 <= j < i + 1 && j < |w.queues| ensures Proxy(j) !in late' || w.queues[j] == [] {
      assert forall x :: x in q[..m] ==> x in q;
      if j < i {
        assert Proxy(j) !in late || v.queues[j] == [];
        if w.queues[j] != [] { assert w.queues[j][0] in v.queues[j]; }
      }
    }
  }

  lemma UsersOnly(v: View, i: nat)
    requires Good(v) && i < |v.queues|
    ensures forall e :: e in v.queues[i] ==> e.User?
  {
    assert ListOk(v, i);
  }

  lemma SweptInList(v0: View, late0: set<Ev>, v: View, late: set<Ev>, now: Time, i: nat, e: Ev)
    requires Good(v0) && Good(v) && Swept(v0, late0, v, late, now, i) && i < |v.queues| && e.User?
    ensures e in v.queues[i] <==> e in v0.timed && e in v0.magic && v0.magic[e] == i
    ensures e in v.queues[i] ==> When(v.key, e) == When(v0.key, e)
  {
    assert ListOk(v, i);
    if e in v0.timed {
      assert Placed(v0, e);
      if e in v.timed { assert Placed(v, e); }
    }
  }

  lemma SplitAt(q: seq<Ev>, key: map<Ev, Time>, now: Time, m: nat, e: Ev)
    requires DueUpTo(q, key, now, m)
    ensures e in q[..m] <==> e in q && When(key, e) <= now
  {
    if e in q {
      var a :| 0 <= a < |q| && q[a] == e;
      if a < m { assert q[..m][a] == e; }
    }
  }

  /** The state common_timeout_callback leaves when m events of list i were due. */
  ghost predicate Called(u: View, i: nat, m: nat, w: View)
    requires i < |u.queues| && m <= |u.queues[i]|
  {
    var v := Popped(u, i, m);
    w == if v.queues[i] == [] then v else Put(v, Proxy(i), -1, When(v.key, v.queues[i][0]), 0)
  }

  lemma CalledIs(u: View, i: nat, m: nat, w: View, now: Time)
    requires Good(u) && i < |u.queues| && DueUpTo(u.queues[i], u.key, now, m) && Called(u, i, m, w)
    ensures |w.queues| == |u.queues| && w.queues[i] == u.queues[i][m..]
    ensures forall j :: 0 <= j < |w.queues| && j != i ==> w.queues[j] == u.queues[j]
    ensures forall e: Ev :: e.User? ==> (e in w.timed <==> e in u.timed && e !in u.queues[i][..m])
    ensures forall e: Ev :: e.User? ==> When(w.key, e) == When(u.key, e)
    ensures forall e: Ev :: e.User? && e in u.magic ==> e in w.magic && w.magic[e] == u.magic[e]
    ensures forall e :: e in w.heap ==> (e in u.heap && When(w.key, e) == When(u.key, e)) || When(w.key, e) > now
  {
  }

  lemma SweepAll(v0: View, late0: set<Ev>, v: View, late: set<Ev>, now: Time)
    requires Good(v0) && Swept(v0, late0, v, late, now, |v0.queues|)
    ensures Deadlines(v) == map e | e in Deadlines(v0) && Deadlines(v0)[e] > now :: Deadlines(v0)[e]
    ensures forall e: Ev :: e.User? ==> (e in late <==> e in late0 || (e in Deadlines(v0) && Deadlines(v0)[e] <= now))
  {
    forall e | e in v0.timed ensures Gone(v0, now, |v0.queues|, e) <==> When(v0.key, e) <= now { assert Placed(v0, e); }
  }

  /** The events of the heap and of the lists below i. */
  ghost function Below(v: View, i: nat): set<Ev>
  {
    set e | e in v.timed && e in v.magic && v.magic[e] < i
  }

  lemma BelowNext(v: View, i: nat)
    requires Good(v) && i < |v.queues|
    ensures Below(v, i) + Set(v.queues[i][..0]) == Below(v, i)
    ensures Below(v, i) + Set(v.queues[i][..|v.queues[i]|]) == Below(v, i + 1)
  {
    assert v.queues[i][..|v.queues[i]|] == v.queues[i] && ListOk(v, i);
    forall e | e in v.timed && e in v.magic && v.magic[e] == i ensures e in v.queues[i] { assert Placed(v, e); }
  }

  lemma BelowAll(v: View)
    requires Good(v)
    ensures Below(v, 0) == v.heap && Below(v, |v.queues|) == v.timed
  {
    forall e | e in v.timed ensures e in Below(v, |v.queues|) { assert Placed(v, e); }
    forall e ensures e in Below(v, 0) <==> e in v.heap { if e in v.timed { assert Placed(v, e); } }
  }

  lemma EarlierOne(v: View, i: nat, j: nat, off: Time)
    requires Good(v) && i < |v.queues| && j < |v.queues[i]|
    ensures var e, s := v.queues[i][j], Below(v, i) + Set(v.queues[i][..j]);
            && e !in v.heap && e in Earlier(v.key, s, off)
            && Earlier(v.key, s, off)[e := Earlier(v.key, s, off)[e] - off]
               == Earlier(v.key, Below(v, i) + Set(v.queues[i][..j + 1]), off)
  {
    var q := v.queues[i];
    assert ListOk(v, i) && q[j] in q;
    assert q[..j + 1] == q[..j] + [q[j]];
    assert Set(q[..j + 1]) == Set(q[..j]) + {q[j]};
    assert q[j] !in q[..j];
  }

  /** A new list, empty, and its proxy. */
  ghost function Listed(v: View): View
  {
    Known(v, Proxy(|v.queues|)).(queues := v.queues + [[]])
  }

  lemma NewList(v: View, late: set<Ev>, running: int)
    requires Good(v) && AllCovered(v, late, running)
    ensures Proxy(|v.queues|) !in v.magic && Proxy(|v.queues|) !in v.heap
    ensures Good(Listed(v)) && AllCovered(Listed(v), late, running) && Deadlines(Listed(v)) == Deadlines(v)
  {
    var p, w := Proxy(|v.queues|), Listed(v);
    forall i | 0 <= i < |w.queues| ensures ListOk(w, i) && Covered(w, i, late, running) {
      if i < |v.queues| {
        assert ListOk(v, i) && Covered(v, i, late, running);
        SortedOther(v.queues[i], v.key, p, 0);
      }
    }
    forall e | e in w.timed ensures Placed(w, e) { assert Placed(v, e); }
  }

  /** Subtracting off from every ev_timeout. */
  ghost function Advanced(v: View, off: Time): View
  {
    v.(key := Earlier(v.key, v.timed, off))
  }

  lemma AdvancedGood(v: View, off: Time, late: set<Ev>, running: int)
    requires Good(v) && AllCovered(v, late, running)
    ensures Good(Advanced(v, off)) && AllCovered(Advanced(v, off), late, running)
    ensures Deadlines(Advanced(v, off)) == map e | e in Deadlines(v) :: Deadlines(v)[e] - off
  {
    var w := Advanced(v, off);
    forall e | e in v.timed ensures When(w.key, e) == When(v.key, e) - off && Placed(w, e) {
      assert Placed(v, e);
    }
    forall i | 0 <= i < |w.queues| ensures ListOk(w, i) && Covered(w, i, late, running) {
      assert ListOk(v, i) && Covered(v, i, late, running);
      SortedEarlier(v.queues[i], v.key, v.timed, off);
    }
  }
}
