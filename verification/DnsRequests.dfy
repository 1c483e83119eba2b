/** The requests of an evdns_base: those in flight, in buckets by transaction id, and those waiting for room. */
module DnsRequests {
  import opened Seqs

  type Id = nat

  const NO_ID := 0xffff

  /** A request: its transaction id, and the server it is assigned to, -1 if none. */
  datatype Request = Request(transId: nat, ns: int)

  predicate HasServer(q: Request)
  {
    q.ns >= 0
  }

  function Sum(heads: seq<seq<Id>>): nat
  {
    if heads == [] then 0 else |heads[0]| + Sum(heads[1..])
  }

  lemma {:induction false} SumSet(heads: seq<seq<Id>>, i: nat, ring: seq<Id>)
    requires i < |heads|
    ensures Sum(heads[i := ring]) == Sum(heads) - |heads[i]| + |ring|
  {
    if i > 0 {
      SumSet(heads[1..], i - 1, ring);
      assert heads[i := ring][1..] == heads[1..][i - 1 := ring];
    } else {
      assert heads[i := ring][1..] == heads[1..];
    }
  }

  lemma {:induction false} SumZero(heads: seq<seq<Id>>)
    requires forall i :: 0 <= i < |heads| ==> heads[i] == []
    ensures Sum(heads) == 0
  {
    if heads != [] { SumZero(heads[1..]); }
  }

  /** Ring i holds requests in flight whose ids belong there. */
  ghost predicate RingOk(heads: seq<seq<Id>>, reqs: map<Id, Request>, i: nat)
    requires i < |heads|
  {
    && NoDup(heads[i])
    && forall r :: r in heads[i] ==> r in reqs && HasServer(reqs[r]) && reqs[r].transId != NO_ID && reqs[r].transId % |heads| == i
  }

  ghost predicate RingsOk(heads: seq<seq<Id>>, reqs: map<Id, Request>)
  {
    forall i :: 0 <= i < |heads| ==> RingOk(heads, reqs, i)
  }

  /** Each request is on the one ring it belongs on. */
  ghost predicate OnRing(heads: seq<seq<Id>>, waiting: seq<Id>, q: Request, r: Id)
    requires |heads| > 0
  {
    if HasServer(q) then r in heads[q.transId % |heads|] else r in waiting && q.transId == NO_ID
  }

  /** No two requests in flight have the same transaction id. */
  ghost predicate Distinct(reqs: map<Id, Request>)
  {
    forall r, s :: r in reqs && s in reqs && r != s && HasServer(reqs[r]) && HasServer(reqs[s]) ==> reqs[r].transId != reqs[s].transId
  }

  datatype View = View(heads: seq<seq<Id>>, waiting: seq<Id>, reqs: map<Id, Request>, nInflight: int, nWaiting: int)

  ghost predicate Good(v: View)
  {
    && |v.heads| > 0 && RingsOk(v.heads, v.reqs) && Distinct(v.reqs)
    && NoDup(v.waiting) && (forall r :: r in v.waiting ==> r in v.reqs && !HasServer(v.reqs[r]))
    && (forall r :: r in v.reqs ==> OnRing(v.heads, v.waiting, v.reqs[r], r))
    && v.nInflight == Sum(v.heads) && v.nWaiting == |v.waiting|
  }

  /** Nobody in flight has this id. */
  ghost predicate Unused(v: View, id: nat)
  {
    id != NO_ID && forall r :: r in v.reqs && HasServer(v.reqs[r]) ==> v.reqs[r].transId != id
  }

  /** A request that is not on a ring goes to the tail of the bucket of its id. */
  function Launched(v: View, r: Id, id: nat, ns: int): View
    requires |v.heads| > 0
  {
    var i := id % |v.heads|;
    v.(heads := v.heads[i := v.heads[i] + [r]], reqs := v.reqs[r := Request(id, ns)], nInflight := v.nInflight + 1)
  }

  lemma LaunchedGood(v: View, r: Id, id: nat, ns: int)
    requires Good(v) && r !in v.reqs && Unused(v, id) && ns >= 0
    ensures Good(Launched(v, r, id, ns))
  {
    var w := Launched(v, r, id, ns);
    SumSet(v.heads, id % |v.heads|, v.heads[id % |v.heads|] + [r]);
    forall i | 0 <= i < |w.heads| ensures RingOk(w.heads, w.reqs, i) { assert RingOk(v.heads, v.reqs, i); }
    forall x | x in w.reqs ensures OnRing(w.heads, w.waiting, w.reqs[x], x) {
      if x != r { assert OnRing(v.heads, v.waiting, v.reqs[x], x); }
    }
  }

  /** A request leaves the ring it is on. */
  function Dropped(v: View, r: Id): View
    requires |v.heads| > 0 && r in v.reqs
  {
    if HasServer(v.reqs[r]) then
      var i := v.reqs[r].transId % |v.heads|;
      v.(heads := v.heads[i := Without(v.heads[i], r)], reqs := v.reqs - {r}, nInflight := v.nInflight - 1)
    else
      v.(waiting := Without(v.waiting, r), reqs := v.reqs - {r}, nWaiting := v.nWaiting - 1)
  }

  lemma DroppedGood(v: View, r: Id)
    requires Good(v) && r in v.reqs
    ensures Good(Dropped(v, r))
  {
    var w := Dropped(v, r);
    assert OnRing(v.heads, v.waiting, v.reqs[r], r);
    if HasServer(v.reqs[r]) {
      var i := v.reqs[r].transId % |v.heads|;
      assert RingOk(v.heads, v.reqs, i);
      WithoutIs(v.heads[i], r);
      SumSet(v.heads, i, Without(v.heads[i], r));
    } else {
      WithoutIs(v.waiting, r);
    }
    forall i | 0 <= i < |w.heads| ensures RingOk(w.heads, w.reqs, i) { assert RingOk(v.heads, v.reqs, i); }
    forall x | x in w.reqs ensures OnRing(w.heads, w.waiting, w.reqs[x], x) { assert OnRing(v.heads, v.waiting, v.reqs[x], x); }
  }

  /** A request joins the waiting ring. */
  function Parked(v: View, r: Id): View
  {
    v.(waiting := v.waiting + [r], reqs := v.reqs[r := Request(NO_ID, -1)], nWaiting := v.nWaiting + 1)
  }

  lemma ParkedGood(v: View, r: Id)
    requires Good(v) && r !in v.reqs
    ensures Good(Parked(v, r))
  {
    var w := Parked(v, r);
    forall i | 0 <= i < |w.heads| ensures RingOk(w.heads, w.reqs, i) { assert RingOk(v.heads, v.reqs, i); }
    forall x | x in w.reqs ensures OnRing(w.heads, w.waiting, w.reqs[x], x) {
      if x != r { assert OnRing(v.heads, v.waiting, v.reqs[x], x); }
    }
  }

  /** Dropping the first waiting request and launching it keeps every other request as it is. */
  function Promoted(v: View, id: nat, ns: int): View
    requires |v.heads| > 0 && v.waiting != [] && v.waiting[0] in v.reqs
  {
    Launched(Dropped(v, v.waiting[0]), v.waiting[0], id, ns)
  }

  lemma PromotedGood(v: View, id: nat, ns: int)
    requires Good(v) && v.waiting != [] && Unused(v, id) && ns >= 0
    ensures v.waiting[0] in v.reqs && Good(Promoted(v, id, ns))
    ensures var w := Promoted(v, id, ns);
            w.waiting == v.waiting[1..] && w.nWaiting == v.nWaiting - 1 && w.nInflight == v.nInflight + 1 && w.reqs.Keys == v.reqs.Keys
  {
    var r := v.waiting[0];
    assert r in v.waiting;
    DroppedGood(v, r);
    LaunchedGood(Dropped(v, r), r, id, ns);
  }

  /** Every request in flight is on one of two sets of rings, and on one only. */
  ghost predicate Split(from: seq<seq<Id>>, to: seq<seq<Id>>, reqs: map<Id, Request>)
  {
    && |from| > 0 && |to| > 0 && RingsOk(from, reqs) && RingsOk(to, reqs)
    && (forall r :: r in reqs && HasServer(reqs[r]) ==>
          (r in from[reqs[r].transId % |from|] <==> r !in to[reqs[r].transId % |to|]))
  }

  function Moved(to: seq<seq<Id>>, r: Id, id: nat): seq<seq<Id>>
    requires |to| > 0
  {
    to[id % |to| := to[id % |to|] + [r]]
  }

  lemma MovedSplit(from: seq<seq<Id>>, to: seq<seq<Id>>, reqs: map<Id, Request>, i: nat)
    requires Split(from, to, reqs) && i < |from| && from[i] != []
    ensures from[i][0] in reqs && var r := from[i][0];
            && Split(from[i := from[i][1..]], Moved(to, r, reqs[r].transId), reqs)
            && Sum(from[i := from[i][1..]]) + 1 == Sum(from) && Sum(Moved(to, r, reqs[r].transId)) == Sum(to) + 1
  {
    var r := from[i][0];
    assert r in from[i] && RingOk(from, reqs, i);
    var id := reqs[r].transId;
    var from', to' := from[i := from[i][1..]], Moved(to, r, id);
    SumSet(from, i, from[i][1..]);
    SumSet(to, id % |to|, to[id % |to|] + [r]);
    assert from[i] == [r] + from[i][1..];
    assert r !in from[i][1..];
    forall k | 0 <= k < |from'| ensures RingOk(from', reqs, k) { assert RingOk(from, reqs, k); }
    forall k | 0 <= k < |to'| ensures RingOk(to', reqs, k) { assert RingOk(to, reqs, k); }
  }

  // ---- There is an unused id as long as fewer than 65535 requests are in flight

  ghost function RingIds(ring: seq<Id>, reqs: map<Id, Request>): (ids: set<nat>)
    ensures |ids| <= |ring|
    ensures forall r :: r in ring && r in reqs ==> reqs[r].transId in ids
  {
    if ring == [] then {}
    else
      assert ring == [ring[0]] + ring[1..];
      (if ring[0] in reqs then {reqs[ring[0]].transId} else {}) + RingIds(ring[1..], reqs)
  }

  ghost function AllIds(heads: seq<seq<Id>>, reqs: map<Id, Request>): (ids: set<nat>)
    ensures |ids| <= Sum(heads)
    ensures forall i, r :: 0 <= i < |heads| && r in heads[i] && r in reqs ==> reqs[r].transId in ids
  {
    if heads == [] then {} else RingIds(heads[0], reqs) + AllIds(heads[1..], reqs)
  }

  lemma {:induction false} MissingFrom(ids: set<nat>, n: nat) returns (id: nat)
    requires |ids| < n
    ensures id < n && id !in ids
  {
    if n - 1 !in ids {
      id := n - 1;
    } else {
      id := MissingFrom(ids - {n - 1}, n - 1);
    }
  }

  lemma UnusedExists(v: View) returns (id: nat)
    requires Good(v) && v.nInflight < NO_ID
    ensures id < NO_ID && Unused(v, id)
  {
    id := MissingFrom(AllIds(v.heads, v.reqs), NO_ID);
    forall r | r in v.reqs && HasServer(v.reqs[r]) ensures v.reqs[r].transId != id {
      assert OnRing(v.heads, v.waiting, v.reqs[r], r);
    }
  }

  /** Random ids among which every one turns up. */
  ghost predicate Complete(random: seq<nat>)
  {
    forall id :: 0 <= id < NO_ID ==> id in random
  }

  // ---- The same without transaction ids, servers and buckets

  datatype Flat = Flat(inflight: set<Id>, waiting: seq<Id>, max: int)

  function Elems(q: seq<Id>): set<Id>
  {
    set r | r in q
  }

  function RingElems(heads: seq<seq<Id>>): set<Id>
  {
    if heads == [] then {} else Elems(heads[0]) + RingElems(heads[1..])
  }

  lemma {:induction false} ElemsCount(q: seq<Id>)
    requires NoDup(q)
    ensures |Elems(q)| == |q|
  {
    if q != [] {
      ElemsCount(q[1..]);
      assert q == [q[0]] + q[1..];
      assert Elems(q) == Elems(q[1..]) + {q[0]};
    }
  }

  lemma {:induction false} RingElemsAre(heads: seq<seq<Id>>)
    ensures forall r :: r in RingElems(heads) <==> exists i :: 0 <= i < |heads| && r in heads[i]
  {
    if heads != [] {
      RingElemsAre(heads[1..]);
      forall r | r in RingElems(heads[1..]) ensures exists i :: 0 <= i < |heads| && r in heads[i] {
        var i :| 0 <= i < |heads[1..]| && r in heads[1..][i];
        assert r in heads[i + 1];
      }
      forall i, r | 0 <= i < |heads| && r in heads[i] ensures r in RingElems(heads) {
        if i > 0 { assert heads[i] == heads[1..][i - 1]; }
      }
    }
  }

  /** A ring without repetition, of requests that belong in the i-th of n buckets. */
  ghost predicate RingAt(ring: seq<Id>, reqs: map<Id, Request>, n: nat, i: nat)
  {
    NoDup(ring) && n > 0 && forall r :: r in ring ==> r in reqs && reqs[r].transId % n == i
  }

  /** Rings from the base-th one of n on share nothing. */
  lemma {:induction false} RingElemsCount(heads: seq<seq<Id>>, reqs: map<Id, Request>, n: nat, base: nat)
    requires n > 0 && forall i :: 0 <= i < |heads| ==> RingAt(heads[i], reqs, n, base + i)
    ensures |RingElems(heads)| == Sum(heads)
    ensures forall r :: r in RingElems(heads) ==> r in reqs && reqs[r].transId % n >= base
  {
    if heads != [] {
      assert RingAt(heads[0], reqs, n, base + 0);
      forall i | 0 <= i < |heads[1..]| ensures RingAt(heads[1..][i], reqs, n, base + 1 + i) {
        assert RingAt(heads[i + 1], reqs, n, base + (i + 1));
      }
      RingElemsCount(heads[1..], reqs, n, base + 1);
      ElemsCount(heads[0]);
      assert Elems(heads[0]) !! RingElems(heads[1..]);
    }
  }

  /** Those in flight are those that do not wait, and they are counted. */
  lemma InflightCount(v: View)
    requires Good(v)
    ensures |v.reqs.Keys - Elems(v.waiting)| == v.nInflight
  {
    forall i | 0 <= i < |v.heads| ensures RingAt(v.heads[i], v.reqs, |v.heads|, 0 + i) { assert RingOk(v.heads, v.reqs, i); }
    RingElemsCount(v.heads, v.reqs, |v.heads|, 0);
    RingElemsAre(v.heads);
    forall r ensures r in RingElems(v.heads) <==> r in v.reqs.Keys - Elems(v.waiting) {
      if r in v.reqs { assert OnRing(v.heads, v.waiting, v.reqs[r], r); }
      if r in RingElems(v.heads) {
        var i :| 0 <= i < |v.heads| && r in v.heads[i];
        assert RingOk(v.heads, v.reqs, i);
      }
    }
    assert RingElems(v.heads) == v.reqs.Keys - Elems(v.waiting);
  }

  function AtLeastOne(m: int): int
  {
    if m < 1 then 1 else m
  }

  /** How many of w waiting requests are issued when n are in flight. */
  function Issued(n: int, max: int, w: nat): (k: nat)
    ensures k <= w && (k == w || n + k >= max) && (k == 0 || n + k <= max)
  {
    if n >= max then 0 else if max - n < w then max - n else w
  }

  class Base {
    var heads: seq<seq<Id>>         // req_heads
    var waiting: seq<Id>            // req_waiting_head
    var nInflight: int              // global_requests_inflight
    var nWaiting: int               // global_requests_waiting
    var maxInflight: int            // global_max_requests_inflight
    var reqs: map<Id, Request>      // the live requests

    ghost function V(): View
      reads this
    {
      View(heads, waiting, reqs, nInflight, nWaiting)
    }

    ghost predicate Valid()
      reads this
    {
      Good(V()) && |heads| == (maxInflight + 4) / 5 && 1 <= maxInflight <= 65000
    }

    /** As a user sees it: those in flight, those waiting, and how many may be in flight. */
    ghost function Table(): Flat
      reads this
    {
      Flat(reqs.Keys - Elems(waiting), waiting, maxInflight)
    }

    /** No request waits while there is room for it. */
    ghost predicate NoneIdle()
      reads this
    {
      waiting == [] || nInflight >= maxInflight
    }

    constructor (m: int)
      requires m <= 65000
      ensures Valid() && NoneIdle() && reqs == map[] && waiting == [] && nInflight == 0 && maxInflight == AtLeastOne(m)
    {
      var max := AtLeastOne(m);
      heads := seq((max + 4) / 5, _ => []);
      waiting, nInflight, nWaiting, maxInflight, reqs := [], 0, 0, max, map[];
      new;
      SumZero(heads);
    }

    /** request_find_from_trans_id: looking in one bucket is enough. */
    method Find(id: nat) returns (found: bool, r: Id)
      requires Valid()
      ensures found ==> r in reqs && HasServer(reqs[r]) && reqs[r].transId == id
      ensures !found && id != NO_ID ==> Unused(V(), id)
    {
      var ring := heads[id % |heads|];
      assert RingOk(heads, reqs, id % |heads|);
      var k := 0;
      while k < |ring|
        invariant 0 <= k <= |ring| && forall a :: 0 <= a < k ==> ring[a] in reqs && reqs[ring[a]].transId != id
      {
        assert ring[k] in ring;
        if reqs[ring[k]].transId == id {
          return true, ring[k];
        }
        k := k + 1;
      }
      forall x | x in reqs && HasServer(reqs[x]) ensures reqs[x].transId != id {
        assert OnRing(heads, waiting, reqs[x], x);
      }
      found, r := false, 0;
    }

    /** transaction_id_pick: the first of the random ids that will do; there is one. */
    method PickId(random: seq<nat>) returns (id: nat)
      requires Valid() && nInflight < maxInflight && Complete(random)
      ensures id in random && Unused(V(), id)
    {
      ghost var free := UnusedExists(V());
      assert free in random;
      ghost var good :| 0 <= good < |random| && random[good] == free;
      var k := 0;
      while true
        invariant 0 <= k <= good
        decreases good - k
      {
        id := random[k];
        k := k + 1;
        if id != NO_ID {
          var found, _ := Find(id);
          if !found {
            return;
          }
        }
      }
    }

    /**
     * request_new and request_submit: r is issued if there is room, also ahead of requests that wait since before the
     * limit was raised, and else waits behind those that came before.
     */
    method Submit(r: Id, random: seq<nat>, ns: nat)
      requires Valid() && r !in reqs && Complete(random)
      modifies this
      ensures Valid() && (old(NoneIdle()) ==> NoneIdle()) && reqs.Keys == old(reqs.Keys) + {r} && maxInflight == old(maxInflight)
      ensures old(nInflight < maxInflight) ==> reqs[r].ns == ns && waiting == old(waiting) && nInflight == old(nInflight) + 1
      ensures old(nInflight < maxInflight) ==> reqs[r].transId in random && Unused(old(V()), reqs[r].transId)
      ensures old(nInflight >= maxInflight) ==> !HasServer(reqs[r]) && waiting == old(waiting) + [r] && nInflight == old(nInflight)
      ensures forall x :: x in old(reqs) ==> reqs[x] == old(reqs)[x]
    {
      hide Good, Complete;
      if nInflight < maxInflight {
        var id := PickId(random);
        LaunchedGood(V(), r, id, ns);
        HasHeads(V());
        reqs := reqs[r := Request(id, ns)];
        heads := heads[id % |heads| := heads[id % |heads|] + [r]];
        nInflight := nInflight + 1;
      } else {
        ParkedGood(V(), r);
        reqs := reqs[r := Request(NO_ID, -1)];
        waiting := waiting + [r];
        nWaiting := nWaiting + 1;
      }
    }

    /**
     * evdns_requests_pump_waiting_queue: waiting requests are issued in order while there is room, each to the server
     * that is picked for it; ns gives the picks.
     */
    method Pump(random: seq<nat>, ns: nat -> nat)
      requires Valid() && Complete(random)
      modifies this
      ensures Valid() && NoneIdle() && reqs.Keys == old(reqs.Keys) && maxInflight == old(maxInflight)
      ensures var k := Issued(old(nInflight), maxInflight, |old(waiting)|);
              waiting == old(waiting)[k..] && nInflight == old(nInflight) + k && ServedBy(old(V()), old(waiting), k, ns, reqs)
    {
      hide Good, Complete, Promoted, ServedBy;
      ghost var v0 := V();
      var k := 0;
      HasHeads(v0);
      NoneServed(v0, ns);
      while nInflight < maxInflight && nWaiting != 0
        invariant Valid() && nWaiting == |waiting| && reqs.Keys == v0.reqs.Keys && maxInflight == old(maxInflight)
        invariant 0 <= k <= |v0.waiting| && waiting == v0.waiting[k..] && nInflight == v0.nInflight + k
        invariant k == 0 || nInflight <= maxInflight
        invariant ServedBy(v0, v0.waiting, k, ns, reqs)
        decreases nWaiting
      {
        ghost var before := reqs;
        assert waiting[0] == v0.waiting[k];
        PumpOne(random, ns(k));
        OneMoreServed(v0, k, ns, before, reqs);
        k := k + 1;
      }
    }

    /** One turn of its loop. */
    method PumpOne(random: seq<nat>, ns: nat)
      requires Valid() && nInflight < maxInflight && nWaiting != 0 && Complete(random)
      modifies this`heads, this`waiting, this`reqs, this`nInflight, this`nWaiting
      ensures Valid() && reqs.Keys == old(reqs.Keys) && nWaiting == |waiting|
      ensures |old(waiting)| > 0 && waiting == old(waiting)[1..] && nInflight == old(nInflight) + 1
      ensures var r := old(waiting)[0];
              && r in reqs && reqs == old(reqs)[r := reqs[r]] && reqs[r].ns == ns
              && reqs[r].transId in random && Unused(old(V()), reqs[r].transId)
    {
      hide Good, Complete;
      ghost var v := V();
      HasHeads(v);
      var id := PickId(random);
      PromotedGood(v, id, ns);
      WaitingHasNone(v, waiting[0]);
      var r := waiting[0];
      waiting := Without(waiting, r);
      nWaiting, nInflight := nWaiting - 1, nInflight + 1;
      reqs := reqs[r := Request(id, ns)];
      heads := heads[id % |heads| := heads[id % |heads|] + [r]];
      assert v.reqs - {r} == Dropped(v, r).reqs && reqs == (v.reqs - {r})[r := Request(id, ns)];
      assert V() == Promoted(v, id, ns);
      HasHeads(V());
    }

    /** request_finished, by an answer, a cancellation or the last timeout: r is gone, and its place is given away. */
    method Finish(r: Id, random: seq<nat>, ns: nat -> nat)
      requires Valid() && r in reqs && Complete(random)
      modifies this
      ensures Valid() && NoneIdle() && reqs.Keys == old(reqs.Keys) - {r} && maxInflight == old(maxInflight)
      ensures var n := if HasServer(old(reqs)[r]) then old(nInflight) - 1 else old(nInflight);
              var w := if HasServer(old(reqs)[r]) then old(waiting) else Without(old(waiting), r);
              var k := Issued(n, maxInflight, |w|);
              waiting == w[k..] && nInflight == n + k && ServedBy(Dropped(old(V()), r), w, k, ns, reqs)
    {
      hide Good, Complete;
      HasHeads(V());
      DroppedGood(V(), r);
      if HasServer(reqs[r]) {
        var i := reqs[r].transId % |heads|;
        heads := heads[i := Without(heads[i], r)];
        nInflight := nInflight - 1;
      } else {
        waiting := Without(waiting, r);
        nWaiting := nWaiting - 1;
      }
      reqs := reqs - {r};
      Pump(random, ns);
    }

    /** Another server for a request in flight: a retransmission, or a server that failed. */
    method Reassign(r: Id, ns: nat)
      requires Valid() && r in reqs && HasServer(reqs[r])
      modifies this`reqs
      ensures Valid() && reqs == old(reqs)[r := Request(old(reqs)[r].transId, ns)]
    {
      ghost var v := V();
      reqs := reqs[r := reqs[r].(ns := ns)];
      forall i | 0 <= i < |heads| ensures RingOk(heads, reqs, i) { assert RingOk(heads, v.reqs, i); }
      forall x | x in reqs ensures OnRing(heads, waiting, reqs[x], x) { assert OnRing(heads, waiting, v.reqs[x], x); }
    }

    /** evdns_base_set_max_requests_inflight: all requests in flight are put in the buckets of the new table. */
    method SetMax(m: int)
      requires Valid() && m <= 65000
      modifies this`heads, this`maxInflight
      ensures Valid() && maxInflight == AtLeastOne(m)
      ensures NoneIdle() <==> old(waiting) == [] || old(nInflight) >= AtLeastOne(m)
    {
      hide Good;
      var to := Rehash((AtLeastOne(m) + 4) / 5);
      heads, maxInflight := to, AtLeastOne(m);
    }

    /** Its loop: every request in flight, moved from its old bucket to its new one. */
    method Rehash(n: nat) returns (to: seq<seq<Id>>)
      requires Valid() && n > 0
      ensures |to| == n && Good(V().(heads := to))
    {
      ghost var v := V();
      var from: seq<seq<Id>> := heads;
      to := seq(n, _ => []);
      SumZero(to);
      SplitStart(v, to);
      var i := 0;
      while i < |from|
        invariant 0 <= i <= |from| == |v.heads| && |to| == n && Split(from, to, reqs) && Sum(from) + Sum(to) == nInflight
        invariant forall k :: 0 <= k < i ==> from[k] == []
        decreases |v.heads| - i
      {
        while from[i] != []
          invariant i < |from| == |v.heads| && |to| == n && Split(from, to, reqs) && Sum(from) + Sum(to) == nInflight
          invariant forall k :: 0 <= k < i ==> from[k] == []
          decreases |from[i]|
        {
          MovedSplit(from, to, reqs, i);
          var r := from[i][0];
          from, to := from[i := from[i][1..]], Moved(to, r, reqs[r].transId);
        }
        i := i + 1;
      }
      SumZero(from);
      SplitEnd(v, from, to);
    }
  }

  /** The first k that waited are in flight to the servers picked for them, and all others are as they were. */
  ghost predicate ServedBy(v: View, waiting: seq<Id>, k: nat, ns: nat -> nat, reqs: map<Id, Request>)
    requires k <= |waiting|
  {
    && reqs.Keys == v.reqs.Keys
    && (forall j :: 0 <= j < k ==> waiting[j] in reqs && reqs[waiting[j]].ns == ns(j))
    && (forall x :: x in v.reqs && x !in waiting[..k] ==> reqs[x] == v.reqs[x])
  }

  lemma NoneServed(v: View, ns: nat -> nat)
    ensures ServedBy(v, v.waiting, 0, ns, v.reqs)
  {
  }

  lemma OneMoreServed(v: View, k: nat, ns: nat -> nat, before: map<Id, Request>, after: map<Id, Request>)
    requires Good(v) && k < |v.waiting| && ServedBy(v, v.waiting, k, ns, before)
    requires var r := v.waiting[k]; r in after && after == before[r := after[r]] && after[r].ns == ns(k)
    ensures ServedBy(v, v.waiting, k + 1, ns, after)
  {
    var r := v.waiting[k];
    assert r in v.waiting && r in v.reqs;
    assert v.waiting[..k + 1] == v.waiting[..k] + [r];
  }

  lemma WaitingHasNone(v: View, r: Id)
    requires Good(v) && r in v.waiting
    ensures r in v.reqs && !HasServer(v.reqs[r])
  {
  }

  lemma SplitStart(v: View, to: seq<seq<Id>>)
    requires Good(v) && |to| > 0 && forall i :: 0 <= i < |to| ==> to[i] == []
    ensures Split(v.heads, to, v.reqs)
  {
    forall i | 0 <= i < |to| ensures RingOk(to, v.reqs, i) {}
    forall r | r in v.reqs && HasServer(v.reqs[r]) ensures r in v.heads[v.reqs[r].transId % |v.heads|] {
      assert OnRing(v.heads, v.waiting, v.reqs[r], r);
    }
  }

  lemma SplitEnd(v: View, from: seq<seq<Id>>, to: seq<seq<Id>>)
    requires Good(v) && Split(from, to, v.reqs) && (forall i :: 0 <= i < |from| ==> from[i] == []) && Sum(to) == v.nInflight
    ensures Good(v.(heads := to))
  {
    forall r | r in v.reqs ensures OnRing(to, v.waiting, v.reqs[r], r) {
      assert OnRing(v.heads, v.waiting, v.reqs[r], r);
    }
  }

  lemma HasHeads(v: View)
    requires Good(v)
    ensures |v.heads| > 0 && v.nWaiting == |v.waiting| && (forall r :: r in v.waiting ==> r in v.reqs)
  {
  }
}
