/** Whole runs of an evdns_base: whatever is asked of it, its requests are served as by one queue with a limit. */
module DnsRuns {
  import opened DnsRequests
  import opened Seqs

  /** Each with the servers that are picked, if it comes to that. */
  datatype Op =
    | Submit(r: Id, ns: nat)
    | Finish(r: Id, picks: nat -> nat)   // answered, cancelled, or timed out for the last time
    | Resume(picks: nat -> nat)
    | Reassign(r: Id, ns: nat)           // timed out, or its server failed
    | Resize(m: int)

  /** The nearest number that may be in flight. */
  function Clip(m: int): (c: int)
    ensures 1 <= c <= 65000 && (1 <= m <= 65000 ==> c == m) && (m < 1 ==> c == 1) && (m > 65000 ==> c == 65000)
  {
    if m < 1 then 1 else if m > 65000 then 65000 else m
  }

  ghost predicate Known(f: Flat, r: Id)
  {
    r in f.inflight || r in f.waiting
  }

  /** Waiting requests are issued, the one that came first first, while there is room. */
  ghost function Pumped(f: Flat): Flat
    decreases |f.waiting|
  {
    if f.waiting == [] || |f.inflight| >= f.max then f
    else Pumped(f.(inflight := f.inflight + {f.waiting[0]}, waiting := f.waiting[1..]))
  }

  ghost function Step(f: Flat, op: Op): Flat
  {
    match op
    case Submit(r, _) =>
      if Known(f, r) then f
      else if |f.inflight| < f.max then f.(inflight := f.inflight + {r})
      else f.(waiting := f.waiting + [r])
    case Finish(r, _) => if Known(f, r) then Pumped(Flat(f.inflight - {r}, Without(f.waiting, r), f.max)) else f
    case Resume(_) => Pumped(f)
    case Reassign(_, _) => f
    case Resize(m) => f.(max := Clip(m))
  }

  ghost function Run(f: Flat, ops: seq<Op>): Flat
  {
    if ops == [] then f else Step(Run(f, ops[..|ops| - 1]), ops[|ops| - 1])
  }

  // ---- Beside the queue: which server each request in flight was given to

  ghost function PumpedTo(f: Flat, m: map<Id, nat>, picks: nat -> nat, j: nat): map<Id, nat>
    decreases |f.waiting|
  {
    if f.waiting == [] || |f.inflight| >= f.max then m
    else
      PumpedTo(f.(inflight := f.inflight + {f.waiting[0]}, waiting := f.waiting[1..]), m[f.waiting[0] := picks(j)], picks, j + 1)
  }

  ghost function StepTo(f: Flat, m: map<Id, nat>, op: Op): map<Id, nat>
  {
    match op
    case Submit(r, ns) => if Known(f, r) || |f.inflight| >= f.max then m else m[r := ns]
    case Finish(r, picks) =>
      if Known(f, r) then PumpedTo(Flat(f.inflight - {r}, Without(f.waiting, r), f.max), m - {r}, picks, 0) else m
    case Resume(picks) => PumpedTo(f, m, picks, 0)
    case Reassign(r, ns) => if r in m then m[r := ns] else m
    case Resize(_) => m
  }

  ghost function RunTo(f: Flat, m: map<Id, nat>, ops: seq<Op>): map<Id, nat>
  {
    if ops == [] then m
    else
      var n := |ops| - 1;
      StepTo(Run(f, ops[..n]), RunTo(f, m, ops[..n]), ops[n])
  }

  ghost predicate Idle(f: Flat)
  {
    f.waiting != [] && |f.inflight| < f.max
  }

  /**
   * A request waits although there is room exactly after the limit is raised past the number in flight while
   * something waits, and until requests that come later have taken the room, or until one that is there finishes.
   */
  lemma IdleAfter(f: Flat, op: Op)
    ensures Idle(Step(f, op)) <==>
              match op
              case Submit(r, _) => Idle(f) && (Known(f, r) || |f.inflight| + 1 < f.max)
              case Finish(r, _) => Idle(f) && !Known(f, r)
              case Resume(_) => false
              case Reassign(_, _) => Idle(f)
              case Resize(m) => f.waiting != [] && |f.inflight| < Clip(m)
  {
    PumpedFull(f);
    if op.Finish? {
      PumpedFull(Flat(f.inflight - {op.r}, Without(f.waiting, op.r), f.max));
    }
  }

  lemma {:induction false} PumpedFull(f: Flat)
    ensures !Idle(Pumped(f))
    decreases |f.waiting|
  {
    if Idle(f) {
      PumpedFull(f.(inflight := f.inflight + {f.waiting[0]}, waiting := f.waiting[1..]));
    }
  }

  /** Without a resize nothing ever waits while there is room. */
  lemma {:induction false} NeverIdle(f: Flat, ops: seq<Op>)
    requires !Idle(f) && forall k :: 0 <= k < |ops| ==> !ops[k].Resize?
    ensures !Idle(Run(f, ops))
  {
    if ops != [] {
      var n := |ops| - 1;
      NeverIdle(f, ops[..n]);
      IdleAfter(Run(f, ops[..n]), ops[n]);
    }
  }

  /** No request waits twice, and none that waits is in flight. */
  ghost predicate Apart(f: Flat)
  {
    NoDup(f.waiting) && f.inflight !! Elems(f.waiting)
  }

  /** One turn of the pump. */
  ghost function Issue(f: Flat): Flat
    requires f.waiting != []
  {
    f.(inflight := f.inflight + {f.waiting[0]}, waiting := f.waiting[1..])
  }

  lemma IssueIs(f: Flat)
    requires f.waiting != [] && Apart(f)
    ensures Apart(Issue(f)) && |Issue(f).inflight| == |f.inflight| + 1
    ensures Issue(f).inflight + Elems(Issue(f).waiting) == f.inflight + Elems(f.waiting)
  {
    var r := f.waiting[0];
    assert f.waiting == [r] + f.waiting[1..];
    assert Elems(f.waiting) == {r} + Elems(f.waiting[1..]);
    assert r in Elems(f.waiting) && r !in f.inflight;
  }

  /** Pumping in one go: so many stop waiting, and whatever does not wait is in flight. */
  lemma {:induction false} PumpedIs(f: Flat, n: nat)
    requires n == |f.inflight| && Apart(f)
    ensures var k := Issued(n, f.max, |f.waiting|);
            Pumped(f) == Flat(f.inflight + Elems(f.waiting) - Elems(f.waiting[k..]), f.waiting[k..], f.max)
    decreases |f.waiting|
  {
    hide Elems, NoDup, Apart;
    var k := Issued(n, f.max, |f.waiting|);
    if Idle(f) {
      IssueIs(f);
      PumpedIs(Issue(f), n + 1);
      assert f.waiting[1..][k - 1..] == f.waiting[k..];
    } else {
      assert f.waiting[0..] == f.waiting;
      ApartMinus(f);
    }
  }

  lemma ApartMinus(f: Flat)
    requires Apart(f)
    ensures f.inflight + Elems(f.waiting) - Elems(f.waiting) == f.inflight
  {
  }

  /** The same of a table of requests. */
  lemma PumpedTable(keys: set<Id>, waiting: seq<Id>, max: int, n: nat)
    requires NoDup(waiting) && Elems(waiting) <= keys && n == |keys - Elems(waiting)|
    ensures var k := Issued(n, max, |waiting|);
            Pumped(Flat(keys - Elems(waiting), waiting, max)) == Flat(keys - Elems(waiting[k..]), waiting[k..], max)
  {
    hide Elems, Pumped;
    PumpedIs(Flat(keys - Elems(waiting), waiting, max), n);
    assert keys - Elems(waiting) + Elems(waiting) == keys;
  }

  // ---- The table against the queue

  lemma TableIs(v: View)
    requires Good(v)
    ensures NoDup(v.waiting) && Elems(v.waiting) <= v.reqs.Keys && |v.reqs.Keys - Elems(v.waiting)| == v.nInflight
    ensures forall r :: r in v.reqs ==> (r in v.waiting <==> !HasServer(v.reqs[r]))
  {
    InflightCount(v);
    forall r | r in v.reqs ensures r in v.waiting <==> !HasServer(v.reqs[r]) {
      assert OnRing(v.heads, v.waiting, v.reqs[r], r);
    }
  }

  lemma SubmittedTable(keys: set<Id>, waiting: seq<Id>, r: Id)
    requires r !in keys && Elems(waiting) <= keys
    ensures keys + {r} - Elems(waiting) == keys - Elems(waiting) + {r}
    ensures keys + {r} - Elems(waiting + [r]) == keys - Elems(waiting)
    ensures r !in waiting
  {
    assert Elems(waiting + [r]) == Elems(waiting) + {r};
    assert r !in Elems(waiting);
  }

  /** The same servers, and for just those in flight. */
  ghost predicate SameServers(reqs: map<Id, Request>, m: map<Id, nat>)
  {
    (forall r :: r in m <==> r in reqs && HasServer(reqs[r])) && forall r :: r in m ==> reqs[r].ns == m[r]
  }

  /** In p the first k that waited have the servers picked from the j-th on, and the others those they had in m. */
  ghost predicate GivenTo(p: map<Id, nat>, m: map<Id, nat>, waiting: seq<Id>, k: nat, picks: nat -> nat, j: nat)
    requires k <= |waiting|
  {
    && (forall x :: x in p <==> x in m || x in waiting[..k])
    && (forall i :: 0 <= i < k ==> waiting[i] in p && p[waiting[i]] == picks(j + i))
    && (forall x :: x in m && x !in waiting[..k] ==> x in p && p[x] == m[x])
  }

  lemma GivenNone(m: map<Id, nat>, waiting: seq<Id>, picks: nat -> nat, j: nat)
    ensures GivenTo(m, m, waiting, 0, picks, j)
  {
  }

  lemma GivenOneMore(p: map<Id, nat>, m: map<Id, nat>, waiting: seq<Id>, k: nat, picks: nat -> nat, j: nat)
    requires 0 < k <= |waiting| && NoDup(waiting) && GivenTo(p, m[waiting[0] := picks(j)], waiting[1..], k - 1, picks, j + 1)
    ensures GivenTo(p, m, waiting, k, picks, j)
  {
    var r, rest := waiting[0], waiting[1..];
    assert waiting[..k] == [r] + rest[..k - 1];
    assert r !in rest[..k - 1];
    assert p[r] == picks(j);
    forall i | 0 <= i < k ensures waiting[i] in p && p[waiting[i]] == picks(j + i) {
      if i > 0 { assert rest[i - 1] == waiting[i]; }
    }
  }

  /** Pumping in one go: the first so many are given to the servers picked in turn. */
  lemma {:induction false} PumpedToIs(f: Flat, m: map<Id, nat>, picks: nat -> nat, j: nat, n: nat)
    requires n == |f.inflight| && Apart(f)
    ensures GivenTo(PumpedTo(f, m, picks, j), m, f.waiting, Issued(n, f.max, |f.waiting|), picks, j)
    decreases |f.waiting|
  {
    hide Elems, NoDup, GivenTo;
    var k := Issued(n, f.max, |f.waiting|);
    if Idle(f) {
      IssueIs(f);
      PumpedToIs(Issue(f), m[f.waiting[0] := picks(j)], picks, j + 1, n + 1);
      GivenOneMore(PumpedTo(f, m, picks, j), m, f.waiting, k, picks, j);
    } else {
      GivenNone(m, f.waiting, picks, j);
    }
  }

  /** One request more, in flight or not. */
  lemma SubmittedServers(before: map<Id, Request>, after: map<Id, Request>, r: Id, m: map<Id, nat>)
    requires SameServers(before, m) && r !in before && after.Keys == before.Keys + {r}
    requires forall x :: x in before ==> after[x] == before[x]
    ensures HasServer(after[r]) ==> SameServers(after, m[r := after[r].ns])
    ensures !HasServer(after[r]) ==> SameServers(after, m)
  {
    assert forall x :: x in after <==> x in before || x == r by {
      forall x ensures x in after <==> x in before || x == r { assert x in after.Keys <==> x in before.Keys + {r}; }
    }
  }

  method DoSubmit(b: Base, r: Id, random: seq<nat>, ns: nat, ghost m: map<Id, nat>)
    requires b.Valid() && Complete(random) && SameServers(b.reqs, m)
    modifies b
    ensures b.Valid() && b.Table() == Step(old(b.Table()), Submit(r, ns))
    ensures SameServers(b.reqs, StepTo(old(b.Table()), m, Submit(r, ns)))
  {
    hide Good, Complete, Elems, NoDup, SameServers;
    ghost var v := b.V();
    TableIs(v);
    if r !in b.reqs {
      SubmittedTable(v.reqs.Keys, v.waiting, r);
      b.Submit(r, random, ns);
      SubmittedServers(v.reqs, b.reqs, r, m);
    } else {
      KnownIs(v, r);
    }
  }

  lemma KnownIs(v: View, r: Id)
    requires r in v.reqs
    ensures r in v.reqs.Keys - Elems(v.waiting) || r in v.waiting
  {
  }

  /** The queue after pumping, in two ways. */
  lemma PumpedServers(u: View, w: View, f: Flat, m: map<Id, nat>, picks: nat -> nat)
    requires Good(u) && Good(w) && SameServers(u.reqs, m)
    requires f == Flat(u.reqs.Keys - Elems(u.waiting), u.waiting, f.max)
    requires var k := Issued(u.nInflight, f.max, |u.waiting|); w.waiting == u.waiting[k..] && ServedBy(u, u.waiting, k, picks, w.reqs)
    ensures SameServers(w.reqs, PumpedTo(f, m, picks, 0))
  {
    hide Good, ServedBy, SameServers, GivenTo, PumpedTo;
    TableIs(u);
    TableIs(w);
    assert Apart(f);
    PumpedToIs(f, m, picks, 0, u.nInflight);
    hide Elems, NoDup, Apart;
    var k := Issued(u.nInflight, f.max, |u.waiting|);
    assert w.waiting == u.waiting[k..];
    GivenAgrees(u, w, k, PumpedTo(f, m, picks, 0), m, picks);
  }

  lemma GivenAgrees(u: View, w: View, k: nat, p: map<Id, nat>, m: map<Id, nat>, picks: nat -> nat)
    requires k <= |u.waiting| && NoDup(u.waiting) && w.waiting == u.waiting[k..] && SameServers(u.reqs, m)
    requires GivenTo(p, m, u.waiting, k, picks, 0) && ServedBy(u, u.waiting, k, picks, w.reqs)
    requires forall r :: r in w.reqs ==> (r in w.waiting <==> !HasServer(w.reqs[r]))
    requires forall r :: r in u.reqs ==> (r in u.waiting <==> !HasServer(u.reqs[r]))
    ensures SameServers(w.reqs, p)
  {
    hide NoDup, ServedBy;
    ServedAre(u, k, picks, w.reqs);
    OnlyOnce(u.waiting, k);
    forall r | r in u.waiting[..k] ensures r in p && r in w.reqs && w.reqs[r].ns == p[r] {
      var i :| 0 <= i < k && u.waiting[..k][i] == r;
      assert u.waiting[i] == r;
    }
    assert u.waiting == u.waiting[..k] + u.waiting[k..];
    forall r | r !in u.waiting[..k] ensures r in p <==> r in w.reqs && HasServer(w.reqs[r]) {
    }
  }

  lemma ServedAre(v: View, k: nat, picks: nat -> nat, reqs: map<Id, Request>)
    requires k <= |v.waiting| && ServedBy(v, v.waiting, k, picks, reqs)
    ensures forall x :: x in reqs <==> x in v.reqs
    ensures forall j :: 0 <= j < k ==> v.waiting[j] in reqs && reqs[v.waiting[j]].ns == picks(j)
    ensures forall x :: x in v.reqs && x !in v.waiting[..k] ==> reqs[x] == v.reqs[x]
  {
    forall x ensures x in reqs <==> x in v.reqs { assert x in reqs.Keys <==> x in v.reqs.Keys; }
  }

  lemma OnlyOnce(q: seq<Id>, k: nat)
    requires NoDup(q) && k <= |q|
    ensures forall r :: r in q[..k] ==> r !in q[k..]
  {
    forall r | r in q[..k] ensures r !in q[k..] {
      var i :| 0 <= i < k && q[..k][i] == r;
      forall j | 0 <= j < |q[k..]| ensures q[k..][j] != r { assert q[i] != q[j + k]; }
    }
  }

  lemma DroppedServers(v: View, r: Id, m: map<Id, nat>)
    requires Good(v) && r in v.reqs && SameServers(v.reqs, m)
    ensures var u := Dropped(v, r); Good(u) && SameServers(u.reqs, m - {r}) && u.reqs == v.reqs - {r}
  {
    DroppedGood(v, r);
  }

  method DoFinish(b: Base, r: Id, random: seq<nat>, picks: nat -> nat, ghost m: map<Id, nat>)
    requires b.Valid() && Complete(random) && SameServers(b.reqs, m)
    modifies b
    ensures b.Valid() && b.Table() == Step(old(b.Table()), Finish(r, picks))
    ensures SameServers(b.reqs, StepTo(old(b.Table()), m, Finish(r, picks)))
  {
    hide Good, Complete, Pumped, PumpedTo, Elems, NoDup, Without, SameServers, ServedBy;
    ghost var v := b.V();
    TableIs(v);
    if r in b.reqs {
      KnownIs(v, r);
      DroppedServers(v, r, m);
      b.Finish(r, random, picks);
      ghost var u := Dropped(v, r);
      ghost var w := if HasServer(v.reqs[r]) then v.waiting else Without(v.waiting, r);
      ghost var n := if HasServer(v.reqs[r]) then v.nInflight - 1 else v.nInflight;
      FinishedTable(v, r);
      PumpedTable(v.reqs.Keys - {r}, w, b.maxInflight, n);
      assert u.waiting == w && u.nInflight == n && u.reqs.Keys == v.reqs.Keys - {r};
      PumpedServers(u, b.V(), Flat(v.reqs.Keys - {r} - Elems(w), w, b.maxInflight), m - {r}, picks);
    } else {
      InElems(v.waiting, r);
    }
  }

  lemma MinusInflight(keys: set<Id>, w: set<Id>, r: Id)
    requires r in keys && r !in w
    ensures keys - w - {r} == keys - {r} - w && |keys - {r} - w| == |keys - w| - 1
  {
    var rest := keys - w - {r};
    assert rest == keys - {r} - w && keys - w == rest + {r};
  }

  lemma MinusWaiting(keys: set<Id>, w: set<Id>, r: Id)
    requires r in w
    ensures keys - w - {r} == keys - {r} - (w - {r}) == keys - w
  {
  }

  lemma WithoutElems(q: seq<Id>, r: Id)
    requires NoDup(q) && r in q
    ensures Elems(Without(q, r)) == Elems(q) - {r} && NoDup(Without(q, r)) && r in Elems(q)
  {
    WithoutIs(q, r);
  }

  lemma InElems(q: seq<Id>, r: Id)
    ensures r in q <==> r in Elems(q)
  {
  }

  /** What finishing one request leaves to be pumped. */
  lemma FinishedTable(v: View, r: Id)
    requires Good(v) && r in v.reqs
    ensures var w := if HasServer(v.reqs[r]) then v.waiting else Without(v.waiting, r);
            var n := if HasServer(v.reqs[r]) then v.nInflight - 1 else v.nInflight;
            && Without(v.waiting, r) == w && NoDup(w) && Elems(w) <= v.reqs.Keys - {r}
            && v.reqs.Keys - Elems(v.waiting) - {r} == v.reqs.Keys - {r} - Elems(w)
            && n == |v.reqs.Keys - {r} - Elems(w)|
  {
    hide *;
    TableIs(v);
    InElems(v.waiting, r);
    if HasServer(v.reqs[r]) {
      WithoutIs(v.waiting, r);
      MinusInflight(v.reqs.Keys, Elems(v.waiting), r);
    } else {
      WithoutElems(v.waiting, r);
      MinusWaiting(v.reqs.Keys, Elems(v.waiting), r);
    }
  }

  method DoResume(b: Base, random: seq<nat>, picks: nat -> nat, ghost m: map<Id, nat>)
    requires b.Valid() && Complete(random) && SameServers(b.reqs, m)
    modifies b
    ensures b.Valid() && b.Table() == Step(old(b.Table()), Resume(picks))
    ensures SameServers(b.reqs, StepTo(old(b.Table()), m, Resume(picks)))
  {
    hide Good, Complete, Pumped, PumpedTo, SameServers, ServedBy;
    ghost var v := b.V();
    TableIs(v);
    b.Pump(random, picks);
    PumpedTable(v.reqs.Keys, v.waiting, b.maxInflight, v.nInflight);
    PumpedServers(v, b.V(), Flat(v.reqs.Keys - Elems(v.waiting), v.waiting, b.maxInflight), m, picks);
  }

  method Do(b: Base, op: Op, random: seq<nat>, ghost m: map<Id, nat>)
    requires b.Valid() && Complete(random) && SameServers(b.reqs, m)
    modifies b
    ensures b.Valid() && b.Table() == Step(old(b.Table()), op) && SameServers(b.reqs, StepTo(old(b.Table()), m, op))
  {
    hide Good, Complete, Pumped, PumpedTo;
    match op
    case Submit(r, ns) => DoSubmit(b, r, random, ns, m);
    case Finish(r, picks) => DoFinish(b, r, random, picks, m);
    case Resume(picks) => DoResume(b, random, picks, m);
    case Reassign(r, ns) =>
      if r in b.reqs && HasServer(b.reqs[r]) {
        b.Reassign(r, ns);
        assert b.reqs.Keys == old(b.reqs.Keys);
      }
    case Resize(m) => b.SetMax(Clip(m));
  }

  lemma RunOneMore(f: Flat, ops: seq<Op>, i: nat)
    requires i < |ops|
    ensures Run(f, ops[..i + 1]) == Step(Run(f, ops[..i]), ops[i])
    ensures forall m :: RunTo(f, m, ops[..i + 1]) == StepTo(Run(f, ops[..i]), RunTo(f, m, ops[..i]), ops[i])
  {
    assert ops[..i + 1][..i] == ops[..i];
  }

  /**
   * Any run from a new base: every ring, count and transaction id is right at its end; what is in flight and what
   * waits, in which order, is what the queue says; and each request in flight has the server last picked for it.
   */
  method Execute(m: int, ops: seq<Op>, random: seq<seq<nat>>) returns (b: Base)
    requires |random| == |ops| && forall k :: 0 <= k < |ops| ==> Complete(random[k])
    ensures fresh(b) && b.Valid() && b.Table() == Run(Flat({}, [], Clip(m)), ops)
    ensures b.NoneIdle() <==> !Idle(Run(Flat({}, [], Clip(m)), ops))
    ensures SameServers(b.reqs, RunTo(Flat({}, [], Clip(m)), map[], ops))
  {
    hide Good, Complete, Step, StepTo, SameServers;
    b := new Base(Clip(m));
    assert ops[..0] == [] && b.Table() == Flat({}, [], Clip(m));
    assert SameServers(b.reqs, map[]) by { NoServers(); }
    for i := 0 to |ops|
      invariant fresh(b) && b.Valid() && b.Table() == Run(Flat({}, [], Clip(m)), ops[..i])
      invariant SameServers(b.reqs, RunTo(Flat({}, [], Clip(m)), map[], ops[..i]))
    {
      RunOneMore(Flat({}, [], Clip(m)), ops, i);
      Do(b, ops[i], random[i], RunTo(Flat({}, [], Clip(m)), map[], ops[..i]));
    }
    assert ops[..|ops|] == ops;
    TableIs(b.V());
  }

  lemma NoServers()
    ensures SameServers(map[], map[])
  {
  }

  /** With room for one, two requests, and then room for two: the second still waits. */
  method RaisedLimitLeavesIdle(random: seq<nat>) returns (b: Base)
    requires Complete(random)
    ensures fresh(b) && b.Valid() && b.nInflight == 1 && b.waiting == [2] && b.maxInflight == 2 && !b.NoneIdle()
  {
    hide Good, Complete;
    b := new Base(1);
    b.Submit(1, random, 0);
    b.Submit(2, random, 0);
    b.SetMax(2);
  }
}
