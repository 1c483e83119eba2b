/** Whole runs of the timeouts of an event_base: what is asked of it is done to one map from events to deadlines. */
module TimeoutRuns {
  import opened MinHeap
  import opened Seqs
  import opened TimeoutView
  import opened Timeouts

  datatype Op =
    | Assign(e: Ev)
    | Init(d: Time)
    | Add(e: Ev, tv: Timeval, absolute: bool, now: Time)
    | Remove(e: Ev)              // event_del; the loop does the same before it runs a callback
    | Correct(to: Time)          // timeout_correct
    | Process(now: Time)         // timeout_process
    | Start(i: nat)              // the proxy of list i is taken from the active queue, if it is there
    | Callback(now: Time)        // and its callback has the lock, if one was taken
    | Turn(now: Time)            // all of these in one go

  /** What the user sees. */
  datatype Plain = Plain(
    known: set<Ev>,
    durations: seq<Time>,
    pending: map<Ev, Time>,
    fired: set<Ev>,              // those whose callback is still to run
    clock: Time)

  ghost function Users(s: set<Ev>): set<Ev>
  {
    set e | e in s && e.User?
  }

  ghost function Seen(b: Base): Plain
    reads b, b.heap
  {
    Plain(Users(b.magic.Keys), b.duration, b.Pending(), Users(b.late), b.eventTv)
  }

  /** What is due at now. */
  ghost function Due(pending: map<Ev, Time>, now: Time): set<Ev>
  {
    set e | e in pending && pending[e] <= now
  }

  /** What may fire in an operation: nothing before its time, and in a whole turn everything that is due. */
  ghost predicate MayFire(s: Plain, op: Op, fired: set<Ev>)
  {
    match op
    case Process(now) => fired <= Due(s.pending, now)
    case Callback(now) => fired <= Due(s.pending, now)
    case Turn(now) => fired == Due(s.pending, now)
    case _ => fired == {}
  }

  ghost function Step(s: Plain, op: Op, fired: set<Ev>): Plain
  {
    match op
    case Assign(e) => if e.User? then s.(known := s.known + {e}) else s
    case Init(d) => if d in s.durations || |s.durations| == MAX_COMMON_TIMEOUTS then s else s.(durations := s.durations + [d])
    case Add(e, tv, absolute, now) =>
      if e !in s.known || !(-1 <= tv.list < |s.durations|) then s
      else s.(pending := s.pending[e := if absolute then tv.t else now + tv.t], fired := s.fired - {e})
    case Remove(e) => s.(pending := s.pending - {e}, fired := s.fired - {e})
    case Correct(to) =>
      var back := if to < s.clock then s.clock - to else 0;
      s.(pending := map e | e in s.pending :: s.pending[e] - back, clock := to)
    case _ => s.(pending := s.pending - fired, fired := s.fired + fired)
  }

  ghost function Run(s: Plain, ops: seq<Op>, fired: seq<set<Ev>>): Plain
    requires |ops| == |fired|
  {
    if ops == [] then s
    else
      var n := |ops| - 1;
      Step(Run(s, ops[..n], fired[..n]), ops[n], fired[n])
  }

  ghost predicate AllMayFire(s: Plain, ops: seq<Op>, fired: seq<set<Ev>>)
    requires |ops| == |fired|
  {
    forall k :: 0 <= k < |ops| ==> MayFire(Run(s, ops[..k], fired[..k]), ops[k], fired[k])
  }

  // ---- One operation

  method DoAssign(b: Base, e: Ev)
    requires b.Valid()
    modifies b, b.heap
    ensures b.Valid() && Seen(b) == Step(old(Seen(b)), Assign(e), {})
  {
    hide Base.Coherent, Good, AllCovered, Deadlines;
    if e.User? && e !in b.magic {
      b.Assign(e);
      assert Users(b.magic.Keys) == old(Users(b.magic.Keys)) + {e};
    }
    assert e.User? && e in old(b.magic) ==> old(Users(b.magic.Keys)) + {e} == old(Users(b.magic.Keys));
  }

  method DoInit(b: Base, d: Time)
    requires b.Valid()
    modifies b, b.heap
    ensures b.Valid() && Seen(b) == Step(old(Seen(b)), Init(d), {})
  {
    var r := b.InitCommon(d);
    assert Users(b.magic.Keys) == old(Users(b.magic.Keys));
  }

  method DoAdd(b: Base, e: Ev, tv: Timeval, absolute: bool, now: Time)
    requires b.Valid()
    modifies b, b.heap
    ensures b.Valid() && Seen(b) == Step(old(Seen(b)), Add(e, tv, absolute, now), {})
  {
    hide Good, AllCovered, Deadlines;
    if e.User? && e in b.magic && -1 <= tv.list < |b.queues| {
      b.AddTimeout(e, tv, absolute, now);
      assert Users(b.late) == old(Users(b.late)) - {e};
    }
  }

  method DoRemove(b: Base, e: Ev)
    requires b.Valid()
    modifies b, b.heap
    ensures b.Valid() && Seen(b) == Step(old(Seen(b)), Remove(e), {})
  {
    hide Good, AllCovered;
    if e.User? {
      b.Del(e);
      assert Users(b.late) == old(Users(b.late)) - {e};
    } else {
      assert b.Pending() - {e} == b.Pending() && Users(b.late) - {e} == Users(b.late);
    }
  }

  method DoCorrect(b: Base, to: Time)
    requires b.Valid()
    modifies b, b.heap
    ensures b.Valid() && Seen(b) == Step(old(Seen(b)), Correct(to), {})
  {
    hide Good, AllCovered, Deadlines;
    b.TimeoutCorrect(to);
  }

  /** What has fired is gone from the deadlines. */
  lemma FiredSeen(v0: View, v: View, fired: seq<Ev>, now: Time)
    requires Good(v0) && Fired(v0, v, fired, now)
    ensures Users(Set(fired)) <= Due(Deadlines(v0), now) && Deadlines(v) == Deadlines(v0) - Users(Set(fired))
    ensures v.magic == v0.magic
  {
    forall e | e in fired ensures e in v0.timed {
      assert e in v0.heap;
    }
  }

  lemma UsersOfBoth(s: set<Ev>, t: set<Ev>)
    ensures Users(s + t) == Users(s) + Users(t)
  {
  }

  method DoProcess(b: Base, now: Time) returns (ghost fired: set<Ev>)
    requires b.Valid()
    modifies b, b.heap
    ensures b.Valid() && MayFire(old(Seen(b)), Process(now), fired) && Seen(b) == Step(old(Seen(b)), Process(now), fired)
  {
    hide Good, AllCovered, Fired, Set, Due, Deadlines, Users, Sorted;
    ghost var v := b.V();
    var es := b.Process(now);
    FiredSeen(v, b.V(), es, now);
    UsersOfBoth(old(b.late), Set(es));
    fired := Users(Set(es));
  }

  method DoStart(b: Base, i: nat)
    requires b.Valid()
    modifies b, b.heap
    ensures b.Valid() && Seen(b) == Step(old(Seen(b)), Start(i), {})
  {
    hide Good, AllCovered, Deadlines;
    assert Users(b.late) + {} == Users(b.late) && b.Pending() - {} == b.Pending();
    if b.running == -1 && i < |b.queues| && Proxy(i) in b.late {
      FreedGood(b.V(), Proxy(i));
      NoProxy(b.V(), Proxy(i));
      b.StartProxy(i);
      assert Users(b.late) == old(Users(b.late));
    }
  }

  lemma NoProxy(v: View, e: Ev)
    requires e.Proxy?
    ensures Deadlines(v) - {e} == Deadlines(v)
  {
  }

  /** What the callback of a list takes from the deadlines. */
  lemma CalledSeen(u: View, i: nat, m: nat, w: View, now: Time)
    requires Good(u) && i < |u.queues| && DueUpTo(u.queues[i], u.key, now, m) && Called(u, i, m, w)
    ensures var fired := Set(u.queues[i][..m]);
            Users(fired) == fired <= Due(Deadlines(u), now) && Deadlines(w) == Deadlines(u) - fired
  {
    CalledIs(u, i, m, w, now);
    hide Called;
    var fired := Set(u.queues[i][..m]);
    GoodAt(u, Proxy(i));
    forall e | e in fired ensures e.User? && e in u.timed && When(u.key, e) <= now {
      assert ListOk(u, i);
    }
  }

  method DoCallback(b: Base, now: Time) returns (ghost fired: set<Ev>)
    requires b.Valid()
    modifies b, b.heap
    ensures b.Valid() && MayFire(old(Seen(b)), Callback(now), fired) && Seen(b) == Step(old(Seen(b)), Callback(now), fired)
    ensures b.running == -1
  {
    hide Good, AllCovered, Deadlines, Due, Set, Called, DueUpTo;
    fired := {};
    assert Users(b.late) + {} == Users(b.late) && b.Pending() - {} == b.Pending();
    if b.running != -1 {
      ghost var v, i := b.V(), b.running;
      ghost var m := b.CommonCallback(now);
      CalledSeen(v, i, m, b.V(), now);
      fired := Set(v.queues[i][..m]);
      assert Users(b.late) == old(Users(b.late)) + fired;
    }
  }

  lemma TwoParts(pending: map<Ev, Time>, now: Time, some: set<Ev>, rest: map<Ev, Time>)
    requires some <= Due(pending, now) && rest == map e | e in pending - some && (pending - some)[e] > now :: (pending - some)[e]
    ensures rest == pending - Due(pending, now) && some + Due(pending - some, now) == Due(pending, now)
  {
  }

  lemma OnlyUsers(v: View)
    ensures forall e :: e in Deadlines(v) ==> e.User?
  {
  }

  /** A callback that was begun is finished first. */
  method DoTurn(b: Base, now: Time) returns (ghost fired: set<Ev>)
    requires b.Valid()
    modifies b, b.heap
    ensures b.Valid() && MayFire(old(Seen(b)), Turn(now), fired) && Seen(b) == Step(old(Seen(b)), Turn(now), fired)
  {
    hide Good, AllCovered, Deadlines;
    ghost var some := DoCallback(b, now);
    ghost var pending, late := b.Pending(), b.late;
    OnlyUsers(b.V());
    b.Turn(now);
    fired := Due(old(b.Pending()), now);
    TwoParts(old(b.Pending()), now, some, b.Pending());
    assert Users(b.late) == Users(late) + Due(pending, now);
  }

  method Do(b: Base, op: Op) returns (ghost fired: set<Ev>)
    requires b.Valid()
    modifies b, b.heap
    ensures b.Valid() && MayFire(old(Seen(b)), op, fired) && Seen(b) == Step(old(Seen(b)), op, fired)
  {
    hide Seen, Step, Base.Valid, Due;
    fired := {};
    match op
    case Assign(e) => DoAssign(b, e);
    case Init(d) => DoInit(b, d);
    case Add(e, tv, absolute, now) => DoAdd(b, e, tv, absolute, now);
    case Remove(e) => DoRemove(b, e);
    case Correct(to) => DoCorrect(b, to);
    case Process(now) => fired := DoProcess(b, now);
    case Start(i) => DoStart(b, i);
    case Callback(now) => fired := DoCallback(b, now);
    case Turn(now) => fired := DoTurn(b, now);
  }

  lemma RunOneMore(s: Plain, ops: seq<Op>, fired: seq<set<Ev>>, op: Op, f: set<Ev>)
    requires |ops| == |fired| && AllMayFire(s, ops, fired) && MayFire(Run(s, ops, fired), op, f)
    ensures Run(s, ops + [op], fired + [f]) == Step(Run(s, ops, fired), op, f) && AllMayFire(s, ops + [op], fired + [f])
  {
    hide Step, MayFire;
    var ops', fired' := ops + [op], fired + [f];
    assert ops'[..|ops|] == ops && fired'[..|ops|] == fired;
    forall k | 0 <= k < |ops'| ensures MayFire(Run(s, ops'[..k], fired'[..k]), ops'[k], fired'[k]) {
      assert k < |ops| ==> ops'[..k] == ops[..k] && fired'[..k] == fired[..k];
    }
  }

  /**
   * Any run of operations, from any state: the events and deadlines are those of the plain run, in which nothing fires
   * before its time, and after a turn nothing that was due is left.
   */
  method Execute(b: Base, ops: seq<Op>) returns (ghost fired: seq<set<Ev>>)
    requires b.Valid()
    modifies b, b.heap
    ensures b.Valid() && |fired| == |ops| && AllMayFire(old(Seen(b)), ops, fired)
    ensures Seen(b) == Run(old(Seen(b)), ops, fired)
  {
    hide Seen, Step, MayFire, AllMayFire, Base.Valid;
    fired := [];
    ghost var s := Seen(b);
    assert AllMayFire(s, [], []) by { NoneYet(s); }
    for i := 0 to |ops|
      invariant b.Valid() && |fired| == i && AllMayFire(s, ops[..i], fired) && Seen(b) == Run(s, ops[..i], fired)
    {
      ghost var f := Do(b, ops[i]);
      RunOneMore(s, ops[..i], fired, ops[i], f);
      assert ops[..i] + [ops[i]] == ops[..i + 1];
      fired := fired + [f];
    }
    assert ops[..|ops|] == ops;
  }

  lemma NoneYet(s: Plain)
    ensures AllMayFire(s, [], [])
  {
  }

  // ---- Once for each time it is added

  /** An event without a deadline has none until it is added. */
  lemma {:induction false} StaysOut(s: Plain, ops: seq<Op>, fired: seq<set<Ev>>, i: nat, n: nat, e: Ev)
    requires |ops| == |fired| && i <= n <= |ops| && e !in Run(s, ops[..i], fired[..i]).pending
    requires forall k :: i <= k < n ==> !(ops[k].Add? && ops[k].e == e)
    ensures e !in Run(s, ops[..n], fired[..n]).pending
    decreases n
  {
    if i < n {
      StaysOut(s, ops, fired, i, n - 1, e);
      assert ops[..n][..n - 1] == ops[..n - 1] && fired[..n][..n - 1] == fired[..n - 1];
      assert Run(s, ops[..n], fired[..n]) == Step(Run(s, ops[..n - 1], fired[..n - 1]), ops[n - 1], fired[n - 1]);
    }
  }

  lemma OncePerAdd(s: Plain, ops: seq<Op>, fired: seq<set<Ev>>, i: nat, j: nat, e: Ev)
    requires |ops| == |fired| && AllMayFire(s, ops, fired) && i < j < |ops| && e in fired[i] && e in fired[j]
    ensures exists k :: i < k < j && ops[k].Add? && ops[k].e == e
  {
    hide Run;
    assert MayFire(Run(s, ops[..j], fired[..j]), ops[j], fired[j]);
    FiresOut(s, ops, fired, i, e);
    if forall k :: i < k < j ==> !(ops[k].Add? && ops[k].e == e) {
      StaysOut(s, ops, fired, i + 1, j, e);
    }
  }

  lemma FiresOut(s: Plain, ops: seq<Op>, fired: seq<set<Ev>>, i: nat, e: Ev)
    requires |ops| == |fired| && AllMayFire(s, ops, fired) && i < |ops| && e in fired[i]
    ensures e !in Run(s, ops[..i + 1], fired[..i + 1]).pending
  {
    assert ops[..i + 1][..i] == ops[..i] && fired[..i + 1][..i] == fired[..i];
    var r := Run(s, ops[..i], fired[..i]);
    assert Run(s, ops[..i + 1], fired[..i + 1]) == Step(r, ops[i], fired[i]);
    hide Run;
    assert MayFire(r, ops[i], fired[i]);
  }

  /** In a turn exactly what is due fires, and what is left is due later. */
  lemma FiresWhenDue(s: Plain, ops: seq<Op>, fired: seq<set<Ev>>, j: nat, now: Time, e: Ev)
    requires |ops| == |fired| && AllMayFire(s, ops, fired) && j < |ops| && ops[j] == Turn(now)
    ensures var p := Run(s, ops[..j], fired[..j]).pending; e in fired[j] <==> e in p && p[e] <= now
    ensures var p := Run(s, ops[..j + 1], fired[..j + 1]).pending; e in p ==> p[e] > now
  {
    assert ops[..j + 1][..j] == ops[..j] && fired[..j + 1][..j] == fired[..j];
    var r := Run(s, ops[..j], fired[..j]);
    assert Run(s, ops[..j + 1], fired[..j + 1]) == Step(r, ops[j], fired[j]);
    hide Run;
    assert MayFire(r, ops[j], fired[j]);
  }
}
