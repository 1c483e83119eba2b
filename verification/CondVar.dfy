/** The condition variable for Windows threads: a manual-reset event, two counters and a generation. */
module CondVar {
  import opened Seqs

  type Thread = nat

  /** What WaitForSingleObject returned. */
  datatype Res = Object0 | Timeout | Failed

  datatype State =
    | Outside
    | Waiting(gen: nat, timed: bool)          // registered, in or before WaitForSingleObject
    | Back(gen: nat, timed: bool, res: Res)   // WaitForSingleObject has returned
    | Leaving(gen: nat, result: int)          // out of the loop, about to take the user's lock again

  datatype Cond = Cond(
    threads: map<Thread, State>,
    nWaiting: int,
    nToWake: int,
    generation: nat,
    set_: bool)       // the event is set

  datatype Step =
    | Register(t: Thread, timed: bool)
    | Signal(broadcast: bool)
    | Return(t: Thread, res: Res)
    | Check(t: Thread, late: bool)   // late: the time of a timed wait is up
    | Finish(t: Thread)

  /** In evthread_win32_cond_wait, between ++n_waiting and --n_waiting. */
  predicate Registered(s: State)
  {
    s.Waiting? || s.Back?
  }

  function Waiters(c: Cond): set<Thread>
  {
    set t | t in c.threads && Registered(c.threads[t])
  }

  /** A wake-up is left for a thread that registered before the last signal. */
  predicate Eligible(c: Cond, t: Thread)
  {
    t in c.threads && Registered(c.threads[t]) && c.nToWake > 0 && c.threads[t].gen != c.generation
  }

  predicate Enabled(c: Cond, s: Step)
  {
    match s
    case Register(t, timed) => t in c.threads && c.threads[t].Outside?
    case Signal(broadcast) => true
    case Return(t, res) =>
      t in c.threads && c.threads[t].Waiting? && (res.Object0? ==> c.set_) && (res.Timeout? ==> c.threads[t].timed)
    case Check(t, late) => t in c.threads && c.threads[t].Back? && (late ==> c.threads[t].timed)
    case Finish(t) => t in c.threads && c.threads[t].Leaving?
  }

  function Apply(c: Cond, s: Step): Cond
    requires Enabled(c, s)
  {
    match s
    case Register(t, timed) =>
      c.(threads := c.threads[t := Waiting(c.generation, timed)], nWaiting := c.nWaiting + 1)
    case Signal(broadcast) =>
      c.(nToWake := if broadcast then c.nWaiting else c.nToWake + 1, generation := c.generation + 1, set_ := true)
    case Return(t, res) =>
      c.(threads := c.threads[t := Back(c.threads[t].gen, c.threads[t].timed, res)])
    case Check(t, late) =>
      var s := c.threads[t];
      if c.nToWake != 0 && c.generation != s.gen then
        c.(threads := c.threads[t := Leaving(s.gen, 0)], nToWake := c.nToWake - 1, nWaiting := c.nWaiting - 1)
      else if s.res != Object0 then
        c.(threads := c.threads[t := Leaving(s.gen, if s.res.Timeout? then 1 else -1)], nWaiting := c.nWaiting - 1)
      else if late then
        c.(threads := c.threads[t := Leaving(s.gen, 1)], nWaiting := c.nWaiting - 1)
      else
        c.(threads := c.threads[t := Waiting(s.gen, s.timed)], set_ := c.set_ && c.nToWake != 0)
    case Finish(t) =>
      c.(threads := c.threads[t := Outside], set_ := c.set_ && c.nWaiting != 0)
  }

  ghost predicate Inv(c: Cond)
  {
    && c.nWaiting == |Waiters(c)| && c.nToWake >= 0
    && (forall t :: t in c.threads ==> ThreadOk(c, t))
  }

  lemma WaitersAfter(c: Cond, t: Thread, s: State)
    requires t in c.threads
    ensures var d := c.(threads := c.threads[t := s]);
            Waiters(d) == (if Registered(s) then Waiters(c) + {t} else Waiters(c) - {t})
    ensures |Waiters(c) + {t}| == |Waiters(c)| + (if t in Waiters(c) then 0 else 1)
    ensures |Waiters(c) - {t}| == |Waiters(c)| - (if t in Waiters(c) then 1 else 0)
  {
    var w := Waiters(c);
    if t in w {
      assert w + {t} == w && w == (w - {t}) + {t};
    } else {
      assert w - {t} == w;
    }
  }

  /** The part of Inv that looks at one thread. */
  ghost predicate ThreadOk(c: Cond, t: Thread)
    requires t in c.threads
  {
    var s := c.threads[t];
    && (!s.Outside? ==> s.gen <= c.generation)
    && (s.Leaving? && s.result == 0 ==> s.gen < c.generation)
    && (Eligible(c, t) ==> c.set_)
  }

  lemma StepKeeps(c: Cond, s: Step)
    requires Inv(c) && Enabled(c, s)
    ensures Inv(Apply(c, s))
  {
    var d := Apply(c, s);
    match s
    case Signal(_) => SignalKeeps(c, s);
    case Register(t, _) => OneThreadKeeps(c, s, t);
    case Return(t, _) => OneThreadKeeps(c, s, t);
    case Check(t, _) => OneThreadKeeps(c, s, t);
    case Finish(t) => OneThreadKeeps(c, s, t);
  }

  lemma SignalKeeps(c: Cond, s: Step)
    requires Inv(c) && s.Signal?
    ensures Inv(Apply(c, s))
  {
    var d := Apply(c, s);
    assert Waiters(d) == Waiters(c);
    forall t | t in d.threads ensures ThreadOk(d, t) { assert ThreadOk(c, t); }
  }

  lemma OneThreadKeeps(c: Cond, s: Step, t: Thread)
    requires Inv(c) && Enabled(c, s) && !s.Signal? && t == s.t
    ensures Inv(Apply(c, s))
  {
    var d := Apply(c, s);
    WaitersAfter(c, t, d.threads[t]);
    assert d.threads == c.threads[t := d.threads[t]];
    assert Waiters(d) == Waiters(c.(threads := d.threads));
    assert ThreadOk(c, t);
    forall x | x in d.threads ensures ThreadOk(d, x) {
      assert ThreadOk(c, x);
      if Registered(d.threads[x]) { assert x in Waiters(d); }
    }
  }

  ghost predicate Possible(c: Cond, steps: seq<Step>)
    decreases |steps|
  {
    steps == [] || (Enabled(c, steps[0]) && Possible(Apply(c, steps[0]), steps[1..]))
  }

  ghost function Run(c: Cond, steps: seq<Step>): Cond
    requires Possible(c, steps)
    decreases |steps|
  {
    if steps == [] then c else Run(Apply(c, steps[0]), steps[1..])
  }

  function NewCond(ts: set<Thread>): Cond
  {
    Cond(map t | t in ts :: Outside, 0, 0, 0, false)
  }

  lemma {:induction false} RunKeeps(c: Cond, steps: seq<Step>)
    requires Inv(c) && Possible(c, steps)
    ensures Inv(Run(c, steps))
    decreases |steps|
  {
    if steps != [] {
      StepKeeps(c, steps[0]);
      RunKeeps(Apply(c, steps[0]), steps[1..]);
    }
  }

  lemma StartsRight(ts: set<Thread>)
    ensures Inv(NewCond(ts))
  {
    assert Waiters(NewCond(ts)) == {};
  }

  // ---- What that means for a waiting thread

  /** In every run, a thread that a wake-up is left for finds the event set, and is woken when it looks. */
  lemma NoLostWakeup(ts: set<Thread>, steps: seq<Step>, t: Thread)
    requires Possible(NewCond(ts), steps)
    ensures var c := Run(NewCond(ts), steps);
            Eligible(c, t) && c.threads[t].Waiting? ==>
              && Enabled(c, Return(t, Object0))
              && var b := Apply(c, Return(t, Object0)); Apply(b, Check(t, false)).threads[t] == Leaving(c.threads[t].gen, 0)
  {
    StartsRight(ts);
    RunKeeps(NewCond(ts), steps);
    var c := Run(NewCond(ts), steps);
    if Eligible(c, t) {
      assert ThreadOk(c, t);
    }
  }

  function Signals(steps: seq<Step>): nat
  {
    if steps == [] then 0 else (if steps[0].Signal? then 1 else 0) + Signals(steps[1..])
  }

  lemma {:induction false} GenerationCounts(c: Cond, steps: seq<Step>)
    requires Possible(c, steps)
    ensures Run(c, steps).generation == c.generation + Signals(steps)
    decreases |steps|
  {
    if steps != [] {
      GenerationCounts(Apply(c, steps[0]), steps[1..]);
    }
  }

  /** A wait that returns 0 was signalled after it began. */
  lemma ZeroMeansSignalled(c: Cond, t: Thread, timed: bool, steps: seq<Step>)
    requires Inv(c) && Enabled(c, Register(t, timed)) && Possible(Apply(c, Register(t, timed)), steps)
    requires var d := Run(Apply(c, Register(t, timed)), steps); t in d.threads && d.threads[t] == Leaving(c.generation, 0)
    ensures Signals(steps) > 0
  {
    var d := Apply(c, Register(t, timed));
    StepKeeps(c, Register(t, timed));
    RunKeeps(d, steps);
    GenerationCounts(d, steps);
    assert ThreadOk(Run(d, steps), t);
  }

  // ---- An account of wake-ups

  /** The step ends a wait with 0. */
  predicate Wakes(c: Cond, s: Step)
    requires Enabled(c, s)
  {
    s.Check? && Apply(c, s).threads[s.t].Leaving? && Apply(c, s).threads[s.t].result == 0
  }

  /** Waits that end with 0 in a run. */
  ghost function Woken(c: Cond, steps: seq<Step>): nat
    requires Possible(c, steps)
    decreases |steps|
  {
    if steps == [] then 0 else (if Wakes(c, steps[0]) then 1 else 0) + Woken(Apply(c, steps[0]), steps[1..])
  }

  /** Wake-ups granted: one by each signal, and by each broadcast one for each thread that waits then. */
  ghost function Granted(c: Cond, steps: seq<Step>): nat
    requires Possible(c, steps)
    decreases |steps|
  {
    if steps == [] then 0
    else
      (if steps[0] == Signal(false) then 1 else if steps[0] == Signal(true) then |Waiters(c)| else 0)
      + Granted(Apply(c, steps[0]), steps[1..])
  }

  /** Wake-ups that were left at a broadcast, which makes new ones for all. */
  ghost function Cancelled(c: Cond, steps: seq<Step>): int
    requires Possible(c, steps)
    decreases |steps|
  {
    if steps == [] then 0
    else (if steps[0] == Signal(true) then c.nToWake else 0) + Cancelled(Apply(c, steps[0]), steps[1..])
  }

  lemma {:induction false} Account(c: Cond, steps: seq<Step>)
    requires Inv(c) && Possible(c, steps)
    ensures Run(c, steps).nToWake + Woken(c, steps) + Cancelled(c, steps) == c.nToWake + Granted(c, steps)
    ensures Cancelled(c, steps) >= 0
    decreases |steps|
  {
    if steps != [] {
      StepKeeps(c, steps[0]);
      Account(Apply(c, steps[0]), steps[1..]);
    }
  }

  /**
   * Every wake-up granted is left, has ended a wait, or was left at a broadcast; none is made from nothing and none is
   * lost.
   */
  lemma WakeupsAreGranted(ts: set<Thread>, steps: seq<Step>)
    requires Possible(NewCond(ts), steps)
    ensures var c := Run(NewCond(ts), steps);
            && c.nToWake + Woken(NewCond(ts), steps) + Cancelled(NewCond(ts), steps) == Granted(NewCond(ts), steps)
            && 0 <= c.nToWake && 0 <= Cancelled(NewCond(ts), steps) && c.nWaiting == |Waiters(c)|
  {
    StartsRight(ts);
    RunKeeps(NewCond(ts), steps);
    Account(NewCond(ts), steps);
  }

  // ---- A broadcast

  /** The threads that wait and registered before the last signal. */
  function Before(c: Cond): set<Thread>
  {
    set t | t in c.threads && Registered(c.threads[t]) && c.threads[t].gen != c.generation
  }

  ghost predicate NoSignal(steps: seq<Step>)
  {
    forall k :: 0 <= k < |steps| ==> !steps[k].Signal?
  }

  lemma BeforeAfter(c: Cond, d: Cond, t: Thread, s: State)
    requires t in c.threads && d.threads == c.threads[t := s] && d.generation == c.generation
    ensures Before(d) == if Registered(s) && s.gen != c.generation then Before(c) + {t} else Before(c) - {t}
    ensures t in Before(c) <==> Registered(c.threads[t]) && c.threads[t].gen != c.generation
  {
  }

  lemma OtherKeeps(c: Cond, s: Step)
    requires Enabled(c, s) && !s.Signal? && !s.Check?
    ensures var d := Apply(c, s);
            d.generation == c.generation && d.nToWake == c.nToWake && !Wakes(c, s) && Before(d) == Before(c)
  {
    hide Waiters;
    var d, t := Apply(c, s), s.t;
    BeforeAfter(c, d, t, d.threads[t]);
    hide Before;
    var b := Before(c);
    assert (t in b ==> b + {t} == b) && (t !in b ==> b - {t} == b);
  }

  lemma OneLess(b: set<Thread>, t: Thread)
    ensures if t in b then |b - {t}| == |b| - 1 else b - {t} == b
  {
    if t in b { assert b == (b - {t}) + {t}; }
  }

  lemma CheckIs(c: Cond, t: Thread, late: bool)
    requires Enabled(c, Check(t, late))
    ensures var d := Apply(c, Check(t, late));
            && Registered(c.threads[t]) && d.generation == c.generation && d.threads == c.threads[t := d.threads[t]]
            && if c.nToWake != 0 && c.generation != c.threads[t].gen then
                 d.threads[t] == Leaving(c.threads[t].gen, 0) && d.nToWake == c.nToWake - 1 && Wakes(c, Check(t, late))
               else
                 && d.nToWake == c.nToWake && !Wakes(c, Check(t, late))
                 && (Registered(d.threads[t]) ==> d.threads[t].gen == c.threads[t].gen)
    ensures Leaving(c.threads[t].gen, 0).Leaving? && !Registered(Leaving(c.threads[t].gen, 0))
  {
  }

  /** The threads that look in these steps. */
  function Looked(steps: seq<Step>): set<Thread>
  {
    set k | 0 <= k < |steps| && steps[k].Check? :: steps[k].t
  }

  lemma LookedNext(steps: seq<Step>)
    requires steps != []
    ensures Looked(steps) == (if steps[0].Check? then {steps[0].t} else {}) + Looked(steps[1..])
  {
    assert steps == [steps[0]] + steps[1..];
    forall t | t in Looked(steps[1..]) ensures t in Looked(steps) {
      var k :| 0 <= k < |steps[1..]| && steps[1..][k].Check? && steps[1..][k].t == t;
      assert steps[k + 1] == steps[1..][k];
    }
    forall t | t in Looked(steps) ensures t in Looked(steps[1..]) || (steps[0].Check? && t == steps[0].t) {
      var k :| 0 <= k < |steps| && steps[k].Check? && steps[k].t == t;
      if k > 0 {
        assert steps[1..][k - 1] == steps[k];
      }
    }
  }

  /** Any step but a signal, while wake-ups are left: a thread of Before that looks is woken, and nothing else is changed. */
  lemma StepWakes(c: Cond, s: Step)
    requires Inv(c) && Enabled(c, s) && !s.Signal?
    ensures var d := Apply(c, s);
            && d.generation == c.generation
            && if s.Check? && s.t in Before(c) && c.nToWake > 0 then
                 && Before(d) == Before(c) - {s.t} && d.threads[s.t] == Leaving(c.threads[s.t].gen, 0)
                 && d.nToWake == c.nToWake - 1 && Wakes(c, s)
               else
                 && d.nToWake == c.nToWake && !Wakes(c, s)
                 && (!(s.Check? && s.t in Before(c)) ==> Before(d) == Before(c))
  {
    NotNegative(c);
    hide Inv, Waiters;
    if s.Check? {
      CheckIs(c, s.t, s.late);
      var d := Apply(c, s);
      BeforeAfter(c, d, s.t, d.threads[s.t]);
      hide Apply, Wakes;
      OneLess(Before(c), s.t);
      assert s.t in Before(c) ==> Before(c) + {s.t} == Before(c);
    } else {
      OtherKeeps(c, s);
    }
  }

  /** Until the next signal: as many wake as look, up to the number of wake-ups left, and none of them in vain. */
  lemma {:induction false} RunWakes(c: Cond, steps: seq<Step>)
    requires Inv(c) && Possible(c, steps) && NoSignal(steps)
    ensures var d, looked := Run(c, steps), |Before(c) * Looked(steps)|;
            && Woken(c, steps) == Min(c.nToWake, looked) && d.nToWake == c.nToWake - Woken(c, steps)
            && d.generation == c.generation && (looked <= c.nToWake ==> Before(d) == Before(c) - Looked(steps))
    decreases |steps|
  {
    if steps != [] {
      var s := steps[0];
      var e := Apply(c, s);
      StepWakes(c, s);
      StepKeeps(c, s);
      RunWakes(e, steps[1..]);
      LookedNext(steps);
      hide Apply, Before, Looked, Wakes, Inv, Enabled, Waiters;
      RunOne(c, steps);
      OneLook(Before(c), Looked(steps[1..]), s);
    } else {
      assert Looked(steps) == {};
      assert Before(c) * {} == {} && Before(c) - {} == Before(c);
    }
  }

  lemma OneLook(b: set<Thread>, l: set<Thread>, s: Step)
    ensures var all := (if s.Check? then {s.t} else {}) + l;
            if s.Check? && s.t in b then |b * all| == 1 + |(b - {s.t}) * l| && b - all == (b - {s.t}) - l
            else b * all == b * l && b - all == b - l
  {
    if s.Check? && s.t in b {
      assert b * ({s.t} + l) == {s.t} + (b - {s.t}) * l;
    }
  }

  /** All who wait when a signal is made are before it. */
  lemma SignalReaches(c: Cond, broadcast: bool)
    requires Inv(c)
    ensures var d := Apply(c, Signal(broadcast));
            && Inv(d) && d.set_ && Before(d) == Waiters(d) == Waiters(c)
            && d.nToWake == (if broadcast then |Waiters(c)| else c.nToWake + 1)
            && (forall t :: t in Waiters(c) ==> Eligible(d, t))
  {
    var d := Apply(c, Signal(broadcast));
    StepKeeps(c, Signal(broadcast));
    forall t | t in Waiters(c) ensures t in Before(d) { assert ThreadOk(c, t); }
    if broadcast {
      forall t | t in Waiters(c) ensures |Waiters(c)| > 0 { assert Waiters(c) != {}; }
    }
  }

  /** A thread with a wake-up left for it comes back from the event, and returns 0 when it looks, its time up or not. */
  ghost predicate Ready(c: Cond, t: Thread)
  {
    && t in Waiters(c) && c.set_
    && (c.threads[t].Waiting? ==> Enabled(c, Return(t, Object0)))
    && (forall late :: Enabled(c, Check(t, late)) ==> Apply(c, Check(t, late)).threads[t] == Leaving(c.threads[t].gen, 0))
  }

  lemma EligibleReady(c: Cond, t: Thread)
    requires Inv(c) && Eligible(c, t)
    ensures Ready(c, t)
  {
    assert ThreadOk(c, t);
  }

  /**
   * After a signal or a broadcast and until the next, whatever happens. n is the number of wake-ups it leaves: for a
   * signal one more than before, for a broadcast one for each who waits. Of those who waited when it was made, the
   * first n that look return 0; until that many have looked, whoever has not looked still waits, and while a wake-up
   * is left is ready for it.
   */
  lemma SignalWakes(c: Cond, broadcast: bool, steps: seq<Step>)
    requires Inv(c) && Possible(Apply(c, Signal(broadcast)), steps) && NoSignal(steps)
    ensures var b := Apply(c, Signal(broadcast)); var d := Run(b, steps);
            var n := if broadcast then |Waiters(c)| else c.nToWake + 1;
            var looked := |Waiters(c) * Looked(steps)|;
            && Woken(b, steps) == Min(n, looked) && d.nToWake == n - Woken(b, steps)
            && (looked <= n ==> Before(d) == Waiters(c) - Looked(steps))
            && (looked < n ==> forall t :: t in Waiters(c) - Looked(steps) ==> Ready(d, t))
  {
    var b := Apply(c, Signal(broadcast));
    SignalReaches(c, broadcast);
    RunWakes(b, steps);
    RunKeeps(b, steps);
    var d := Run(b, steps);
    hide Apply, Run, Woken, Inv, Looked, Ready;
    if |Waiters(c) * Looked(steps)| < b.nToWake {
      forall t | t in Waiters(c) - Looked(steps) ensures Ready(d, t) {
        assert t in Before(d);
        EligibleReady(d, t);
      }
    }
  }

  /** A signal is not in vain: until some wait returns 0, whoever waited when it was made waits still, and is ready. */
  lemma SignalWakesOne(c: Cond, steps: seq<Step>)
    requires Inv(c) && Possible(Apply(c, Signal(false)), steps) && NoSignal(steps)
    requires Woken(Apply(c, Signal(false)), steps) == 0
    ensures var d := Run(Apply(c, Signal(false)), steps);
            Waiters(c) !! Looked(steps) && forall t :: t in Waiters(c) ==> Ready(d, t)
  {
    SignalWakes(c, false, steps);
    hide *;
    var w, l := Waiters(c), Looked(steps);
    assert c.nToWake >= 0 by { NotNegative(c); }
    assert |w * l| == 0 by { MinZero(c.nToWake + 1, |w * l|); }
    assert w * l == {} && w - l == w;
  }

  lemma NotNegative(c: Cond)
    requires Inv(c)
    ensures c.nToWake >= 0
  {
  }

  lemma MinZero(a: int, b: int)
    requires Min(a, b) == 0 && a > 0
    ensures b == 0
  {
  }

  /**
   * After a broadcast and until the next signal, whatever happens: of the threads that waited when it was made
   * exactly those that have not looked since still wait, each with the wake-up that is left for it; the others have
   * returned 0.
   */
  lemma BroadcastWakesAll(c: Cond, steps: seq<Step>)
    requires Inv(c) && Possible(Apply(c, Signal(true)), steps) && NoSignal(steps)
    ensures var b := Apply(c, Signal(true)); var d := Run(b, steps);
            && d.nToWake == |Before(d)| && Before(d) == Waiters(c) - Looked(steps)
            && Woken(b, steps) == |Waiters(c) * Looked(steps)|
            && forall t :: t in Before(d) ==> Ready(d, t)
  {
    SignalWakes(c, true, steps);
    hide *;
    var w, l := Waiters(c), Looked(steps);
    Halves(w, l);
    assert Min(|w|, |w * l|) == |w * l| by { MinIs(|w|, |w * l|); }
    if |w * l| == |w| {
      assert w - l == {};
    }
  }

  lemma Halves(w: set<Thread>, l: set<Thread>)
    ensures |w| == |w - l| + |w * l|
  {
    assert w == (w - l) + (w * l);
  }

  lemma MinIs(a: int, b: int)
    requires b <= a
    ensures Min(a, b) == b
  {
  }

  // ---- How a wait goes

  /** Whoever has registered waits until it looks. */
  lemma {:induction false} WaitsUntilItLooks(c: Cond, t: Thread, steps: seq<Step>)
    requires Possible(c, steps) && t in Waiters(c) && t !in Looked(steps)
    ensures var d := Run(c, steps); t in Waiters(d) && d.threads[t].gen == c.threads[t].gen && d.threads[t].timed == c.threads[t].timed
    decreases |steps|
  {
    if steps != [] {
      LookedNext(steps);
      WaitsUntilItLooks(Apply(c, steps[0]), t, steps[1..]);
    }
  }

  /** A wait that is begun, and after which there is a signal before it looks, has a wake-up waiting for it. */
  lemma SignalledWhileWaiting(c: Cond, t: Thread, timed: bool, steps: seq<Step>, broadcast: bool)
    requires Inv(c) && Enabled(c, Register(t, timed)) && Possible(Apply(c, Register(t, timed)), steps) && t !in Looked(steps)
    ensures var d := Run(Apply(c, Register(t, timed)), steps);
            t in Waiters(d) && Enabled(d, Signal(broadcast)) && Ready(Apply(d, Signal(broadcast)), t)
  {
    var b := Apply(c, Register(t, timed));
    StepKeeps(c, Register(t, timed));
    WaitsUntilItLooks(b, t, steps);
    RunKeeps(b, steps);
    var d := Run(b, steps);
    SignalReaches(d, broadcast);
    EligibleReady(Apply(d, Signal(broadcast)), t);
  }

  /** What the wait of t has to do with what came before: how it was begun, and what came back from the event. */
  ghost predicate WaitOk(c: Cond, t: Thread, timed: bool, failed: bool)
    requires t in c.threads
  {
    var s := c.threads[t];
    && (Registered(s) ==> s.timed == timed)
    && (s.Back? ==> (s.res.Timeout? ==> timed) && (s.res.Failed? ==> failed))
    && (s.Leaving? ==> s.result in {0, 1, -1} && (s.result == 1 ==> timed) && (s.result == -1 ==> failed))
  }

  lemma {:induction false} WaitEnds(c: Cond, t: Thread, timed: bool, failed: bool, steps: seq<Step>)
    requires Possible(c, steps) && t in c.threads && !c.threads[t].Outside? && WaitOk(c, t, timed, failed)
    requires Finish(t) !in steps && (Return(t, Failed) in steps ==> failed)
    ensures t in Run(c, steps).threads && !Run(c, steps).threads[t].Outside? && WaitOk(Run(c, steps), t, timed, failed)
    decreases |steps|
  {
    if steps != [] {
      assert steps[0] in steps;
      WaitEnds(Apply(c, steps[0]), t, timed, failed, steps[1..]);
    }
  }

  /** A wait returns 1 only with a time that is up, and -1 only when waiting failed; so without either only when signalled. */
  lemma ResultsMean(c: Cond, t: Thread, timed: bool, steps: seq<Step>)
    requires Inv(c) && Enabled(c, Register(t, timed)) && Possible(Apply(c, Register(t, timed)), steps) && Finish(t) !in steps
    ensures var d := Run(Apply(c, Register(t, timed)), steps);
            && t in d.threads && var s := d.threads[t];
            s.Leaving? ==> s.result in {0, 1, -1} && (s.result == 1 ==> timed) && (s.result == -1 ==> Return(t, Failed) in steps)
  {
    WaitEnds(Apply(c, Register(t, timed)), t, timed, Return(t, Failed) in steps, steps);
  }

  /** Whoever looks with its time up, or because waiting ended without the event, waits no longer. */
  lemma LooksAndLeaves(c: Cond, t: Thread, late: bool)
    requires Inv(c) && Enabled(c, Check(t, late))
    ensures t in Waiters(Apply(c, Check(t, late))) <==> !Eligible(c, t) && c.threads[t].res == Object0 && !late
  {
  }

  /** The steps of thread t. */
  predicate By(s: Step, t: Thread)
  {
    !s.Signal? && s.t == t
  }

  lemma {:induction false} OthersLeaveIt(c: Cond, t: Thread, steps: seq<Step>)
    requires Possible(c, steps) && t in c.threads && forall s <- steps :: !By(s, t)
    ensures t in Run(c, steps).threads && Run(c, steps).threads[t] == c.threads[t]
    decreases |steps|
  {
    if steps != [] {
      assert steps[0] in steps;
      OthersLeaveIt(Apply(c, steps[0]), t, steps[1..]);
    }
  }

  /**
   * What a thread comes to that has come back from the event with res, whatever others do before it looks: 0 if a
   * wake-up is left for it by then, else what res says; after that it may wait again.
   */
  lemma LookingBack(c: Cond, t: Thread, res: Res, steps: seq<Step>, late: bool)
    requires Inv(c) && Enabled(c, Return(t, res)) && Possible(Apply(c, Return(t, res)), steps) && forall s <- steps :: !By(s, t)
    requires late ==> c.threads[t].timed
    ensures var d := Run(Apply(c, Return(t, res)), steps);
            && Enabled(d, Check(t, late)) && var e := Apply(d, Check(t, late)); var s := e.threads[t];
            && (s.Leaving? <==> Eligible(d, t) || res != Object0 || late)
            && (s.Leaving? ==> s.result == if Eligible(d, t) then 0 else if res.Failed? then -1 else 1)
            && (s.Leaving? ==> Enabled(e, Finish(t)) && Enabled(Apply(e, Finish(t)), Register(t, false)))
            && (!s.Leaving? ==> s == c.threads[t])
  {
    var b := Apply(c, Return(t, res));
    StepKeeps(c, Return(t, res));
    RunKeeps(b, steps);
    OthersLeaveIt(b, t, steps);
  }

  /**
   * The event stays set but for a look that ends in waiting on with no wake-up left, and for a finish with nobody
   * waiting.
   */
  lemma EventStays(c: Cond, s: Step)
    requires Inv(c) && Enabled(c, s) && c.set_
    ensures !Apply(c, s).set_ <==>
              || (s.Check? && s.t in Waiters(Apply(c, s)) && c.nToWake == 0)
              || (s.Finish? && Waiters(c) == {})
  {
    assert |Waiters(c)| == 0 <==> Waiters(c) == {};
  }


  /**
   * n_to_wake is not a number of waiters: a signal that finds no one waiting stays, and then one signal
   * wakes two threads.
   */
  lemma EarlySignalStays()
    ensures var steps := [Signal(false), Register(1, false), Register(2, false), Signal(false),
                          Return(1, Object0), Return(2, Object0), Check(1, false), Check(2, false)];
            && Possible(NewCond({1, 2}), steps)
            && Run(NewCond({1, 2}), steps[..1]).nToWake > Run(NewCond({1, 2}), steps[..1]).nWaiting
            && Run(NewCond({1, 2}), steps).threads[1] == Leaving(1, 0)
            && Run(NewCond({1, 2}), steps).threads[2] == Leaving(1, 0)
  {
    var steps := [Signal(false), Register(1, false), Register(2, false), Signal(false),
                  Return(1, Object0), Return(2, Object0), Check(1, false), Check(2, false)];
    EarlyEnd(steps[4..]);
    EarlyStart(steps);
    RunOne(NewCond({1, 2}), steps[..1]);
  }

  /** Two threads that wait, with two wake-ups left for them. */
  function TwoForTwo(): Cond
  {
    Cond(map[1 := Waiting(1, false), 2 := Waiting(1, false)], 2, 2, 2, true)
  }

  lemma EarlyStart(steps: seq<Step>)
    requires |steps| >= 4 && steps[..4] == [Signal(false), Register(1, false), Register(2, false), Signal(false)]
    requires Possible(TwoForTwo(), steps[4..])
    ensures Possible(NewCond({1, 2}), steps) && Run(NewCond({1, 2}), steps) == Run(TwoForTwo(), steps[4..])
  {
    assert steps[0] == steps[..4][0] && steps[1] == steps[..4][1] && steps[2] == steps[..4][2] && steps[3] == steps[..4][3];
    var c0 := NewCond({1, 2});
    var c1 := Apply(c0, steps[0]);
    var c2 := Apply(c1, steps[1]);
    var c3 := Apply(c2, steps[2]);
    assert Apply(c3, steps[3]) == TwoForTwo();
    RunOne(c3, steps[3..]);
    RunOne(c2, steps[2..]);
    RunOne(c1, steps[1..]);
    RunOne(c0, steps);
  }

  lemma EarlyEnd(steps: seq<Step>)
    requires steps == [Return(1, Object0), Return(2, Object0), Check(1, false), Check(2, false)]
    ensures Possible(TwoForTwo(), steps)
    ensures Run(TwoForTwo(), steps).threads == map[1 := Leaving(1, 0), 2 := Leaving(1, 0)]
  {
    var c4 := TwoForTwo();
    var c5 := Apply(c4, steps[0]);
    var c6 := Apply(c5, steps[1]);
    var c7 := Apply(c6, steps[2]);
    var c8 := Apply(c7, steps[3]);
    assert c8.threads == map[1 := Leaving(1, 0), 2 := Leaving(1, 0)];
    RunOne(c7, steps[3..]);
    RunOne(c6, steps[2..]);
    RunOne(c5, steps[1..]);
    RunOne(c4, steps);
  }

  lemma RunOne(c: Cond, steps: seq<Step>)
    requires steps != [] && Enabled(c, steps[0]) && Possible(Apply(c, steps[0]), steps[1..])
    ensures Possible(c, steps) && Run(c, steps) == Run(Apply(c, steps[0]), steps[1..])
  {
  }

  /** It exceeds the number of waiters exactly from a signal, or a wait given up, that finds no waiter to spare. */
  lemma ExcessBegins(c: Cond, s: Step)
    requires Inv(c) && Enabled(c, s) && c.nToWake <= c.nWaiting
    ensures Apply(c, s).nToWake > Apply(c, s).nWaiting <==>
              && c.nToWake == c.nWaiting
              && (s == Signal(false)
                  || (s.Check? && c.threads[s.t].gen == c.generation && (c.threads[s.t].res != Object0 || s.late)))
  {
    StepKeeps(c, s);
    if s.Check? {
      assert s.t in Waiters(c);
    }
  }
}
