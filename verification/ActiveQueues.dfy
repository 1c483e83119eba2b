/** The active queues of an event_base, one for each priority, and the running of what is in them. */
module ActiveQueues {
  import opened Seqs

  /** An event with the priority it was given, 0 the most urgent; the library's own events are internal. */
  datatype Ev = Ev(id: nat, pri: nat, internal: bool)

  datatype Base = Base(
    queues: seq<seq<Ev>>,   // activequeues
    running: int,           // event_running_priority
    cont: bool,             // event_continue
    brk: bool)              // event_break

  /** What a callback, or another thread while it runs, does to the base. */
  datatype Op = Activate(e: Ev) | Delete(e: Ev) | LoopBreak

  /** event_active_nolock, event_del, event_base_loopbreak. */
  function Do(b: Base, op: Op): (b': Base)
    ensures |b'.queues| == |b.queues| && b'.running == b.running
  {
    match op
    case Activate(e) =>
      if e.pri >= |b.queues| || e in b.queues[e.pri] then b
      else b.(cont := b.cont || e.pri < b.running, queues := b.queues[e.pri := b.queues[e.pri] + [e]])
    case Delete(e) =>
      if e.pri >= |b.queues| then b else b.(queues := b.queues[e.pri := Without(b.queues[e.pri], e)])
    case LoopBreak => b.(brk := true)
  }

  function DoAll(b: Base, ops: seq<Op>): (b': Base)
    ensures |b'.queues| == |b.queues| && b'.running == b.running
    decreases |ops|
  {
    if ops == [] then b else DoAll(Do(b, ops[0]), ops[1..])
  }

  /** An event taken from its queue, and all queues just before. */
  datatype Taken = Taken(e: Ev, queues: seq<seq<Ev>>)

  /** script: what happens during each callback, in turn; when it is used up the run is looked at no further. */
  datatype Outcome = Outcome(b: Base, script: seq<seq<Op>>, count: int, log: seq<Taken>)

  /** event_process_active_single_queue from some point on. */
  function RunQueue(b: Base, i: nat, script: seq<seq<Op>>, count: nat): (o: Outcome)
    requires i < |b.queues|
    ensures |o.b.queues| == |b.queues| && o.b.running == b.running && |o.log| + |o.script| == |script|
    decreases |script|
  {
    if b.queues[i] == [] || script == [] then Outcome(b, script, count, [])
    else
      var e := b.queues[i][0];
      var b1 := DoAll(b.(queues := b.queues[i := b.queues[i][1..]]), script[0]);
      var n := if e.internal then count else count + 1;
      var t := Taken(e, b.queues);
      if b1.brk then Outcome(b1, script[1..], -1, [t])
      else if b1.cont then Outcome(b1, script[1..], n, [t])
      else
        var o := RunQueue(b1, i, script[1..], n);
        o.(log := [t] + o.log)
  }

  /** The loop of event_process_active from queue i on. */
  function RunFrom(b: Base, i: nat, script: seq<seq<Op>>): (o: Outcome)
    requires i <= |b.queues|
    ensures |o.b.queues| == |b.queues| && |o.log| + |o.script| == |script|
    decreases |b.queues| - i
  {
    if i == |b.queues| then Outcome(b, script, 0, [])
    else if b.queues[i] == [] then RunFrom(b, i + 1, script)
    else
      var o := RunQueue(b.(running := i), i, script, 0);
      if o.count != 0 then o
      else
        var p := RunFrom(o.b, i + 1, o.script);
        p.(log := o.log + p.log)
  }

  function ProcessActive(b: Base, script: seq<seq<Op>>): (o: Outcome)
    ensures |o.b.queues| == |b.queues| && |o.log| + |o.script| == |script|
  {
    var o := RunFrom(b, 0, script);
    o.(b := o.b.(running := -1))
  }

  /** An outcome with earlier events before its log. */
  function Preceded(log: seq<Taken>, o: Outcome): Outcome
  {
    o.(log := log + o.log)
  }

  lemma PrecededTwice(log: seq<Taken>, more: seq<Taken>, o: Outcome)
    ensures Preceded(log, Preceded(more, o)) == Preceded(log + more, o)
    ensures Preceded([], o) == o && (o.log == [] ==> Preceded(log, o) == o.(log := log))
  {
    assert log + more + o.log == log + (more + o.log) && [] + o.log == o.log && log + [] == log;
  }

  /** One turn of the loop. */
  lemma RunQueueNext(b: Base, i: nat, script: seq<seq<Op>>, count: nat)
    requires i < |b.queues|
    ensures b.queues[i] == [] || script == [] ==> RunQueue(b, i, script, count) == Outcome(b, script, count, [])
    ensures b.queues[i] != [] && script != [] ==>
              var e := b.queues[i][0];
              var b1 := DoAll(b.(queues := b.queues[i := b.queues[i][1..]]), script[0]);
              var n := if e.internal then count else count + 1;
              RunQueue(b, i, script, count) == Preceded([Taken(e, b.queues)],
                if b1.brk then Outcome(b1, script[1..], -1, []) else if b1.cont then Outcome(b1, script[1..], n, [])
                else RunQueue(b1, i, script[1..], n))
  {
  }

  lemma RunFromNext(b: Base, i: nat, script: seq<seq<Op>>)
    requires i < |b.queues|
    ensures b.queues[i] == [] ==> RunFrom(b, i, script) == RunFrom(b, i + 1, script)
    ensures b.queues[i] != [] ==>
              var o := RunQueue(b.(running := i), i, script, 0);
              && |o.b.queues| == |b.queues|
              && RunFrom(b, i, script) == if o.count != 0 then o else Preceded(o.log, RunFrom(o.b, i + 1, o.script))
  {
  }

  /** event_process_active_single_queue */
  method ProcessSingleQueue(start: Base, i: nat, all: seq<seq<Op>>) returns (o: Outcome)
    requires i < |start.queues|
    ensures o == RunQueue(start, i, all, 0)
    ensures Sorted(start) && ScriptOk(all) && NoneBefore(start.queues, i) && start.running == i && !start.cont ==>
              AllTimely(o.log) && OnePriority(o.log, i)
  {
    hide RunQueue, Preceded, DoAll;
    if Sorted(start) && ScriptOk(all) && NoneBefore(start.queues, i) && start.running == i && !start.cont {
      RunQueueTimely(start, i, all, 0);
    }
    var b, script, log := start, all, [];
    var count: nat := 0;
    PrecededTwice([], [], RunQueue(start, i, all, 0));
    while b.queues[i] != [] && script != []
      invariant i < |b.queues|
      invariant RunQueue(start, i, all, 0) == Preceded(log, RunQueue(b, i, script, count))
      decreases |script|
    {
      var e := b.queues[i][0];
      RunQueueNext(b, i, script, count);
      ghost var before, t := log, Taken(e, b.queues);
      log := log + [Taken(e, b.queues)];
      b := b.(queues := b.queues[i := b.queues[i][1..]]);
      if !e.internal {
        count := count + 1;
      }
      b := DoAll(b, script[0]);
      script := script[1..];
      ghost var rest := if b.brk then Outcome(b, script, -1, []) else if b.cont then Outcome(b, script, count, [])
                        else RunQueue(b, i, script, count);
      PrecededTwice(before, [t], rest);
      PrecededTwice(log, [], rest);
      if b.brk {
        return Outcome(b, script, -1, log);
      }
      if b.cont {
        return Outcome(b, script, count, log);
      }
    }
    RunQueueNext(b, i, script, count);
    PrecededTwice(log, [], Outcome(b, script, count, []));
    o := Outcome(b, script, count, log);
  }

  /** event_process_active */
  method ProcessQueues(start: Base, all: seq<seq<Op>>) returns (o: Outcome)
    ensures o == ProcessActive(start, all)
    ensures Sorted(start) && ScriptOk(all) && !start.cont ==> AllTimely(o.log) && exists p :: OnePriority(o.log, p)
  {
    hide RunFrom, RunQueue;
    if Sorted(start) && ScriptOk(all) && !start.cont {
      MostUrgentFirst(start, all);
    }
    var b, script, log := start, all, [];
    var i := 0;
    PrecededTwice([], [], RunFrom(start, 0, all));
    while i < |b.queues|
      invariant 0 <= i <= |b.queues|
      invariant RunFrom(start, 0, all) == Preceded(log, RunFrom(b, i, script))
      decreases |b.queues| - i
    {
      RunFromNext(b, i, script);
      if b.queues[i] != [] {
        b := b.(running := i);
        var q := ProcessSingleQueue(b, i, script);
        PrecededTwice(log, q.log, RunFrom(q.b, i + 1, q.script));
        b, script, log := q.b, q.script, log + q.log;
        if q.count != 0 {
          return Outcome(b.(running := -1), script, q.count, log);
        }
      }
      i := i + 1;
    }
    RunFromEnd(b, script);
    PrecededTwice(log, [], Outcome(b, script, 0, []));
    o := Outcome(b.(running := -1), script, 0, log);
  }

  lemma RunFromEnd(b: Base, script: seq<seq<Op>>)
    ensures RunFrom(b, |b.queues|, script) == Outcome(b, script, 0, [])
  {
  }

  // ---- Nothing is taken while something more urgent is active

  ghost predicate NoneBefore(queues: seq<seq<Ev>>, i: nat)
  {
    forall j :: 0 <= j < i && j < |queues| ==> queues[j] == []
  }

  /** When t was taken, every more urgent queue was empty, and t was first in its own. */
  ghost predicate Timely(t: Taken)
  {
    t.e.pri < |t.queues| && NoneBefore(t.queues, t.e.pri) && t.queues[t.e.pri] != [] && t.queues[t.e.pri][0] == t.e
  }

  ghost predicate AllTimely(log: seq<Taken>)
  {
    forall k :: 0 <= k < |log| ==> Timely(log[k])
  }

  /** Events are in the queues of their priorities, and internal ones have priority 0. */
  ghost predicate Sorted(b: Base)
  {
    forall i, e :: 0 <= i < |b.queues| && e in b.queues[i] ==> e.pri == i && (e.internal ==> e.pri == 0)
  }

  /** Only events whose priority fits are ever made active. */
  ghost predicate OpsOk(ops: seq<Op>)
  {
    forall k :: 0 <= k < |ops| && ops[k].Activate? && ops[k].e.internal ==> ops[k].e.pri == 0
  }

  ghost predicate ScriptOk(script: seq<seq<Op>>)
  {
    forall k :: 0 <= k < |script| ==> OpsOk(script[k])
  }

  /** As long as event_continue is not set, nothing more urgent than the running priority has become active. */
  lemma {:induction false} DoAllKeeps(b: Base, ops: seq<Op>, i: nat)
    requires Sorted(b) && OpsOk(ops) && b.running == i && NoneBefore(b.queues, i) && !b.cont
    ensures var b' := DoAll(b, ops); Sorted(b') && (!b'.cont ==> NoneBefore(b'.queues, i)) && (i == 0 ==> !b'.cont)
    decreases |ops|
  {
    if ops != [] {
      DoKeeps(b, ops[0], i);
      var b1 := Do(b, ops[0]);
      if b1.cont {
        ContStays(b1, ops[1..]);
      } else {
        DoAllKeeps(b1, ops[1..], i);
      }
    }
  }

  lemma DoKeeps(b: Base, op: Op, i: nat)
    requires Sorted(b) && (op.Activate? && op.e.internal ==> op.e.pri == 0) && b.running == i && NoneBefore(b.queues, i) && !b.cont
    ensures var b' := Do(b, op); Sorted(b') && (!b'.cont ==> NoneBefore(b'.queues, i)) && (i == 0 ==> !b'.cont)
  {
  }

  lemma {:induction false} ContStays(b: Base, ops: seq<Op>)
    requires b.cont && Sorted(b) && OpsOk(ops)
    ensures DoAll(b, ops).cont && Sorted(DoAll(b, ops))
    decreases |ops|
  {
    if ops != [] {
      ContStays(Do(b, ops[0]), ops[1..]);
    }
  }

  /** Every event of the log has priority i, unless it is internal. */
  ghost predicate OnePriority(log: seq<Taken>, i: nat)
  {
    forall k :: 0 <= k < |log| && !log[k].e.internal ==> log[k].e.pri == i
  }

  lemma {:induction false} RunQueueTimely(b: Base, i: nat, script: seq<seq<Op>>, count: nat)
    requires i < |b.queues| && Sorted(b) && ScriptOk(script) && NoneBefore(b.queues, i) && b.running == i && !b.cont
    ensures var o := RunQueue(b, i, script, count);
            && |o.b.queues| == |b.queues| && AllTimely(o.log) && OnePriority(o.log, i) && Sorted(o.b) && ScriptOk(o.script)
            && (o.count == 0 ==> !o.b.cont && NoneBefore(o.b.queues, i) && (o.script == [] || o.b.queues[i] == []))
            && (o.count == 0 ==> forall k :: 0 <= k < |o.log| ==> o.log[k].e.internal)
            && (o.count == 0 ==> count == 0)
    decreases |script|
  {
    if b.queues[i] != [] && script != [] {
      var e := b.queues[i][0];
      assert e in b.queues[i];
      var b0 := b.(queues := b.queues[i := b.queues[i][1..]]);
      var b1 := DoAll(b0, script[0]);
      assert OpsOk(script[0]);
      DoAllKeeps(b0, script[0], i);
      if !b1.brk && !b1.cont {
        RunQueueTimely(b1, i, script[1..], if e.internal then count else count + 1);
      }
    }
  }

  lemma {:induction false} RunFromTimely(b: Base, i: nat, script: seq<seq<Op>>)
    requires i <= |b.queues| && Sorted(b) && ScriptOk(script) && !b.cont && (script == [] || NoneBefore(b.queues, i))
    ensures AllTimely(RunFrom(b, i, script).log) && exists p :: OnePriority(RunFrom(b, i, script).log, p)
    decreases |b.queues| - i
  {
    hide RunFrom, RunQueue, Timely, ScriptOk;
    if script == [] {
      NoScript(b, i);
      assert OnePriority(RunFrom(b, i, script).log, 0);
    } else if i == |b.queues| {
      RunFromEnd(b, script);
      assert OnePriority(RunFrom(b, i, script).log, 0);
    } else {
      RunFromNext(b, i, script);
      if b.queues[i] == [] {
        RunFromTimely(b, i + 1, script);
      } else {
        var b0 := b.(running := i);
        var o := RunQueue(b0, i, script, 0);
        RunQueueTimely(b0, i, script, 0);
        if o.count == 0 {
          RunFromTimely(o.b, i + 1, o.script);
          var q := RunFrom(o.b, i + 1, o.script);
          var p :| OnePriority(q.log, p);
          assert OnePriority(o.log + q.log, p);
        } else {
          assert OnePriority(RunFrom(b, i, script).log, i);
        }
      }
    }
  }

  lemma {:induction false} NoScript(b: Base, i: nat)
    requires i <= |b.queues|
    ensures RunFrom(b, i, []).log == []
    decreases |b.queues| - i
  {
    if i < |b.queues| {
      NoScript(b, i + 1);
      NoScript(b.(running := i), i + 1);
    }
  }

  /**
   * Whatever callbacks do: no event is taken while a more urgent one is active, and in one call of
   * event_process_active only events of one priority are run, internal ones aside.
   */
  lemma MostUrgentFirst(b: Base, script: seq<seq<Op>>)
    requires Sorted(b) && ScriptOk(script) && !b.cont
    ensures AllTimely(ProcessActive(b, script).log) && exists p :: OnePriority(ProcessActive(b, script).log, p)
  {
    RunFromTimely(b, 0, script);
  }

  /** Events are in the queues of their priorities, and internal ones, here and to come, have priority p. */
  ghost predicate InternalAt(b: Base, script: seq<seq<Op>>, p: nat)
  {
    && (forall i, e :: 0 <= i < |b.queues| && e in b.queues[i] ==> e.pri == i && (e.internal ==> e.pri == p))
    && (forall k, n :: 0 <= k < |script| && 0 <= n < |script[k]| && script[k][n].Activate? && script[k][n].e.internal ==>
          script[k][n].e.pri == p)
  }

  ghost predicate HasInternal(b: Base)
  {
    exists i, e :: 0 <= i < |b.queues| && e in b.queues[i] && e.internal
  }

  /** An event of the user was run while a more urgent queue held something. */
  ghost predicate JumpsAhead(t: Taken)
  {
    !t.e.internal && exists j :: 0 <= j < t.e.pri && j < |t.queues| && t.queues[j] != []
  }

  /** With internal events of any other priority p: one lets a less urgent event past an urgent one. */
  lemma InternalElsewhere(p: nat) returns (b: Base, script: seq<seq<Op>>)
    requires p > 0
    ensures InternalAt(b, script, p) && HasInternal(b) && b.running == -1 && !b.cont && !b.brk
    ensures exists k :: 0 <= k < |ProcessActive(b, script).log| && JumpsAhead(ProcessActive(b, script).log[k])
    ensures !AllTimely(ProcessActive(b, script).log)
  {
    var mine, slow, urgent := Ev(0, p, true), Ev(1, p + 1, false), Ev(2, 0, false);
    var empty: seq<seq<Ev>> := seq(p + 2, _ => []);
    b := Base(empty[p := [mine]][p + 1 := [slow]], -1, false, false);
    script := [[Activate(urgent)], []];
    assert b.queues[p] == [mine] && mine in b.queues[p];
    SkipEmpty(b, 0, p, script);
    var b0 := b.(running := p);
    var o := RunQueue(b0, p, script, 0);
    var taken := b0.(queues := b0.queues[p := []]);
    assert b0.queues[p][1..] == [];
    assert DoAll(taken, script[0]) == DoAll(Do(taken, Activate(urgent)), []);
    var b1 := Do(taken, Activate(urgent));
    assert script[0][1..] == [] && b1.cont && b1.queues[0] == [urgent] && b1.queues[p + 1] == [slow];
    assert o == Outcome(b1, script[1..], 0, [Taken(mine, b0.queues)]);
    var q := RunFrom(b1, p + 1, [[]]);
    assert script[1..] == [[]];
    var t := Taken(slow, b1.(running := p + 1).queues);
    assert RunQueue(b1.(running := p + 1), p + 1, [[]], 0).log[0] == t;
    assert q.log[0] == t && !Timely(t) && t.queues[0] == [urgent];
    var log := ProcessActive(b, script).log;
    assert log == o.log + q.log;
    assert log[1] == t && JumpsAhead(log[1]);
  }

  /** Whatever runs, nothing is taken while something more urgent is active. */
  ghost predicate AlwaysTimely(p: nat)
  {
    forall b, script :: InternalAt(b, script, p) && !b.cont ==> AllTimely(ProcessActive(b, script).log)
  }

  /** 0 is the one priority for internal events with which that is so. */
  lemma InternalPriority(p: nat)
    ensures AlwaysTimely(p) <==> p == 0
  {
    if p == 0 {
      forall b, script | InternalAt(b, script, p) && !b.cont ensures AllTimely(ProcessActive(b, script).log) {
        assert ScriptOk(script);
        MostUrgentFirst(b, script);
      }
    } else {
      var b, script := InternalElsewhere(p);
    }
  }

  lemma {:induction false} SkipEmpty(b: Base, i: nat, p: nat, script: seq<seq<Op>>)
    requires i <= p < |b.queues| && forall j :: 0 <= j < p ==> b.queues[j] == []
    ensures RunFrom(b, i, script) == RunFrom(b, p, script)
    decreases p - i
  {
    if i < p { SkipEmpty(b, i + 1, p, script); }
  }
}
