/**
 * A rate-limit group and its members, as threads see them: the group lock nests inside the locks of the
 * bufferevents, so suspending and unsuspending only try those locks and pass over the ones that are held.
 * One direction is modelled; reading and writing are alike.
 */
module RateGroup {
  import opened Seqs
  import opened TokenBucket

  type Bev = nat

  /** What the holder of the group lock is doing. */
  datatype Phase = Idle | Suspending(left: seq<Bev>) | Unsuspending(todo: seq<Bev>, again: bool)

  datatype Group = Group(
    members: seq<Bev>,
    flagged: set<Bev>,         // BEV_SUSPEND_BW_GROUP in read_suspended
    locked: set<Bev>,          // locks of bufferevents held by threads that do not hold the group lock
    joining: map<Bev, bool>,   // threads in bufferevent_add_to_rate_limit_group between the two locks: rsuspend
    suspended: bool,           // read_suspended of the group
    pending: bool,             // pending_unsuspend_read
    phase: Phase)

  /** The steps of all threads. own is a bufferevent whose lock the thread that takes the step holds already, if any. */
  datatype Step =
    | Lock(m: Bev) | Unlock(m: Bev)
    | BeginSuspend | SuspendOne(own: set<Bev>) | EndSuspend
    | BeginUnsuspend(which: nat) | UnsuspendOne(own': set<Bev>) | EndUnsuspend
    | Notice(m: Bev)
    | Join(m: Bev) | FinishJoin(m: Bev)
    | Leave(m: Bev)

  /** FOREACH_RANDOM_ORDER: from a random member to the end, then from the start up to it. */
  function RandomOrder(members: seq<Bev>, which: nat): (order: seq<Bev>)
    ensures multiset(order) == multiset(members)
    ensures forall m :: m in order <==> m in members
  {
    var k := if |members| == 0 then 0 else which % |members|;
    assert members == members[..k] + members[k..];
    members[k..] + members[..k]
  }

  /** A try-lock succeeds on a lock that is free, or that the thread holds itself. */
  predicate CanLock(g: Group, own: set<Bev>, m: Bev)
  {
    m !in g.locked || m in own
  }

  predicate Enabled(g: Group, s: Step)
  {
    match s
    case Lock(m) => m !in g.locked
    case Unlock(m) => m in g.locked && m !in g.joining
    case BeginSuspend => g.phase.Idle?
    case SuspendOne(own) => g.phase.Suspending? && g.phase.left != [] && own <= g.locked && own !! g.joining.Keys
    case EndSuspend => g.phase == Suspending([])
    case BeginUnsuspend(which) => g.phase.Idle? && (g.pending || g.suspended)
    case UnsuspendOne(own) => g.phase.Unsuspending? && g.phase.todo != [] && own <= g.locked && own !! g.joining.Keys
    case EndUnsuspend => g.phase.Unsuspending? && g.phase.todo == []
    case Notice(m) => g.phase.Idle? && m in g.members && m in g.locked && m !in g.joining
    case Join(m) => g.phase.Idle? && m !in g.members && m in g.locked && m !in g.joining && m !in g.flagged
    case FinishJoin(m) => m in g.joining
    case Leave(m) => g.phase.Idle? && m in g.members && m in g.locked && m !in g.joining
  }

  function Apply(g: Group, s: Step): Group
    requires Enabled(g, s)
  {
    match s
    case Lock(m) => g.(locked := g.locked + {m})
    case Unlock(m) => g.(locked := g.locked - {m})
    case BeginSuspend => g.(suspended := true, pending := false, phase := Suspending(g.members))
    case SuspendOne(own) =>
      var m := g.phase.left[0];
      g.(flagged := if CanLock(g, own, m) then g.flagged + {m} else g.flagged, phase := Suspending(g.phase.left[1..]))
    case EndSuspend => g.(phase := Idle)
    case BeginUnsuspend(which) => g.(suspended := false, phase := Unsuspending(RandomOrder(g.members, which), false))
    case UnsuspendOne(own) =>
      var m := g.phase.todo[0];
      if CanLock(g, own, m) then g.(flagged := g.flagged - {m}, phase := g.phase.(todo := g.phase.todo[1..]))
      else g.(phase := Unsuspending(g.phase.todo[1..], true))
    case EndUnsuspend => g.(pending := g.phase.again, phase := Idle)
    case Notice(m) => if g.suspended then g.(flagged := g.flagged + {m}) else g
    case Join(m) => g.(members := g.members + [m], joining := g.joining[m := g.suspended])
    case FinishJoin(m) =>
      g.(flagged := if g.joining[m] then g.flagged + {m} else g.flagged,
         joining := g.joining - {m}, locked := g.locked - {m})
    case Leave(m) => g.(members := Without(g.members, m), flagged := g.flagged - {m})
  }

  /** A member is suspended on behalf of the group, or is about to be. */
  predicate Held(g: Group, m: Bev)
  {
    m in g.flagged || (m in g.joining && g.joining[m])
  }

  /** Somebody will let m go: the group is suspended, or will be gone over again, or m is still to come. */
  predicate Remembered(g: Group, m: Bev)
  {
    if g.phase.Unsuspending? then g.phase.again || m in g.phase.todo else g.suspended || g.pending
  }

  ghost predicate Inv(g: Group)
  {
    && (forall m :: m in g.members && Held(g, m) ==> Remembered(g, m))
    && g.joining.Keys <= g.locked && NoDup(g.members)
    && (g.phase.Suspending? ==> g.suspended)
    && (g.phase.Unsuspending? ==> !g.suspended)
  }

  lemma StepKeeps(g: Group, s: Step)
    requires Inv(g) && Enabled(g, s)
    ensures Inv(Apply(g, s))
  {
    var h := Apply(g, s);
    forall m | m in h.members && Held(h, m) ensures Remembered(h, m) {
      if m in g.members && Held(g, m) {
        assert Remembered(g, m);
        if s.UnsuspendOne? {
          assert g.phase.todo == [g.phase.todo[0]] + g.phase.todo[1..];
        }
      }
    }
    if s.Leave? { WithoutIs(g.members, s.m); }
  }

  ghost predicate Possible(g: Group, steps: seq<Step>)
    decreases |steps|
  {
    steps == [] || (Enabled(g, steps[0]) && Possible(Apply(g, steps[0]), steps[1..]))
  }

  ghost function Run(g: Group, steps: seq<Step>): Group
    requires Possible(g, steps)
    decreases |steps|
  {
    if steps == [] then g else Run(Apply(g, steps[0]), steps[1..])
  }

  function NewGroup(locked: set<Bev>): Group
  {
    Group([], {}, locked, map[], false, false, Idle)
  }

  /** In every interleaving of all threads, a member held back for its group is never forgotten. */
  lemma {:induction false} NeverForgotten(g: Group, steps: seq<Step>)
    requires Inv(g) && Possible(g, steps)
    ensures Inv(Run(g, steps))
    decreases |steps|
  {
    if steps != [] {
      StepKeeps(g, steps[0]);
      NeverForgotten(Apply(g, steps[0]), steps[1..]);
    }
  }

  lemma StartsRight(locked: set<Bev>)
    ensures Inv(NewGroup(locked))
  {
  }

  // ---- The locks of the members

  /** Step s is taken by a thread that holds the lock of m, or takes it for the step. */
  predicate Under(g: Group, s: Step, m: Bev)
  {
    match s
    case SuspendOne(own) => m !in g.locked || m in own
    case UnsuspendOne(own) => m !in g.locked || m in own
    case Notice(x) => x == m
    case FinishJoin(x) => x == m
    case Leave(x) => x == m
    case _ => false
  }

  /** Nobody touches what holds a member back without its lock. */
  lemma LockRespected(g: Group, s: Step, m: Bev)
    requires Enabled(g, s) && !Under(g, s, m)
    ensures m in Apply(g, s).flagged <==> m in g.flagged
  {
  }

  lemma {:induction false} LockedUntilReleased(g: Group, steps: seq<Step>, m: Bev)
    requires Possible(g, steps) && m in g.locked && Unlock(m) !in steps && FinishJoin(m) !in steps
    ensures m in Run(g, steps).locked && Lock(m) !in steps
    decreases |steps|
  {
    if steps != [] {
      assert steps[0] in steps && forall s <- steps[1..] :: s in steps;
      LockedUntilReleased(Apply(g, steps[0]), steps[1..], m);
      assert steps == [steps[0]] + steps[1..];
    }
  }

  /** A lock that has been taken cannot be taken by another thread before it is released. */
  lemma OneHolder(g: Group, m: Bev, steps: seq<Step>)
    requires Enabled(g, Lock(m)) && Possible(Apply(g, Lock(m)), steps)
    ensures Lock(m) in steps ==> Unlock(m) in steps || FinishJoin(m) in steps
  {
    if Unlock(m) !in steps && FinishJoin(m) !in steps {
      LockedUntilReleased(Apply(g, Lock(m)), steps, m);
    }
  }

  lemma ReleasedIsFree(g: Group, m: Bev)
    ensures Enabled(g, Unlock(m)) ==> Enabled(Apply(g, Unlock(m)), Lock(m))
    ensures Enabled(g, FinishJoin(m)) ==> Enabled(Apply(g, FinishJoin(m)), Lock(m))
  {
  }

  // ---- A suspended group holds its members back

  /** It is the turn of m in a pass that suspends, or in one that lets go. */
  ghost predicate TurnOf(g: Group, s: Step, m: Bev)
  {
    || (s.SuspendOne? && g.phase.Suspending? && g.phase.left != [] && g.phase.left[0] == m)
    || (s.UnsuspendOne? && g.phase.Unsuspending? && g.phase.todo != [] && g.phase.todo[0] == m)
  }

  /** The locks that the thread which takes the step holds already. */
  function OwnOf(s: Step): set<Bev>
  {
    match s
    case SuspendOne(own) => own
    case UnsuspendOne(own) => own
    case _ => {}
  }

  /** At the turn of m, which is step k, nobody else held its lock. */
  ghost predicate Reached(g: Group, steps: seq<Step>, k: nat, m: Bev)
    requires Possible(g, steps) && k < |steps|
  {
    PossibleUpTo(g, steps, k);
    var h := Run(g, steps[..k]);
    TurnOf(h, steps[k], m) && (m !in h.locked || m in OwnOf(steps[k]))
  }

  ghost predicate Missed(g: Group, steps: seq<Step>, k: nat, m: Bev)
    requires Possible(g, steps) && k < |steps|
  {
    PossibleUpTo(g, steps, k);
    var h := Run(g, steps[..k]);
    TurnOf(h, steps[k], m) && m in h.locked && m !in OwnOf(steps[k])
  }

  lemma {:induction false} PossibleUpTo(g: Group, steps: seq<Step>, k: nat)
    requires Possible(g, steps) && k <= |steps|
    ensures Possible(g, steps[..k]) && Possible(Run(g, steps[..k]), steps[k..])
    ensures k < |steps| ==> Enabled(Run(g, steps[..k]), steps[k])
    decreases k
  {
    if k > 0 {
      PossibleUpTo(Apply(g, steps[0]), steps[1..], k - 1);
      assert steps[..k][1..] == steps[1..][..k - 1] && steps[1..][k - 1..] == steps[k..];
    } else {
      assert steps[..0] == [] && steps[0..] == steps;
    }
  }

  /** The end of a run after its first step. */
  lemma ReachedNext(g: Group, steps: seq<Step>, k: nat, m: Bev)
    requires Possible(g, steps) && k + 1 < |steps|
    ensures Reached(g, steps, k + 1, m) == Reached(Apply(g, steps[0]), steps[1..], k, m)
    ensures Missed(g, steps, k + 1, m) == Missed(Apply(g, steps[0]), steps[1..], k, m)
  {
    PossibleUpTo(g, steps, k + 1);
    PossibleUpTo(Apply(g, steps[0]), steps[1..], k);
    assert steps[..k + 1][1..] == steps[1..][..k] && steps[1..][k] == steps[k + 1];
    assert steps[..k + 1] != [] && steps[..k + 1][0] == steps[0];
  }

  /** Nobody leaves, and no pass lets go. */
  ghost predicate NoLetting(steps: seq<Step>, m: Bev)
  {
    forall k :: 0 <= k < |steps| ==> !steps[k].BeginUnsuspend? && steps[k] != Leave(m)
  }

  /** As long as the group stays suspended, a member that is held stays held, unless it leaves. */
  lemma {:induction false} StaysHeld(g: Group, steps: seq<Step>, m: Bev)
    requires Inv(g) && Possible(g, steps) && NoLetting(steps, m)
    requires g.suspended && m in g.members && Held(g, m)
    ensures var h := Run(g, steps); Inv(h) && h.suspended && m in h.members && Held(h, m)
    ensures m in g.flagged || FinishJoin(m) in steps ==> m in Run(g, steps).flagged
    decreases |steps|
  {
    if steps != [] {
      StepKeeps(g, steps[0]);
      var h := Apply(g, steps[0]);
      assert steps[0] != Leave(m) && !steps[0].BeginUnsuspend?;
      if steps[0].Leave? { WithoutIs(g.members, steps[0].m); }
      assert NoLetting(steps[1..], m) by {
        forall k | 0 <= k < |steps[1..]| ensures !steps[1..][k].BeginUnsuspend? && steps[1..][k] != Leave(m) {
          assert steps[1..][k] == steps[k + 1];
        }
      }
      StaysHeld(h, steps[1..], m);
      assert FinishJoin(m) in steps ==> steps[0] == FinishJoin(m) || FinishJoin(m) in steps[1..];
    }
  }

  /** A member that looks at its limit while the group is suspended is held back from then on. */
  lemma NoticedIsHeld(g: Group, m: Bev, steps: seq<Step>)
    requires Inv(g) && g.suspended && Enabled(g, Notice(m)) && Possible(Apply(g, Notice(m)), steps) && NoLetting(steps, m)
    ensures m in Run(Apply(g, Notice(m)), steps).flagged
  {
    StepKeeps(g, Notice(m));
    StaysHeld(Apply(g, Notice(m)), steps, m);
  }

  /** So is one that joins then, once it has finished joining. */
  lemma JoinedIsHeld(g: Group, m: Bev, steps: seq<Step>)
    requires Inv(g) && g.suspended && Enabled(g, Join(m)) && Possible(Apply(g, Join(m)), steps) && NoLetting(steps, m)
    ensures var h := Run(Apply(g, Join(m)), steps);
            m in h.members && Held(h, m) && (FinishJoin(m) in steps ==> m in h.flagged)
  {
    StepKeeps(g, Join(m));
    StaysHeld(Apply(g, Join(m)), steps, m);
  }

  /** While nothing is suspended, looking and joining hold nobody back. */
  lemma FreeStaysFree(g: Group, m: Bev)
    requires !g.suspended && m !in g.flagged
    ensures Enabled(g, Notice(m)) ==> m !in Apply(g, Notice(m)).flagged
    ensures Enabled(g, Join(m)) ==> m in Apply(g, Join(m)).members && !Held(Apply(g, Join(m)), m)
  {
  }

  /** The pass goes on. */
  ghost predicate InPass(steps: seq<Step>)
  {
    forall k :: 0 <= k < |steps| ==> !steps[k].EndSuspend? && !steps[k].EndUnsuspend?
  }

  lemma InPassNext(steps: seq<Step>)
    requires InPass(steps) && steps != []
    ensures InPass(steps[1..]) && !steps[0].EndSuspend? && !steps[0].EndUnsuspend?
  {
    forall k | 0 <= k < |steps[1..]| ensures !steps[1..][k].EndSuspend? && !steps[1..][k].EndUnsuspend? {
      assert steps[1..][k] == steps[k + 1];
    }
  }

  /** The next step of the pass that is going on. */
  function NextOf(g: Group): Step
    requires !g.phase.Idle?
  {
    match g.phase
    case Suspending(left) => if left == [] then EndSuspend else SuspendOne({})
    case Unsuspending(todo, _) => if todo == [] then EndUnsuspend else UnsuspendOne({})
  }

  /** The steps a pass still takes. */
  function StepsLeft(g: Group): nat
  {
    match g.phase
    case Idle => 0
    case Suspending(left) => 1 + |left|
    case Unsuspending(todo, _) => 1 + |todo|
  }

  /** Whoever holds which lock, a pass can go on, and no step of others makes it longer; so it comes to its end. */
  lemma NeverBlocks(g: Group, s: Step)
    requires !g.phase.Idle?
    ensures Enabled(g, NextOf(g)) && StepsLeft(Apply(g, NextOf(g))) == StepsLeft(g) - 1
    ensures Enabled(g, s) ==> StepsLeft(Apply(g, s)) <= StepsLeft(g)
  {
  }

  /** What happens while a pass to suspend goes on: who is flagged stays so, and each whose turn has come was reached or missed. */
  lemma {:induction false} SuspendingPass(g: Group, steps: seq<Step>)
    requires Possible(g, steps) && InPass(steps) && g.phase.Suspending?
    ensures var h := Run(g, steps);
            && h.phase.Suspending? && h.members == g.members && g.flagged <= h.flagged && h.pending == g.pending
            && (forall m :: m in g.phase.left && m !in h.phase.left ==>
                  m in h.flagged || exists k :: 0 <= k < |steps| && Missed(g, steps, k, m))
    ensures forall k, m :: 0 <= k < |steps| && Reached(g, steps, k, m) ==> m in Run(g, steps).flagged
    decreases |steps|
  {
    if steps != [] {
      InPassNext(steps);
      var e := Apply(g, steps[0]);
      SuspendingPass(e, steps[1..]);
      var h := Run(g, steps);
      assert Run(g, steps[..0]) == g;
      forall m | m in g.phase.left && m !in h.phase.left
        ensures m in h.flagged || exists k :: 0 <= k < |steps| && Missed(g, steps, k, m)
      {
        if m in e.phase.left {
          if m !in h.flagged {
            var k :| 0 <= k < |steps[1..]| && Missed(e, steps[1..], k, m);
            ReachedNext(g, steps, k, m);
            assert Missed(g, steps, k + 1, m);
          }
        } else {
          assert g.phase.left == [g.phase.left[0]] + g.phase.left[1..];
          assert m in e.flagged || Missed(g, steps, 0, m);
        }
      }
      forall k, m | 0 <= k < |steps| && Reached(g, steps, k, m) ensures m in h.flagged {
        if k > 0 { ReachedNext(g, steps, k - 1, m); }
      }
    }
  }

  /**
   * From the beginning of a pass that suspends to its end, whatever others do: each member has its turn, and is held
   * back unless somebody else holds its lock then.
   */
  lemma SuspendHolds(g: Group, steps: seq<Step>)
    requires Inv(g) && Enabled(g, BeginSuspend) && InPass(steps)
    requires Possible(Apply(g, BeginSuspend), steps) && Enabled(Run(Apply(g, BeginSuspend), steps), EndSuspend)
    ensures var b := Apply(g, BeginSuspend); var h := Apply(Run(b, steps), EndSuspend);
            && h.suspended && !h.pending && h.members == g.members && g.flagged <= h.flagged
            && (forall k, m :: 0 <= k < |steps| && Reached(b, steps, k, m) ==> m in h.flagged)
            && (forall m :: m in g.members ==> m in h.flagged || exists k :: 0 <= k < |steps| && Missed(b, steps, k, m))
  {
    var b := Apply(g, BeginSuspend);
    StepKeeps(g, BeginSuspend);
    NeverForgotten(b, steps);
    SuspendingPass(b, steps);
  }

  /** With no lock held anywhere, all of them are. */
  lemma SuspendHoldsAll(g: Group, steps: seq<Step>)
    requires Inv(g) && Enabled(g, BeginSuspend) && InPass(steps) && g.locked == {} && forall s <- steps :: !s.Lock?
    requires Possible(Apply(g, BeginSuspend), steps) && Enabled(Run(Apply(g, BeginSuspend), steps), EndSuspend)
    ensures var h := Apply(Run(Apply(g, BeginSuspend), steps), EndSuspend); forall m :: m in g.members ==> m in h.flagged
  {
    var b := Apply(g, BeginSuspend);
    SuspendHolds(g, steps);
    forall k, m | 0 <= k < |steps| ensures !Missed(b, steps, k, m) {
      PossibleUpTo(b, steps, k);
      assert forall s <- steps[..k] :: s in steps;
      NoLocks(b, steps[..k]);
    }
  }

  lemma {:induction false} NoLocks(g: Group, steps: seq<Step>)
    requires Possible(g, steps) && g.locked == {} && forall s <- steps :: !s.Lock?
    ensures Run(g, steps).locked == {}
    decreases |steps|
  {
    if steps != [] {
      assert steps[0] in steps && forall s <- steps[1..] :: s in steps;
      NoLocks(Apply(g, steps[0]), steps[1..]);
    }
  }

  // ---- A pass that lets go

  /** While it goes on, whoever was reached is not held, and it is to be gone over again exactly if somebody was missed. */
  lemma {:induction false} UnsuspendingPass(g: Group, steps: seq<Step>)
    requires Inv(g) && Possible(g, steps) && InPass(steps) && g.phase.Unsuspending?
    ensures var h := Run(g, steps);
            && h.phase.Unsuspending? && h.members == g.members && h.suspended == g.suspended
            && (forall m :: !Held(g, m) ==> !Held(h, m))
            && (h.phase.again <==> g.phase.again || exists k, m :: 0 <= k < |steps| && Missed(g, steps, k, m))
            && (forall m :: m in g.phase.todo && m !in h.phase.todo ==> !Held(h, m) || exists k :: 0 <= k < |steps| && Missed(g, steps, k, m))
    ensures forall k, m :: 0 <= k < |steps| && Reached(g, steps, k, m) ==> !Held(Run(g, steps), m)
    decreases |steps|
  {
    if steps != [] {
      InPassNext(steps);
      StepKeeps(g, steps[0]);
      var e := Apply(g, steps[0]);
      UnsuspendingPass(e, steps[1..]);
      var h := Run(g, steps);
      assert Run(g, steps[..0]) == g;
      MissedFirst(g, steps);
      forall m | m in g.phase.todo && m !in h.phase.todo
        ensures !Held(h, m) || exists k :: 0 <= k < |steps| && Missed(g, steps, k, m)
      {
        TurnCame(g, steps, m);
      }
      forall k, m | 0 <= k < |steps| && Reached(g, steps, k, m) ensures !Held(h, m) {
        if k > 0 { ReachedNext(g, steps, k - 1, m); }
      }
    }
  }

  lemma TurnCame(g: Group, steps: seq<Step>, m: Bev)
    requires Inv(g) && Possible(g, steps) && steps != [] && g.phase.Unsuspending? && !steps[0].EndUnsuspend?
    requires var e, h := Apply(g, steps[0]), Run(g, steps);
             && (!Held(e, m) ==> !Held(h, m)) && e.phase.Unsuspending? && h.phase.Unsuspending?
             && (m in e.phase.todo && m !in h.phase.todo ==> !Held(h, m) || exists k :: 0 <= k < |steps[1..]| && Missed(e, steps[1..], k, m))
             && m in g.phase.todo && m !in h.phase.todo
    ensures !Held(Run(g, steps), m) || exists k :: 0 <= k < |steps| && Missed(g, steps, k, m)
  {
    var e, h := Apply(g, steps[0]), Run(g, steps);
    assert Run(g, steps[..0]) == g;
    if m in e.phase.todo {
      if Held(h, m) {
        var k :| 0 <= k < |steps[1..]| && Missed(e, steps[1..], k, m);
        ReachedNext(g, steps, k, m);
        assert Missed(g, steps, k + 1, m);
      }
    } else {
      assert g.phase.todo == [g.phase.todo[0]] + g.phase.todo[1..];
      assert !Held(e, m) || Missed(g, steps, 0, m);
    }
  }

  lemma MissedFirst(g: Group, steps: seq<Step>)
    requires Inv(g) && Possible(g, steps) && steps != [] && g.phase.Unsuspending? && !steps[0].EndUnsuspend?
    ensures var e := Apply(g, steps[0]);
            && e.phase.Unsuspending?
            && ((e.phase.again || exists k, m :: 0 <= k < |steps[1..]| && Missed(e, steps[1..], k, m))
                <==> (g.phase.again || exists k, m :: 0 <= k < |steps| && Missed(g, steps, k, m)))
  {
    var e := Apply(g, steps[0]);
    assert Run(g, steps[..0]) == g;
    if m :| Missed(g, steps, 0, m) {
      assert e.phase.again;
    }
    if e.phase.again && !g.phase.again {
      assert Missed(g, steps, 0, g.phase.todo[0]);
    }
    if k, m :| 0 <= k < |steps[1..]| && Missed(e, steps[1..], k, m) {
      ReachedNext(g, steps, k, m);
      assert Missed(g, steps, k + 1, m);
    }
    if k, m :| 0 <= k < |steps| && Missed(g, steps, k, m) {
      if k > 0 {
        ReachedNext(g, steps, k - 1, m);
        assert Missed(e, steps[1..], k - 1, m);
      } else {
        assert e.phase.again;
      }
    }
  }

  /**
   * From the beginning of a pass that lets go to its end, whatever others do: each member has its turn and is free
   * then, unless somebody else holds its lock; exactly if that happens will the group be gone over again.
   */
  lemma UnsuspendFrees(g: Group, which: nat, steps: seq<Step>)
    requires Inv(g) && Enabled(g, BeginUnsuspend(which)) && InPass(steps)
    requires Possible(Apply(g, BeginUnsuspend(which)), steps) && Enabled(Run(Apply(g, BeginUnsuspend(which)), steps), EndUnsuspend)
    ensures var b := Apply(g, BeginUnsuspend(which)); var h := Apply(Run(b, steps), EndUnsuspend);
            && !h.suspended && h.members == g.members
            && (forall k, m :: 0 <= k < |steps| && Reached(b, steps, k, m) ==> !Held(h, m))
            && (forall m :: m in g.members ==> !Held(h, m) || exists k :: 0 <= k < |steps| && Missed(b, steps, k, m))
            && (h.pending <==> exists k, m :: 0 <= k < |steps| && Missed(b, steps, k, m))
  {
    var b := Apply(g, BeginUnsuspend(which));
    StepKeeps(g, BeginUnsuspend(which));
    UnsuspendingPass(b, steps);
  }

  /** Whoever leaves is no member, and not held; the others stay as they are. */
  lemma LeaverIsFree(g: Group, m: Bev)
    requires Inv(g) && Enabled(g, Leave(m))
    ensures var h := Apply(g, Leave(m));
            && m !in h.members && !Held(h, m)
            && forall x :: x != m ==> (x in h.members <==> x in g.members) && (Held(h, x) <==> Held(g, x))
  {
    WithoutIs(g.members, m);
  }

  /** No member is held back for the group. */
  ghost predicate AllFree(g: Group)
  {
    forall m :: m in g.members ==> m !in g.flagged
  }

  // ---- A pass that no lock stands in the way of lets every member go

  /** The steps of _bev_group_unsuspend_reading from here to its end, with no lock held elsewhere. */
  ghost function Finish(g: Group): Group
    requires g.phase.Unsuspending?
    decreases |g.phase.todo|
  {
    if g.phase.todo == [] then Apply(g, EndUnsuspend)
    else if Enabled(g, UnsuspendOne({})) then Finish(Apply(g, UnsuspendOne({}))) else g
  }

  lemma {:induction false} FinishFrees(g: Group)
    requires g.phase.Unsuspending? && !g.phase.again && g.locked == {} && g.joining == map[]
    ensures var h := Finish(g);
            && h.phase.Idle? && h.members == g.members && h.suspended == g.suspended && !h.pending
            && h.locked == {} && h.joining == map[]
            && forall m :: m in h.flagged <==> m in g.flagged && m !in g.phase.todo
    decreases |g.phase.todo|
  {
    if g.phase.todo != [] {
      assert g.phase.todo == [g.phase.todo[0]] + g.phase.todo[1..];
      FinishFrees(Apply(g, UnsuspendOne({})));
    }
  }

  /** A tick of the group: tokens, then _bev_group_refill_callback. */
  ghost function Tick(g: Group, limit: int, cfg: Cfg, minShare: int, which: nat): (Group, int)
    requires g.phase.Idle?
  {
    var limit' := Min(cfg.maximum, limit + cfg.rate);
    (if g.pending || (g.suspended && limit' >= minShare) then Finish(Apply(g, BeginUnsuspend(which))) else g, limit')
  }

  ghost function Ticks(g: Group, limit: int, cfg: Cfg, minShare: int, which: seq<nat>): (Group, int)
    requires g.phase.Idle? && g.locked == {} && g.joining == map[]
    decreases |which|
  {
    if which == [] then (g, limit)
    else
      TickFrees(g, limit, cfg, minShare, which[0]);
      var (h, l) := Tick(g, limit, cfg, minShare, which[0]);
      Ticks(h, l, cfg, minShare, which[1..])
  }

  lemma TickFrees(g: Group, limit: int, cfg: Cfg, minShare: int, which: nat)
    requires g.phase.Idle? && g.locked == {} && g.joining == map[]
    ensures var (h, l) := Tick(g, limit, cfg, minShare, which);
            && h.phase.Idle? && h.locked == {} && h.joining == map[] && h.members == g.members
            && (g.pending || (g.suspended && l >= minShare) ==> !h.suspended && !h.pending && AllFree(h))
            && (!g.pending && !(g.suspended && l >= minShare) ==> h == g)
  {
    if g.pending || (g.suspended && Min(cfg.maximum, limit + cfg.rate) >= minShare) {
      FinishFrees(Apply(g, BeginUnsuspend(which)));
    }
  }

  /**
   * However far below zero the group's bucket is, a group whose members are left alone lets all of them go within
   * the ticks that bring the bucket to the smallest share.
   */
  lemma {:induction false} EventuallyFree(g: Group, limit: int, cfg: Cfg, minShare: int, which: seq<nat>)
    requires Inv(g) && g.phase.Idle? && g.locked == {} && g.joining == map[]
    requires Configured(cfg) && minShare <= cfg.rate && limit <= cfg.maximum
    requires which != [] && limit + |which| * cfg.rate >= minShare
    ensures AllFree(Ticks(g, limit, cfg, minShare, which).0)
    decreases |which|
  {
    hide Tick, Ticks, Inv, AllFree;
    TickFrees(g, limit, cfg, minShare, which[0]);
    var (h, l) := Tick(g, limit, cfg, minShare, which[0]);
    TicksFirst(g, limit, cfg, minShare, which);
    if g.pending || (g.suspended && l >= minShare) {
      StaysFree(h, l, cfg, minShare, which[1..]);
    } else if !g.suspended {
      NothingHeld(g);
      StaysFree(h, l, cfg, minShare, which[1..]);
    } else {
      Distribute(1, |which| - 1, cfg.rate);
      EventuallyFree(h, l, cfg, minShare, which[1..]);
    }
  }

  lemma TicksFirst(g: Group, limit: int, cfg: Cfg, minShare: int, which: seq<nat>)
    requires g.phase.Idle? && g.locked == {} && g.joining == map[] && which != []
    ensures var (h, l) := Tick(g, limit, cfg, minShare, which[0]);
            && l == Min(cfg.maximum, limit + cfg.rate) && h.phase.Idle? && h.locked == {} && h.joining == map[]
            && Ticks(g, limit, cfg, minShare, which) == Ticks(h, l, cfg, minShare, which[1..])
  {
    TickFrees(g, limit, cfg, minShare, which[0]);
  }

  lemma NothingHeld(g: Group)
    requires Inv(g) && g.phase.Idle? && !g.suspended && !g.pending
    ensures AllFree(g)
  {
    forall m | m in g.members ensures m !in g.flagged { assert Held(g, m) ==> Remembered(g, m); }
  }

  lemma {:induction false} StaysFree(g: Group, limit: int, cfg: Cfg, minShare: int, which: seq<nat>)
    requires g.phase.Idle? && g.locked == {} && g.joining == map[] && !g.suspended && !g.pending
    requires AllFree(g)
    ensures AllFree(Ticks(g, limit, cfg, minShare, which).0)
    decreases |which|
  {
    if which != [] {
      TickFrees(g, limit, cfg, minShare, which[0]);
      var (h, l) := Tick(g, limit, cfg, minShare, which[0]);
      assert Ticks(g, limit, cfg, minShare, which) == Ticks(h, l, cfg, minShare, which[1..]);
      StaysFree(h, l, cfg, minShare, which[1..]);
    }
  }
}
