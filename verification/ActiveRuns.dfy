/** What the running of active events owes to its history: which events are taken, when, and in which order. */
module ActiveRuns {
  import opened ActiveQueues
  import opened Seqs

  /** What has happened to a base: an event was taken to be run, or something was done to it. */
  datatype Item = Took(e: Ev) | Did(op: Op)

  predicate Enters(i: Item, e: Ev)
  {
    i == Did(Activate(e))
  }

  predicate Ends(i: Item, e: Ev)
  {
    i == Took(e) || i == Did(Delete(e))
  }

  /** The place in the history where e became active, and since which it has been; -1 if it is not active. */
  function EnteredAt(h: seq<Item>, e: Ev): (n: int)
    ensures -1 <= n < |h|
  {
    if h == [] then -1
    else
      var n := |h| - 1;
      var was := EnteredAt(h[..n], e);
      if Ends(h[n], e) then -1 else if Enters(h[n], e) && was < 0 then n else was
  }

  ghost predicate Increasing(h: seq<Item>, q: seq<Ev>)
  {
    forall i, j :: 0 <= i < j < |q| ==> EnteredAt(h, q[i]) < EnteredAt(h, q[j])
  }

  /** The active events of a priority, in the order they became so. */
  ghost predicate TellsOf(h: seq<Item>, q: seq<Ev>, p: nat)
  {
    (forall e :: e in q <==> e.pri == p && EnteredAt(h, e) >= 0) && Increasing(h, q)
  }

  /** The history says what is in the queues. */
  ghost predicate Tells(h: seq<Item>, queues: seq<seq<Ev>>)
  {
    forall p :: 0 <= p < |queues| ==> TellsOf(h, queues[p], p)
  }

  lemma TellsNothing(n: nat)
    ensures var none: seq<seq<Ev>> := seq(n, _ => []); Tells([], none)
  {
  }

  lemma OneMore(h: seq<Item>, i: Item, e: Ev)
    ensures EnteredAt(h + [i], e) ==
              if Ends(i, e) then -1 else if Enters(i, e) && EnteredAt(h, e) < 0 then |h| else EnteredAt(h, e)
  {
    assert (h + [i])[..|h|] == h;
  }

  lemma AllOneMore(h: seq<Item>, i: Item)
    ensures forall e :: EnteredAt(h + [i], e) ==
              if Ends(i, e) then -1 else if Enters(i, e) && EnteredAt(h, e) < 0 then |h| else EnteredAt(h, e)
  {
    forall e ensures EnteredAt(h + [i], e) ==
                       if Ends(i, e) then -1 else if Enters(i, e) && EnteredAt(h, e) < 0 then |h| else EnteredAt(h, e) {
      OneMore(h, i, e);
    }
  }

  lemma {:induction false} WithoutIncreasing(h: seq<Item>, q: seq<Ev>, e: Ev)
    requires Increasing(h, q)
    ensures NoDup(q) && NoDup(Without(q, e)) && Increasing(h, Without(q, e))
  {
    hide EnteredAt;
    if q != [] {
      WithoutIncreasing(h, q[1..], e);
      assert q == [q[0]] + q[1..];
      var w := Without(q[1..], e);
      forall b | 0 <= b < |w| ensures EnteredAt(h, q[0]) < EnteredAt(h, w[b]) {
        assert w[b] in q[1..];
        var k :| 0 <= k < |q[1..]| && q[1..][k] == w[b];
        assert q[k + 1] == w[b];
      }
    }
  }

  function About(i: Item): Ev
    requires i != Did(LoopBreak)
  {
    match i
    case Took(e) => e
    case Did(op) => op.e
  }

  /** What is about other events changes nothing. */
  lemma SameTells(h: seq<Item>, i: Item, q: seq<Ev>, p: nat)
    requires TellsOf(h, q, p) && (i == Did(LoopBreak) || About(i).pri != p)
    ensures TellsOf(h + [i], q, p)
  {
    AllOneMore(h, i);
    hide EnteredAt;
    forall a, c | 0 <= a < c < |q| ensures EnteredAt(h + [i], q[a]) < EnteredAt(h + [i], q[c]) {
      assert q[a] in q && q[c] in q;
    }
  }

  lemma ActivateTells(h: seq<Item>, q: seq<Ev>, e: Ev)
    requires TellsOf(h, q, e.pri)
    ensures TellsOf(h + [Did(Activate(e))], if e in q then q else q + [e], e.pri)
  {
    AllOneMore(h, Did(Activate(e)));
    hide EnteredAt;
    var h', q' := h + [Did(Activate(e))], if e in q then q else q + [e];
    forall a, c | 0 <= a < c < |q'| ensures EnteredAt(h', q'[a]) < EnteredAt(h', q'[c]) {
      assert q'[a] in q && (c < |q| ==> q'[c] in q);
    }
  }

  lemma SameOrder(h: seq<Item>, h': seq<Item>, q: seq<Ev>)
    requires Increasing(h, q) && forall e :: e in q ==> EnteredAt(h', e) == EnteredAt(h, e)
    ensures Increasing(h', q)
  {
    hide EnteredAt;
    forall a, c | 0 <= a < c < |q| ensures EnteredAt(h', q[a]) < EnteredAt(h', q[c]) {
      assert q[a] in q && q[c] in q;
    }
  }

  /** An event is taken out, by being run or deleted. */
  lemma EndTells(h: seq<Item>, q: seq<Ev>, i: Item, e: Ev)
    requires TellsOf(h, q, e.pri) && Ends(i, e)
    ensures TellsOf(h + [i], Without(q, e), e.pri)
  {
    AllOneMore(h, i);
    hide EnteredAt, Without, NoDup, Increasing;
    WithoutIncreasing(h, q, e);
    WithoutIs(q, e);
    SameOrder(h, h + [i], Without(q, e));
  }

  lemma DoTells(h: seq<Item>, b: Base, op: Op)
    requires Tells(h, b.queues)
    ensures Tells(h + [Did(op)], Do(b, op).queues)
  {
    var b' := Do(b, op);
    forall p | 0 <= p < |b.queues| ensures TellsOf(h + [Did(op)], b'.queues[p], p) {
      hide TellsOf, Without;
      assert TellsOf(h, b.queues[p], p);
      if op.LoopBreak? || op.e.pri != p {
        SameTells(h, Did(op), b.queues[p], p);
      } else if op.Activate? {
        ActivateTells(h, b.queues[p], op.e);
      } else {
        EndTells(h, b.queues[p], Did(op), op.e);
      }
    }
  }

  lemma TookTells(h: seq<Item>, queues: seq<seq<Ev>>, i: nat)
    requires Tells(h, queues) && i < |queues| && queues[i] != []
    ensures queues[i][0].pri == i && Tells(h + [Took(queues[i][0])], queues[i := queues[i][1..]])
  {
    var e := queues[i][0];
    assert TellsOf(h, queues[i], i) && e in queues[i];
    var after := queues[i := queues[i][1..]];
    forall p | 0 <= p < |after| ensures TellsOf(h + [Took(e)], after[p], p) {
      assert TellsOf(h, queues[p], p);
      hide TellsOf;
      if p != i {
        SameTells(h, Took(e), queues[p], p);
      } else {
        EndTells(h, queues[p], Took(e), e);
        assert Without(queues[p], e) == queues[p][1..];
      }
    }
  }

  function Dids(ops: seq<Op>): (h: seq<Item>)
    ensures |h| == |ops|
  {
    seq(|ops|, k requires 0 <= k < |ops| => Did(ops[k]))
  }

  lemma {:induction false} DoAllTells(h: seq<Item>, b: Base, ops: seq<Op>)
    requires Tells(h, b.queues)
    ensures Tells(h + Dids(ops), DoAll(b, ops).queues)
    decreases |ops|
  {
    hide Tells;
    if ops == [] {
      assert h + Dids(ops) == h;
    } else {
      DoTells(h, b, ops[0]);
      DoAllTells(h + [Did(ops[0])], Do(b, ops[0]), ops[1..]);
      assert Dids(ops) == [Did(ops[0])] + Dids(ops[1..]);
      assert h + [Did(ops[0])] + Dids(ops[1..]) == h + Dids(ops);
    }
  }

  // ---- A whole run

  /** The history after the events of log have been run, and what happened during their callbacks. */
  function After(h: seq<Item>, script: seq<seq<Op>>, log: seq<Taken>): seq<Item>
    requires |log| <= |script|
    decreases |log|
  {
    if log == [] then h else After(h + [Took(log[0].e)] + Dids(script[0]), script[1..], log[1..])
  }

  /** Before each callback the history said what was in the queues, and its event was the first in its own. */
  ghost predicate TellsAll(h: seq<Item>, script: seq<seq<Op>>, log: seq<Taken>)
    requires |log| <= |script|
    decreases |log|
  {
    log == [] || (Tells(h, log[0].queues) && First(log[0]) && TellsAll(h + [Took(log[0].e)] + Dids(script[0]), script[1..], log[1..]))
  }

  ghost predicate First(t: Taken)
  {
    t.e.pri < |t.queues| && t.queues[t.e.pri] != [] && t.queues[t.e.pri][0] == t.e
  }

  /** The outcome goes with the history. */
  ghost predicate Fits(h: seq<Item>, script: seq<seq<Op>>, o: Outcome)
  {
    && |o.log| <= |script| && o.script == script[|o.log|..]
    && TellsAll(h, script, o.log) && Tells(After(h, script, o.log), o.b.queues)
  }

  lemma FitsNone(h: seq<Item>, script: seq<seq<Op>>, b: Base, count: int)
    requires Tells(h, b.queues)
    ensures Fits(h, script, Outcome(b, script, count, []))
  {
    hide Tells;
    assert script[0..] == script;
  }

  lemma FitsOneMore(h: seq<Item>, script: seq<seq<Op>>, t: Taken, rest: Outcome)
    requires script != [] && Tells(h, t.queues) && First(t) && Fits(h + [Took(t.e)] + Dids(script[0]), script[1..], rest)
    ensures Fits(h, script, Preceded([t], rest))
  {
    hide Tells, First;
    var log := [t] + rest.log;
    assert log[1..] == rest.log && script[1..][|rest.log|..] == script[|log|..];
  }

  lemma {:induction false} RunQueueFits(h: seq<Item>, b: Base, i: nat, script: seq<seq<Op>>, count: nat)
    requires i < |b.queues| && Tells(h, b.queues)
    ensures Fits(h, script, RunQueue(b, i, script, count))
    decreases |script|
  {
    hide Tells, Fits, DoAll, RunQueue, Preceded, Dids;
    RunQueueNext(b, i, script, count);
    if b.queues[i] == [] || script == [] {
      FitsNone(h, script, b, count);
    } else {
      var e := b.queues[i][0];
      TookTells(h, b.queues, i);
      var b0 := b.(queues := b.queues[i := b.queues[i][1..]]);
      DoAllTells(h + [Took(e)], b0, script[0]);
      var b1 := DoAll(b0, script[0]);
      var n := if e.internal then count else count + 1;
      var h' := h + [Took(e)] + Dids(script[0]);
      if b1.brk {
        FitsNone(h', script[1..], b1, -1);
        FitsOneMore(h, script, Taken(e, b.queues), Outcome(b1, script[1..], -1, []));
      } else if b1.cont {
        FitsNone(h', script[1..], b1, n);
        FitsOneMore(h, script, Taken(e, b.queues), Outcome(b1, script[1..], n, []));
      } else {
        RunQueueFits(h', b1, i, script[1..], n);
        FitsOneMore(h, script, Taken(e, b.queues), RunQueue(b1, i, script[1..], n));
      }
    }
  }

  lemma {:induction false} AfterBoth(h: seq<Item>, script: seq<seq<Op>>, l1: seq<Taken>, l2: seq<Taken>)
    requires |l1| + |l2| <= |script|
    ensures After(h, script, l1 + l2) == After(After(h, script, l1), script[|l1|..], l2)
    ensures TellsAll(h, script, l1 + l2) <==> TellsAll(h, script, l1) && TellsAll(After(h, script, l1), script[|l1|..], l2)
    decreases |l1|
  {
    hide Tells, First, Dids;
    if l1 == [] {
      assert l1 + l2 == l2 && script[0..] == script;
    } else {
      AfterBoth(h + [Took(l1[0].e)] + Dids(script[0]), script[1..], l1[1..], l2);
      assert (l1 + l2)[1..] == l1[1..] + l2 && script[1..][|l1[1..]|..] == script[|l1|..];
    }
  }

  lemma FitsBoth(h: seq<Item>, script: seq<seq<Op>>, o: Outcome, p: Outcome)
    requires Fits(h, script, o) && Fits(After(h, script, o.log), o.script, p)
    ensures Fits(h, script, Preceded(o.log, p))
  {
    hide Tells, TellsAll, After;
    AfterBoth(h, script, o.log, p.log);
    assert script[|o.log|..][|p.log|..] == script[|o.log + p.log|..];
  }

  lemma {:induction false} RunFromFits(h: seq<Item>, b: Base, i: nat, script: seq<seq<Op>>)
    requires i <= |b.queues| && Tells(h, b.queues)
    ensures Fits(h, script, RunFrom(b, i, script))
    decreases |b.queues| - i
  {
    hide Tells, RunQueue, RunFrom, Preceded;
    if i == |b.queues| {
      RunFromEnd(b, script);
      FitsNone(h, script, b, 0);
    } else {
      RunFromNext(b, i, script);
      if b.queues[i] == [] {
        RunFromFits(h, b, i + 1, script);
      } else {
        var b0 := b.(running := i);
        RunQueueFits(h, b0, i, script, 0);
        var o := RunQueue(b0, i, script, 0);
        if o.count == 0 {
          RunFromFits(After(h, script, o.log), o.b, i + 1, o.script);
          FitsBoth(h, script, o, RunFrom(o.b, i + 1, o.script));
        }
      }
    }
  }

  /** The history of a base tells, throughout and after a call of event_process_active, what is in its queues. */
  lemma HistoryTells(h: seq<Item>, b: Base, script: seq<seq<Op>>)
    requires Tells(h, b.queues)
    ensures Fits(h, script, ProcessActive(b, script))
  {
    hide Tells, TellsAll, After, RunFrom;
    RunFromFits(h, b, 0, script);
  }

  /** Before the callback of log[k]. */
  lemma TellsAt(h: seq<Item>, script: seq<seq<Op>>, log: seq<Taken>, k: nat)
    requires |log| <= |script| && TellsAll(h, script, log) && k < |log|
    ensures var g := After(h, script, log[..k]);
            && Tells(g, log[k].queues) && First(log[k])
            && TellsAll(g + [Took(log[k].e)] + Dids(script[k]), script[k + 1..], log[k + 1..])
            && After(h, script, log) == After(g + [Took(log[k].e)] + Dids(script[k]), script[k + 1..], log[k + 1..])
  {
    hide Tells, First, Dids;
    assert log == log[..k] + log[k..];
    AfterBoth(h, script, log[..k], log[k..]);
    assert script[k..][0] == script[k] && script[k..][1..] == script[k + 1..];
    assert log[k..][0] == log[k] && log[k..][1..] == log[k + 1..];
  }

  // ---- What that means for an event

  /** More history, in which e is not made active. */
  lemma {:induction false} StaysOut(h: seq<Item>, more: seq<Item>, e: Ev)
    requires EnteredAt(h, e) < 0 && forall i <- more :: !Enters(i, e)
    ensures EnteredAt(h + more, e) < 0
    decreases |more|
  {
    if more == [] {
      assert h + more == h;
    } else {
      OneMore(h, more[0], e);
      assert more[0] in more && forall i <- more[1..] :: i in more;
      hide EnteredAt;
      StaysOut(h + [more[0]], more[1..], e);
      assert h + [more[0]] + more[1..] == h + more;
    }
  }

  /** More history, in which e is not taken or deleted. */
  lemma {:induction false} StaysIn(h: seq<Item>, more: seq<Item>, e: Ev)
    requires EnteredAt(h, e) >= 0 && forall i <- more :: !Ends(i, e)
    ensures EnteredAt(h + more, e) == EnteredAt(h, e)
    decreases |more|
  {
    if more == [] {
      assert h + more == h;
    } else {
      OneMore(h, more[0], e);
      assert more[0] in more && forall i <- more[1..] :: i in more;
      hide EnteredAt;
      StaysIn(h + [more[0]], more[1..], e);
      assert h + [more[0]] + more[1..] == h + more;
    }
  }

  /** Whatever is added to a history, an event has been active since then, or became so later, or is not. */
  lemma {:induction false} SinceOrLater(h: seq<Item>, more: seq<Item>, e: Ev)
    ensures var n := EnteredAt(h + more, e); n < 0 || n == EnteredAt(h, e) || n >= |h|
    decreases |more|
  {
    if more == [] {
      assert h + more == h;
    } else {
      OneMore(h, more[0], e);
      hide EnteredAt;
      SinceOrLater(h + [more[0]], more[1..], e);
      assert h + [more[0]] + more[1..] == h + more;
    }
  }

  lemma DidsAre(ops: seq<Op>, i: Item)
    ensures i in Dids(ops) <==> i.Did? && i.op in ops
  {
    var h := Dids(ops);
    if i.Did? && i.op in ops {
      var k :| 0 <= k < |ops| && ops[k] == i.op;
      assert h[k] == i;
    }
    if i in h {
      var k :| 0 <= k < |h| && h[k] == i;
      assert ops[k] in ops;
    }
  }

  /** What the callbacks add to the history. */
  function Added(script: seq<seq<Op>>, log: seq<Taken>): seq<Item>
    requires |log| <= |script|
    decreases |log|
  {
    if log == [] then [] else [Took(log[0].e)] + Dids(script[0]) + Added(script[1..], log[1..])
  }

  lemma {:induction false} AfterIs(h: seq<Item>, script: seq<seq<Op>>, log: seq<Taken>)
    requires |log| <= |script|
    ensures After(h, script, log) == h + Added(script, log)
    decreases |log|
  {
    if log == [] {
      assert h + [] == h;
    } else {
      var now := [Took(log[0].e)] + Dids(script[0]);
      assert h + [Took(log[0].e)] + Dids(script[0]) == h + now;
      AfterIs(h + now, script[1..], log[1..]);
      assert h + now + Added(script[1..], log[1..]) == h + (now + Added(script[1..], log[1..]));
    }
  }

  /** Each is a taking of an event of the log, or something done during a callback. */
  lemma {:induction false} AddedAre(script: seq<seq<Op>>, log: seq<Taken>, i: Item)
    requires |log| <= |script| && i in Added(script, log)
    ensures i.Took? ==> exists k :: 0 <= k < |log| && log[k].e == i.e
    ensures i.Did? ==> exists k :: 0 <= k < |log| && i.op in script[k]
    decreases |log|
  {
    DidsAre(script[0], i);
    if i in Added(script[1..], log[1..]) {
      AddedAre(script[1..], log[1..], i);
      if i.Took? {
        var k :| 0 <= k < |log[1..]| && log[1..][k].e == i.e;
        assert log[k + 1].e == i.e;
      } else {
        var k :| 0 <= k < |log[1..]| && i.op in script[1..][k];
        assert i.op in script[k + 1];
      }
    } else if i.Took? {
      assert log[0].e == i.e;
    } else {
      assert i.op in script[0];
    }
  }

  /** Something is done in callback j after its n-th operation, or in a callback after it and before that of log[k]. */
  ghost predicate Between(script: seq<seq<Op>>, j: nat, n: nat, k: nat, op: Op)
    requires j < |script| && n < |script[j]| && k <= |script|
  {
    op in script[j][n + 1..] || exists m :: j < m < k && op in script[m]
  }

  /** The history from just after the n-th operation of callback j to the callback of log[k], or to the end. */
  function From(script: seq<seq<Op>>, log: seq<Taken>, j: nat, n: nat, k: nat): seq<Item>
    requires j < k <= |log| <= |script| && n < |script[j]|
  {
    Dids(script[j][n + 1..]) + Added(script[j + 1..k], log[j + 1..k])
  }

  function UpTo(h: seq<Item>, script: seq<seq<Op>>, log: seq<Taken>, j: nat, n: nat): seq<Item>
    requires j < |log| <= |script| && n < |script[j]|
  {
    After(h, script, log[..j]) + [Took(log[j].e)] + Dids(script[j][..n + 1])
  }

  lemma {:induction false} AddedPrefix(script: seq<seq<Op>>, log: seq<Taken>)
    requires |log| <= |script|
    ensures Added(script, log) == Added(script[..|log|], log)
    decreases |log|
  {
    if log != [] {
      AddedPrefix(script[1..], log[1..]);
      assert script[..|log|][1..] == script[1..][..|log[1..]|];
    }
  }

  lemma Parts(h: seq<Item>, script: seq<seq<Op>>, log: seq<Taken>, j: nat, n: nat, k: nat)
    requires j < k <= |log| <= |script| && n < |script[j]|
    ensures After(h, script, log[..k]) == UpTo(h, script, log, j, n) + From(script, log, j, n, k)
  {
    var l := log[..k];
    assert l == l[..j] + l[j..] && l[..j] == log[..j] && l[j..][0] == log[j] && l[j..][1..] == log[j + 1..k];
    AfterBoth(h, script, l[..j], l[j..]);
    var g := After(h, script, log[..j]);
    assert script[j..][0] == script[j] && script[j..][1..] == script[j + 1..];
    assert After(g, script[j..], l[j..]) == After(g + [Took(log[j].e)] + Dids(script[j]), script[j + 1..], log[j + 1..k]);
    hide After, Added;
    AfterIs(g + [Took(log[j].e)] + Dids(script[j]), script[j + 1..], log[j + 1..k]);
    AddedPrefix(script[j + 1..], log[j + 1..k]);
    assert script[j + 1..][..|log[j + 1..k]|] == script[j + 1..k];
    assert script[j] == script[j][..n + 1] + script[j][n + 1..];
    DidsBoth(script[j][..n + 1], script[j][n + 1..]);
    var a, b, c, d := g + [Took(log[j].e)], Dids(script[j][..n + 1]), Dids(script[j][n + 1..]), Added(script[j + 1..k], log[j + 1..k]);
    assert a + (b + c) + d == (a + b) + (c + d);
  }

  lemma DidsBoth(a: seq<Op>, b: seq<Op>)
    ensures Dids(a + b) == Dids(a) + Dids(b)
  {
  }

  /** The n-th operation of callback j is the last thing in the history up to it. */
  lemma LastDone(h: seq<Item>, script: seq<seq<Op>>, log: seq<Taken>, j: nat, n: nat, e: Ev)
    requires j < |log| <= |script| && n < |script[j]|
    ensures script[j][n] == Delete(e) ==> EnteredAt(UpTo(h, script, log, j, n), e) < 0
    ensures script[j][n] == Activate(e) ==> EnteredAt(UpTo(h, script, log, j, n), e) >= 0
  {
    var g := After(h, script, log[..j]) + [Took(log[j].e)];
    var ops := script[j][..n + 1];
    assert ops == script[j][..n] + [script[j][n]];
    DidsBoth(script[j][..n], [script[j][n]]);
    assert Dids([script[j][n]]) == [Did(script[j][n])];
    assert UpTo(h, script, log, j, n) == g + Dids(script[j][..n]) + [Did(script[j][n])];
    OneMore(g + Dids(script[j][..n]), Did(script[j][n]), e);
  }

  /** Only what is done between the two is in that part of the history. */
  lemma FromAre(script: seq<seq<Op>>, log: seq<Taken>, j: nat, n: nat, k: nat, i: Item)
    requires j < k <= |log| <= |script| && n < |script[j]| && i in From(script, log, j, n, k)
    ensures i.Did? ==> Between(script, j, n, k, i.op)
    ensures i.Took? ==> exists m :: j < m < k && log[m].e == i.e
  {
    DidsAre(script[j][n + 1..], i);
    if i in Added(script[j + 1..k], log[j + 1..k]) {
      AddedAre(script[j + 1..k], log[j + 1..k], i);
      if i.Took? {
        var m :| 0 <= m < k - j - 1 && log[j + 1..k][m].e == i.e;
        assert log[m + j + 1].e == i.e;
      } else {
        var m :| 0 <= m < k - j - 1 && i.op in script[j + 1..k][m];
        assert i.op in script[m + j + 1];
      }
    }
  }

  /** An event that is deleted during a callback is not run after it, unless it is made active again in between. */
  lemma DeletedIsNotRun(h: seq<Item>, b: Base, script: seq<seq<Op>>, j: nat, n: nat, k: nat, e: Ev)
    requires Tells(h, b.queues)
    requires j < k < |ProcessActive(b, script).log| && n < |script[j]| && script[j][n] == Delete(e)
    requires ProcessActive(b, script).log[k].e == e
    ensures Between(script, j, n, k, Activate(e))
  {
    hide *;
    var log := ProcessActive(b, script).log;
    HistoryTells(h, b, script);
    FitsIs(h, script, ProcessActive(b, script));
    TellsAt(h, script, log, k);
    TakenEntered(After(h, script, log[..k]), log[k]);
    Parts(h, script, log, j, n, k);
    LastDone(h, script, log, j, n, e);
    var u, f := UpTo(h, script, log, j, n), From(script, log, j, n, k);
    if forall i <- f :: !Enters(i, e) {
      StaysOut(u, f, e);
    } else {
      var i :| i in f && Enters(i, e);
      FromAre(script, log, j, n, k, i);
      EntersIs(i, e);
    }
  }

  lemma EntersIs(i: Item, e: Ev)
    ensures Enters(i, e) <==> i == Did(Activate(e))
    ensures Ends(i, e) <==> i == Took(e) || i == Did(Delete(e))
  {
  }

  lemma FitsIs(h: seq<Item>, script: seq<seq<Op>>, o: Outcome)
    requires Fits(h, script, o)
    ensures |o.log| <= |script| && o.script == script[|o.log|..]
    ensures TellsAll(h, script, o.log) && Tells(After(h, script, o.log), o.b.queues)
  {
    hide Tells, TellsAll, After;
  }

  /** What is taken is active, and has been so the longest of its priority. */
  lemma TakenEntered(h: seq<Item>, t: Taken)
    requires Tells(h, t.queues) && First(t)
    ensures EnteredAt(h, t.e) >= 0
    ensures forall e: Ev :: e.pri == t.e.pri && e != t.e && EnteredAt(h, e) >= 0 ==> EnteredAt(h, t.e) < EnteredAt(h, e)
  {
    var q := t.queues[t.e.pri];
    assert TellsOf(h, q, t.e.pri) && q[0] in q;
    hide EnteredAt;
    forall e: Ev | e.pri == t.e.pri && e != t.e && EnteredAt(h, e) >= 0 ensures EnteredAt(h, t.e) < EnteredAt(h, e) {
      assert e in q;
      var i :| 0 <= i < |q| && q[i] == e;
    }
  }

  /** An event that is made active during a callback, and not deleted after that, is run or is still in its queue. */
  lemma ActivatedIsRun(h: seq<Item>, b: Base, script: seq<seq<Op>>, j: nat, n: nat, e: Ev)
    requires Tells(h, b.queues)
    requires j < |ProcessActive(b, script).log| && n < |script[j]| && script[j][n] == Activate(e)
    requires !Between(script, j, n, |ProcessActive(b, script).log|, Delete(e)) && e.pri < |b.queues|
    ensures var o := ProcessActive(b, script);
            e in o.b.queues[e.pri] || exists k :: j < k < |o.log| && o.log[k].e == e
  {
    hide *;
    var o := ProcessActive(b, script);
    HistoryTells(h, b, script);
    FitsIs(h, script, o);
    assert o.log[..|o.log|] == o.log;
    Parts(h, script, o.log, j, n, |o.log|);
    LastDone(h, script, o.log, j, n, e);
    var u, f := UpTo(h, script, o.log, j, n), From(script, o.log, j, n, |o.log|);
    if i :| i in f && Ends(i, e) {
      FromAre(script, o.log, j, n, |o.log|, i);
      EntersIs(i, e);
    } else {
      StaysIn(u, f, e);
      TellsEnd(After(h, script, o.log), o.b.queues, e);
    }
  }

  lemma TellsEnd(h: seq<Item>, queues: seq<seq<Ev>>, e: Ev)
    requires Tells(h, queues) && e.pri < |queues|
    ensures e in queues[e.pri] <==> EnteredAt(h, e) >= 0
  {
    assert TellsOf(h, queues[e.pri], e.pri);
  }

  /** So is an event that is active when the call begins, unless it is deleted. */
  lemma ActiveIsRun(h: seq<Item>, b: Base, script: seq<seq<Op>>, e: Ev)
    requires Tells(h, b.queues) && e.pri < |b.queues| && e in b.queues[e.pri]
    requires forall k :: 0 <= k < |ProcessActive(b, script).log| ==> Delete(e) !in script[k]
    ensures var o := ProcessActive(b, script); e in o.b.queues[e.pri] || exists k :: 0 <= k < |o.log| && o.log[k].e == e
  {
    hide *;
    var o := ProcessActive(b, script);
    HistoryTells(h, b, script);
    FitsIs(h, script, o);
    TellsEnd(h, b.queues, e);
    AfterIs(h, script, o.log);
    if i :| i in Added(script, o.log) && Ends(i, e) {
      AddedAre(script, o.log, i);
      EntersIs(i, e);
    } else {
      StaysIn(h, Added(script, o.log), e);
      TellsEnd(After(h, script, o.log), o.b.queues, e);
    }
  }

  /** Events of one priority are run in the order in which they became active. */
  lemma FirstComeFirstRun(h: seq<Item>, b: Base, script: seq<seq<Op>>, j: nat, k: nat)
    requires Tells(h, b.queues) && j < k < |ProcessActive(b, script).log|
    requires var log := ProcessActive(b, script).log; log[j].e.pri == log[k].e.pri
    ensures var log := ProcessActive(b, script).log;
            0 <= EnteredAt(After(h, script, log[..j]), log[j].e) < EnteredAt(After(h, script, log[..k]), log[k].e)
  {
    hide *;
    var log := ProcessActive(b, script).log;
    HistoryTells(h, b, script);
    FitsIs(h, script, ProcessActive(b, script));
    TellsAt(h, script, log, j);
    TellsAt(h, script, log, k);
    var g, g' := After(h, script, log[..j]), After(h, script, log[..k]);
    TakenEntered(g, log[j]);
    TakenEntered(g', log[k]);
    assert log[..k] == log[..j] + log[j..k];
    AfterBoth(h, script, log[..j], log[j..k]);
    AfterIs(g, script[j..], log[j..k]);
    AddedNotNone(script[j..], log[j..k]);
    var more := Added(script[j..], log[j..k]);
    OneMore(g, more[0], log[k].e);
    OneMore(g, more[0], log[j].e);
    EntersIs(more[0], log[k].e);
    EntersIs(more[0], log[j].e);
    assert g + more == g + [more[0]] + more[1..];
    SinceOrLater(g + [more[0]], more[1..], log[k].e);
  }

  lemma AddedNotNone(script: seq<seq<Op>>, log: seq<Taken>)
    requires 0 < |log| <= |script|
    ensures Added(script, log) != [] && Added(script, log)[0] == Took(log[0].e)
  {
  }

  // ---- When it stops

  /** The events of the user in a log. */
  function Ordinary(log: seq<Taken>): nat
  {
    if log == [] then 0 else (if log[0].e.internal then 0 else 1) + Ordinary(log[1..])
  }

  lemma {:induction false} OrdinaryBoth(a: seq<Taken>, b: seq<Taken>)
    ensures Ordinary(a + b) == Ordinary(a) + Ordinary(b)
  {
    if a == [] {
      assert a + b == b;
    } else {
      assert (a + b)[1..] == a[1..] + b;
      OrdinaryBoth(a[1..], b);
    }
  }

  lemma {:induction false} BreakTold(b: Base, ops: seq<Op>)
    ensures DoAll(b, ops).brk <==> b.brk || LoopBreak in ops
    decreases |ops|
  {
    if ops != [] {
      BreakTold(Do(b, ops[0]), ops[1..]);
      assert ops == [ops[0]] + ops[1..];
    }
  }

  /** The count, and a break, as an outcome has them: brk if there was a break before. */
  ghost predicate Counts(brk: bool, script: seq<seq<Op>>, o: Outcome, count: nat)
    requires |o.log| <= |script|
  {
    && (o.count == -1 <==> o.log != [] && (brk || LoopBreak in script[|o.log| - 1]))
    && (o.count != -1 ==> o.count == count + Ordinary(o.log))
    && (|o.log| > 1 ==> !brk) && (forall k :: 0 <= k < |o.log| - 1 ==> LoopBreak !in script[k])
    && (o.b.brk <==> brk || o.count == -1)
  }

  lemma CountsOneMore(b: Base, b1: Base, script: seq<seq<Op>>, t: Taken, o: Outcome, count: nat)
    requires script != [] && |o.log| < |script| && (b1.brk <==> b.brk || LoopBreak in script[0])
    requires if b1.brk then o.count == -1 && o.log == [] && o.b.brk
             else Counts(false, script[1..], o, if t.e.internal then count else count + 1)
    ensures Counts(b.brk, script, Preceded([t], o), count)
  {
    var log := [t] + o.log;
    OrdinaryBoth([t], o.log);
    assert [t][1..] == [];
    if !b1.brk {
      assert o.log != [] ==> script[1..][|o.log| - 1] == script[|log| - 1];
      forall k | 0 <= k < |log| - 1 ensures LoopBreak !in script[k] {
        if k > 0 { assert script[1..][k - 1] == script[k]; }
      }
    }
  }

  lemma {:induction false} RunQueueCounts(b: Base, i: nat, script: seq<seq<Op>>, count: nat)
    requires i < |b.queues|
    ensures Counts(b.brk, script, RunQueue(b, i, script, count), count)
    decreases |script|
  {
    hide DoAll, Preceded, RunQueue;
    RunQueueNext(b, i, script, count);
    if b.queues[i] != [] && script != [] {
      var e := b.queues[i][0];
      var b0 := b.(queues := b.queues[i := b.queues[i][1..]]);
      var b1 := DoAll(b0, script[0]);
      BreakTold(b0, script[0]);
      var n := if e.internal then count else count + 1;
      var t := Taken(e, b.queues);
      if b1.brk {
        CountsOneMore(b, b1, script, t, Outcome(b1, script[1..], -1, []), count);
      } else if b1.cont {
        CountsOneMore(b, b1, script, t, Outcome(b1, script[1..], n, []), count);
      } else {
        RunQueueCounts(b1, i, script[1..], n);
        CountsOneMore(b, b1, script, t, RunQueue(b1, i, script[1..], n), count);
      }
    }
  }

  lemma CountsBoth(brk: bool, script: seq<seq<Op>>, o: Outcome, p: Outcome)
    requires |o.log| + |p.log| <= |script| && Counts(brk, script, o, 0) && o.count == 0 && Counts(o.b.brk, script[|o.log|..], p, 0)
    ensures Counts(brk, script, Preceded(o.log, p), 0)
  {
    var log := o.log + p.log;
    OrdinaryBoth(o.log, p.log);
    assert p.log != [] ==> script[|o.log|..][|p.log| - 1] == script[|log| - 1];
    if p.log == [] { assert log == o.log; }
    forall k | 0 <= k < |log| - 1 ensures LoopBreak !in script[k] {
      if k >= |o.log| { assert script[|o.log|..][k - |o.log|] == script[k]; }
    }
  }

  lemma {:induction false} RunFromCounts(b: Base, i: nat, script: seq<seq<Op>>)
    requires i <= |b.queues|
    ensures Counts(b.brk, script, RunFrom(b, i, script), 0)
    decreases |b.queues| - i
  {
    hide RunQueue, RunFrom, Preceded;
    if i == |b.queues| {
      RunFromEnd(b, script);
    } else {
      RunFromNext(b, i, script);
      if b.queues[i] == [] {
        RunFromCounts(b, i + 1, script);
      } else {
        var b0 := b.(running := i);
        RunQueueCounts(b0, i, script, 0);
        var o := RunQueue(b0, i, script, 0);
        if o.count == 0 {
          RunQueueRest(b0, i, script, 0);
          RunFromCounts(o.b, i + 1, o.script);
          CountsBoth(b.brk, script, o, RunFrom(o.b, i + 1, o.script));
        }
      }
    }
  }

  lemma {:induction false} RunQueueRest(b: Base, i: nat, script: seq<seq<Op>>, count: nat)
    requires i < |b.queues|
    ensures var o := RunQueue(b, i, script, count); o.script == script[|o.log|..]
    decreases |script|
  {
    if b.queues[i] != [] && script != [] {
      var b1 := DoAll(b.(queues := b.queues[i := b.queues[i][1..]]), script[0]);
      if !b1.brk && !b1.cont {
        RunQueueRest(b1, i, script[1..], if b.queues[i][0].internal then count else count + 1);
      }
    }
  }

  /**
   * After a loop break nothing more is run and the count is -1; else the count is the number of events of the user that
   * were run.
   */
  lemma BreakStops(b: Base, script: seq<seq<Op>>)
    ensures Counts(b.brk, script, ProcessActive(b, script), 0)
  {
    hide RunFrom;
    RunFromCounts(b, 0, script);
  }

  // ---- And when it does not

  /** With nothing more urgent active, event_continue is set exactly by making something more urgent active. */
  lemma {:induction false} ContinueTold(b: Base, ops: seq<Op>, i: nat)
    requires b.running == i <= |b.queues| && NoneBefore(b.queues, i) && !b.cont
    ensures DoAll(b, ops).cont <==> exists n :: 0 <= n < |ops| && ops[n].Activate? && ops[n].e.pri < i
    decreases |ops|
  {
    if ops != [] {
      var b1 := Do(b, ops[0]);
      if b1.cont {
        StillSet(b1, ops[1..]);
        assert ops[0].Activate? && ops[0].e.pri < i;
      } else {
        assert NoneBefore(b1.queues, i) by {
          forall j | 0 <= j < i && j < |b1.queues| ensures b1.queues[j] == [] {
          }
        }
        ContinueTold(b1, ops[1..], i);
        if n :| 0 <= n < |ops| && ops[n].Activate? && ops[n].e.pri < i {
          assert n > 0 && ops[1..][n - 1] == ops[n];
        }
        if n :| 0 <= n < |ops[1..]| && ops[1..][n].Activate? && ops[1..][n].e.pri < i {
          assert ops[n + 1] == ops[1..][n];
        }
      }
    }
  }

  lemma {:induction false} StillSet(b: Base, ops: seq<Op>)
    requires b.cont
    ensures DoAll(b, ops).cont
    decreases |ops|
  {
    if ops != [] { StillSet(Do(b, ops[0]), ops[1..]); }
  }

  /** A queue is run until it is empty, unless there is a break, or event_continue, or the script is at its end. */
  lemma {:induction false} QueueDrained(b: Base, i: nat, script: seq<seq<Op>>, count: nat)
    requires i < |b.queues|
    ensures var o := RunQueue(b, i, script, count); o.script == [] || o.b.brk || o.b.cont || o.b.queues[i] == []
    ensures b.queues[i] != [] && script != [] ==> RunQueue(b, i, script, count).log != []
    decreases |script|
  {
    if b.queues[i] != [] && script != [] {
      var b1 := DoAll(b.(queues := b.queues[i := b.queues[i][1..]]), script[0]);
      if !b1.brk && !b1.cont {
        QueueDrained(b1, i, script[1..], if b.queues[i][0].internal then count else count + 1);
      }
    }
  }

  /** Every queue up to p is empty. */
  ghost predicate EmptyTo(queues: seq<seq<Ev>>, p: int)
  {
    forall j :: 0 <= j <= p && j < |queues| ==> queues[j] == []
  }

  lemma {:induction false} RunFromDrains(b: Base, i: nat, script: seq<seq<Op>>)
    requires i <= |b.queues| && Sorted(b) && ScriptOk(script) && !b.cont && NoneBefore(b.queues, i)
    ensures var o := RunFrom(b, i, script);
            || o.script == [] || o.b.brk || o.b.cont
            || (if o.count == 0 then EmptyTo(o.b.queues, |b.queues| - 1)
                else exists p :: i <= p < |b.queues| && EmptyTo(o.b.queues, p) && OnePriority(o.log, p))
    decreases |b.queues| - i
  {
    hide RunFrom, RunQueue, Preceded, Sorted, ScriptOk;
    if i == |b.queues| {
      RunFromEnd(b, script);
    } else {
      RunFromNext(b, i, script);
      if b.queues[i] == [] {
        RunFromDrains(b, i + 1, script);
      } else {
        var b0 := b.(running := i);
        var o := RunQueue(b0, i, script, 0);
        SortedSame(b, b0);
        RunQueueTimely(b0, i, script, 0);
        QueueDrained(b0, i, script, 0);
        if o.count == 0 {
          if o.script == [] {
            NoMore(o.b, i + 1);
            PrecededIs(o.log, RunFrom(o.b, i + 1, []));
          } else {
            RunFromDrains(o.b, i + 1, o.script);
            var q := RunFrom(o.b, i + 1, o.script);
            if p :| i + 1 <= p < |b.queues| && EmptyTo(q.b.queues, p) && OnePriority(q.log, p) {
              assert OnePriority(o.log + q.log, p);
              PrecededIs(o.log, q);
            } else {
              PrecededIs(o.log, q);
            }
          }
        } else if o.script != [] && !o.b.brk && !o.b.cont {
          RunQueueNone(b0, i, script, 0);
          assert EmptyTo(o.b.queues, i) && OnePriority(o.log, i);
        }
      }
    }
  }

  lemma SortedSame(b: Base, c: Base)
    requires Sorted(b) && c.queues == b.queues
    ensures Sorted(c)
  {
  }

  lemma PrecededIs(log: seq<Taken>, o: Outcome)
    ensures Preceded(log, o) == o.(log := log + o.log)
  {
  }

  lemma {:induction false} NoMore(b: Base, i: nat)
    requires i <= |b.queues|
    ensures RunFrom(b, i, []).script == []
    decreases |b.queues| - i
  {
    if i < |b.queues| {
      NoMore(b, i + 1);
      NoMore(b.(running := i), i + 1);
    }
  }

  /** While event_continue is not set nothing more urgent has become active. */
  lemma {:induction false} RunQueueNone(b: Base, i: nat, script: seq<seq<Op>>, count: nat)
    requires i < |b.queues| && Sorted(b) && ScriptOk(script) && NoneBefore(b.queues, i) && b.running == i && !b.cont
    ensures var o := RunQueue(b, i, script, count); !o.b.cont ==> NoneBefore(o.b.queues, i)
    decreases |script|
  {
    if b.queues[i] != [] && script != [] {
      var b0 := b.(queues := b.queues[i := b.queues[i][1..]]);
      var b1 := DoAll(b0, script[0]);
      assert OpsOk(script[0]);
      DoAllKeeps(b0, script[0], i);
      if !b1.brk && !b1.cont {
        RunQueueNone(b1, i, script[1..], if b.queues[i][0].internal then count else count + 1);
      }
    }
  }

  /**
   * Without a break and with nothing more urgent made active, the call ends with every queue empty up to that of the
   * events of the user that were run, or with all queues empty if there were none.
   */
  lemma RunsToTheEnd(b: Base, script: seq<seq<Op>>)
    requires Sorted(b) && ScriptOk(script) && !b.cont
    ensures var o := ProcessActive(b, script);
            || o.script == [] || o.b.brk || o.b.cont
            || (if o.count == 0 then EmptyTo(o.b.queues, |b.queues| - 1)
                else exists p :: 0 <= p < |b.queues| && EmptyTo(o.b.queues, p) && OnePriority(o.log, p))
    ensures script != [] && (exists i :: 0 <= i < |b.queues| && b.queues[i] != []) ==> ProcessActive(b, script).log != []
  {
    RunFromDrains(b, 0, script);
    RunFromStarts(b, 0, script);
  }

  lemma {:induction false} RunFromStarts(b: Base, i: nat, script: seq<seq<Op>>)
    requires i <= |b.queues|
    ensures script != [] && (exists j :: i <= j < |b.queues| && b.queues[j] != []) ==> RunFrom(b, i, script).log != []
    decreases |b.queues| - i
  {
    if i < |b.queues| {
      QueueDrained(b.(running := i), i, script, 0);
      RunFromStarts(b, i + 1, script);
    }
  }
}
