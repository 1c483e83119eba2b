/** Whole runs of adds and deletes: a changelist leaves the kernel as if each had been passed on at once. */
module EvmapRuns {
  import opened Evmap
  import opened Seqs

  datatype Call =
    | Adds(fd: Fd, ev: Event)
    | Dels(fd: Fd, ev: Event)   // if it was added
    | Wait                      // epoll_dispatch, up to the wait
    | Closes(fd: Fd)

  /** An epoll backend without a changelist: the events on each descriptor, and what the kernel watches. */
  datatype Plain = Plain(events: map<Fd, seq<Event>>, kernel: map<Fd, Mask>)

  function On(s: Plain, fd: Fd): seq<Event>
  {
    if fd in s.events then s.events[fd] else []
  }

  /** What some event wants. */
  function Want(es: seq<Event>): Mask
  {
    Mask(Readers(es) > 0, Writers(es) > 0)
  }

  predicate Full(es: seq<Event>, ev: Event)
  {
    (ev.wants.r && Readers(es) == 0xffff) || (ev.wants.w && Writers(es) == 0xffff)
  }

  /** A change passed on at once (epoll_nochangelist_add, epoll_nochangelist_del); none if the want stays. */
  function AtOnce(fd: Fd, before: Mask, after: Mask, add: bool): Change
  {
    Amended(Change(fd, before, Keep, Keep), Request(add, if add then Minus(after, before) else Minus(before, after)))
  }

  function Step(s: Plain, c: Call): Plain
  {
    match c
    case Adds(fd, ev) =>
      if fd < 0 then s
      else
        var es := On(s, fd);
        var es' := if Full(es, ev) then es else es + [ev];
        Plain(s.events[fd := es'], Applied(s.kernel, AtOnce(fd, Want(es), Want(es'), true)))
    case Dels(fd, ev) =>
      if fd < 0 || ev !in On(s, fd) then s
      else
        var es := On(s, fd);
        var es' := Without(es, ev);
        Plain(s.events[fd := es'], Applied(s.kernel, AtOnce(fd, Want(es), Want(es'), false)))
    case Wait => s
    case Closes(fd) => s.(kernel := s.kernel - {fd})
  }

  /** What a call returns: whether the backend was called, or -1. */
  function Returns(s: Plain, c: Call): int
  {
    match c
    case Adds(fd, ev) =>
      if fd < 0 then 0 else if Full(On(s, fd), ev) then -1 else if Want(On(s, fd) + [ev]) != Want(On(s, fd)) then 1 else 0
    case Dels(fd, ev) =>
      if fd < 0 || ev !in On(s, fd) then 0 else if Want(Without(On(s, fd), ev)) != Want(On(s, fd)) then 1 else 0
    case _ => 0
  }

  function Run(s: Plain, calls: seq<Call>): Plain
  {
    if calls == [] then s else Step(Run(s, calls[..|calls| - 1]), calls[|calls| - 1])
  }

  function AllReturn(s: Plain, calls: seq<Call>): seq<int>
  {
    seq(|calls|, k requires 0 <= k < |calls| => Returns(Run(s, calls[..k]), calls[k]))
  }

  ghost function Closed(calls: seq<Call>): set<Fd>
  {
    set k | 0 <= k < |calls| && calls[k].Closes? :: calls[k].fd
  }

  ghost function EventsOf(slots: map<Fd, Slot>): map<Fd, seq<Event>>
  {
    map fd | fd in slots :: slots[fd].events
  }

  /** The plain backend watches what is wanted, but on descriptors closed behind its back. */
  ghost predicate Keeps(s: Plain, closed: set<Fd>)
  {
    AllExact(s.kernel) && forall fd :: fd !in closed ==> Watched(s.kernel, fd) == Want(On(s, fd))
  }

  predicate Within(a: Mask, b: Mask)
  {
    (a.r ==> b.r) && (a.w ==> b.w)
  }

  lemma AtOnceIs(fd: Fd, before: Mask, after: Mask, add: bool)
    requires if add then Within(before, after) else Within(after, before)
    ensures var c := AtOnce(fd, before, after, add); Final(c) == after && c.fd == fd && c.before == before
  {
  }

  lemma MoreWanted(es: seq<Event>, ev: Event)
    ensures Within(Want(es), Want(es + [ev]))
  {
    CountMore(es, ev);
  }

  lemma LessWanted(es: seq<Event>, ev: Event)
    requires ev in es
    ensures Within(Want(Without(es, ev)), Want(es))
  {
    CountLess(es, ev);
  }

  /** A change from what is wanted to what is wanted after it. */
  lemma AppliedKeeps(s: Plain, closed: set<Fd>, fd: Fd, es': seq<Event>, c: Change)
    requires Keeps(s, closed) && c.fd == fd && c.before == Want(On(s, fd)) && Final(c) == Want(es')
    ensures Keeps(Plain(s.events[fd := es'], Applied(s.kernel, c)), closed)
  {
    hide Want, Final, NoOp;
    var k := Applied(s.kernel, c);
    forall x | x in k ensures k[x] != NONE {
      assert x in s.kernel ==> s.kernel[x] != NONE;
    }
    if fd !in closed { AppliedIs(s.kernel, c); }
  }

  lemma StepKeeps(s: Plain, c: Call, closed: set<Fd>)
    requires Keeps(s, closed)
    ensures Keeps(Step(s, c), if c.Closes? then closed + {c.fd} else closed)
  {
    hide Without, Full, AtOnce, Want, Within;
    match c
    case Adds(fd, ev) =>
      if fd >= 0 {
        var es := On(s, fd);
        var es' := if Full(es, ev) then es else es + [ev];
        assert Within(Want(es), Want(es)) by { Reflexive(Want(es)); }
        MoreWanted(es, ev);
        AtOnceIs(fd, Want(es), Want(es'), true);
        AppliedKeeps(s, closed, fd, es', AtOnce(fd, Want(es), Want(es'), true));
      }
    case Dels(fd, ev) =>
      if fd >= 0 && ev in On(s, fd) {
        var es := On(s, fd);
        LessWanted(es, ev);
        AtOnceIs(fd, Want(es), Want(Without(es, ev)), false);
        AppliedKeeps(s, closed, fd, Without(es, ev), AtOnce(fd, Want(es), Want(Without(es, ev)), false));
      }
    case Wait =>
    case Closes(fd) =>
  }

  lemma Reflexive(m: Mask)
    ensures Within(m, m)
  {
  }

  // ---- The poller

  /** The same events; and the poller is behind only where a descriptor was closed. */
  ghost predicate Matches(p: Poller, s: Plain, closed: set<Fd>)
    reads p
  {
    p.Valid() && EventsOf(p.slots) == s.events && AllExact(p.kernel) && p.behind <= closed && Keeps(s, closed)
  }

  /** A descriptor's slot and the plain events on it. */
  lemma SlotIs(v: View, s: Plain, fd: Fd)
    requires Good(v) && EventsOf(v.slots) == s.events
    ensures var was := Slotted(v, fd).slots[fd];
            was.events == On(s, fd) && was.nread == Readers(On(s, fd)) && was.nwrite == Writers(On(s, fd))
    ensures WantedOn(v.slots, fd) == Want(On(s, fd))
  {
    assert fd in v.slots <==> fd in s.events;
    if fd in v.slots {
      SlotCounted(v, fd);
      assert s.events[fd] == v.slots[fd].events;
    }
  }

  lemma OneSlot(before: map<Fd, Slot>, after: map<Fd, Slot>, fd: Fd, es: seq<Event>)
    requires Elsewhere(before, after, fd) && fd in after && after[fd].events == es
    ensures EventsOf(after) == EventsOf(before)[fd := es]
  {
    var m, m' := EventsOf(before)[fd := es], EventsOf(after);
    assert forall x :: x in m' <==> x in m;
    assert forall x :: x in m' ==> m'[x] == m[x];
  }

  method Do(p: Poller, c: Call, ghost s: Plain, ghost closed: set<Fd>) returns (r: int)
    requires Matches(p, s, closed)
    modifies p
    ensures Matches(p, Step(s, c), if c.Closes? then closed + {c.fd} else closed) && r == Returns(s, c)
  {
    hide Good, Readers, Writers, Without, Keeps, AllExact, Elsewhere;
    StepKeeps(s, c, closed);
    r := 0;
    match c
    case Adds(fd, ev) => r := DoAdd(p, fd, ev, s);
    case Dels(fd, ev) => r := DoDel(p, fd, ev, s);
    case Wait =>
      ghost var slots := p.slots;
      p.Dispatch();
      SameEventsOf(slots, p.slots);
    case Closes(fd) =>
      ghost var k := p.kernel;
      p.CloseFd(fd);
      StillExact(k, fd);
  }

  lemma SameEventsOf(before: map<Fd, Slot>, after: map<Fd, Slot>)
    requires SameEvents(before, after)
    ensures EventsOf(after) == EventsOf(before)
  {
    assert forall x :: x in before <==> x in before.Keys;
    assert forall x :: x in EventsOf(after) <==> x in EventsOf(before);
    assert forall x :: x in EventsOf(after) ==> EventsOf(after)[x] == EventsOf(before)[x];
  }

  lemma StillExact(kernel: map<Fd, Mask>, fd: Fd)
    requires AllExact(kernel)
    ensures AllExact(kernel - {fd})
  {
  }

  method DoAdd(p: Poller, fd: Fd, ev: Event, ghost s: Plain) returns (r: int)
    requires p.Valid() && EventsOf(p.slots) == s.events
    modifies p`slots, p`changes
    ensures p.Valid() && EventsOf(p.slots) == Step(s, Adds(fd, ev)).events && r == Returns(s, Adds(fd, ev))
  {
    hide Good, Readers, Writers, Elsewhere, AtOnce, EventsOf;
    ghost var v := p.V();
    SlotIs(v, s, fd);
    r := p.IoAdd(fd, ev);
    if fd >= 0 {
      OneSlot(v.slots, p.slots, fd, p.slots[fd].events);
      SlotIs(p.V(), Step(s, Adds(fd, ev)), fd);
    }
  }

  method DoDel(p: Poller, fd: Fd, ev: Event, ghost s: Plain) returns (r: int)
    requires p.Valid() && EventsOf(p.slots) == s.events
    modifies p`slots, p`changes
    ensures p.Valid() && EventsOf(p.slots) == Step(s, Dels(fd, ev)).events && r == Returns(s, Dels(fd, ev))
  {
    hide Good, Readers, Writers, Elsewhere, AtOnce, EventsOf, Without;
    ghost var v := p.V();
    SlotIs(v, s, fd);
    r := 0;
    if fd >= 0 && fd in p.slots && ev in p.slots[fd].events {
      r := p.IoDel(fd, ev);
      OneSlot(v.slots, p.slots, fd, p.slots[fd].events);
      SlotIs(p.V(), Step(s, Dels(fd, ev)), fd);
    }
  }

  lemma RunOneMore(s: Plain, calls: seq<Call>, c: Call)
    ensures Run(s, calls + [c]) == Step(Run(s, calls), c)
    ensures AllReturn(s, calls + [c]) == AllReturn(s, calls) + [Returns(Run(s, calls), c)]
    ensures Closed(calls + [c]) == Closed(calls) + if c.Closes? then {c.fd} else {}
  {
    hide Step, Returns;
    var more := calls + [c];
    assert more[..|calls|] == calls;
    forall k | 0 <= k < |calls| ensures more[..k] == calls[..k] && more[k] == calls[k] {
    }
    forall fd ensures fd in Closed(more) <==> fd in Closed(calls) || (c.Closes? && fd == c.fd) {
      if c.Closes? && fd == c.fd { assert more[|calls|].fd == fd; }
      if fd in Closed(calls) {
        var k :| 0 <= k < |calls| && calls[k].Closes? && calls[k].fd == fd;
        assert more[k].Closes? && more[k].fd == fd;
      }
    }
  }

  /** Any run of calls: the events, and what is returned, are those of the plain backend. */
  method Execute(p: Poller, calls: seq<Call>, ghost s: Plain, ghost closed: set<Fd>) returns (rs: seq<int>)
    requires Matches(p, s, closed)
    modifies p
    ensures Matches(p, Run(s, calls), closed + Closed(calls)) && rs == AllReturn(s, calls)
  {
    hide Step, Returns, Closed, AllReturn, Run, Matches;
    rs := [];
    NoneYet(s, closed);
    for i := 0 to |calls|
      invariant Matches(p, Run(s, calls[..i]), closed + Closed(calls[..i])) && rs == AllReturn(s, calls[..i])
    {
      RunOneMore(s, calls[..i], calls[i]);
      assert calls[..i] + [calls[i]] == calls[..i + 1];
      ghost var shut := closed + Closed(calls[..i]);
      assert closed + Closed(calls[..i + 1]) == if calls[i].Closes? then shut + {calls[i].fd} else shut;
      var r := Do(p, calls[i], Run(s, calls[..i]), shut);
      rs := rs + [r];
    }
    assert calls[..|calls|] == calls;
  }

  lemma NoneYet(s: Plain, closed: set<Fd>)
    ensures Run(s, []) == s && AllReturn(s, []) == [] && closed + Closed([]) == closed
  {
  }

  lemma SameWatch(k: map<Fd, Mask>, k': map<Fd, Mask>)
    requires AllExact(k) && AllExact(k') && forall fd :: Watched(k, fd) == Watched(k', fd)
    ensures k == k'
  {
    forall fd ensures fd in k <==> fd in k' { assert Watched(k, fd) == Watched(k', fd); }
    forall fd | fd in k ensures k[fd] == k'[fd] { assert Watched(k, fd) == Watched(k', fd); }
  }

  /**
   * From the start: whatever is added, deleted, waited for and closed, before the next wait the kernel watches every
   * descriptor that was not closed exactly as if each call had been passed on at once; and if none was, it is the same.
   */
  method LikeAtOnce(calls: seq<Call>) returns (p: Poller, rs: seq<int>)
    ensures fresh(p) && p.Valid() && rs == AllReturn(Plain(map[], map[]), calls)
    ensures var s := Run(Plain(map[], map[]), calls);
            && EventsOf(p.slots) == s.events
            && (forall fd :: fd !in Closed(calls) ==> Watched(p.kernel, fd) == Watched(s.kernel, fd) == Want(On(s, fd)))
            && (Closed(calls) == {} ==> p.kernel == s.kernel)
  {
    hide Good, Step, Returns, Run, AllReturn, Closed, Readers, Writers;
    p := new Poller();
    ghost var s0 := Plain(map[], map[]);
    assert Want([]) == NONE by { WantNothing(); }
    rs := Execute(p, calls, s0, {});
    ghost var s := Run(s0, calls);
    assert {} + Closed(calls) == Closed(calls);
    ghost var slots := p.slots;
    p.Dispatch();
    SameEventsOf(slots, p.slots);
    forall fd | fd !in Closed(calls) ensures Watched(p.kernel, fd) == Watched(s.kernel, fd) == Want(On(s, fd)) {
      SlotIs(p.V(), s, fd);
    }
    if Closed(calls) == {} { SameWatch(p.kernel, s.kernel); }
  }

  lemma WantNothing()
    ensures Want([]) == NONE
  {
  }
}
