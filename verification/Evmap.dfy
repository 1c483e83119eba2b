/**
 * The events wanted on each file descriptor, the list of changes not yet told to the kernel, and the epoll
 * instance that is told them before each wait.
 */
module Evmap {
  import opened Seqs

  type Fd = int

  /** EV_READ and EV_WRITE, or EPOLLIN and EPOLLOUT. */
  datatype Mask = Mask(r: bool, w: bool)

  const NONE := Mask(false, false)

  /** An event on a descriptor; at most one of each id. */
  datatype Event = Event(id: nat, wants: Mask)

  /** struct evmap_io, with the fdinfo that follows it. */
  datatype Slot = Slot(nread: nat, nwrite: nat, events: seq<Event>, idxplus1: nat)

  datatype Chg = Keep | Add | Del

  /** struct event_change */
  datatype Change = Change(fd: Fd, before: Mask, read: Chg, write: Chg)

  // ---- What is wanted

  function Readers(events: seq<Event>): nat
  {
    if events == [] then 0 else (if events[0].wants.r then 1 else 0) + Readers(events[1..])
  }

  function Writers(events: seq<Event>): nat
  {
    if events == [] then 0 else (if events[0].wants.w then 1 else 0) + Writers(events[1..])
  }

  /** What the counters of a slot say is wanted. */
  function Wanted(s: Slot): Mask
  {
    Mask(s.nread > 0, s.nwrite > 0)
  }

  function WantedOn(slots: map<Fd, Slot>, fd: Fd): Mask
  {
    if fd in slots then Wanted(slots[fd]) else NONE
  }

  /** The counters count the events. */
  ghost predicate Counted(s: Slot)
  {
    s.nread == Readers(s.events) <= 0xffff && s.nwrite == Writers(s.events) <= 0xffff
  }

  /** So a direction is wanted exactly when some event wants it. */
  lemma {:induction false} WantedBySome(events: seq<Event>)
    ensures Readers(events) > 0 <==> exists e :: e in events && e.wants.r
    ensures Writers(events) > 0 <==> exists e :: e in events && e.wants.w
  {
    if events != [] {
      WantedBySome(events[1..]);
      assert events == [events[0]] + events[1..];
    }
  }

  lemma {:induction false} CountMore(events: seq<Event>, e: Event)
    ensures Readers(events + [e]) == Readers(events) + if e.wants.r then 1 else 0
    ensures Writers(events + [e]) == Writers(events) + if e.wants.w then 1 else 0
  {
    if events == [] {
      assert events + [e] == [e] && [e][1..] == [];
    } else {
      CountMore(events[1..], e);
      assert (events + [e])[1..] == events[1..] + [e];
    }
  }

  lemma {:induction false} CountLess(events: seq<Event>, e: Event)
    requires e in events
    ensures Readers(Without(events, e)) == Readers(events) - if e.wants.r then 1 else 0
    ensures Writers(Without(events, e)) == Writers(events) - if e.wants.w then 1 else 0
  {
    if events[0] != e {
      CountLess(events[1..], e);
      assert Without(events, e)[1..] == Without(events[1..], e);
    }
  }

  // ---- Changes

  /** What is watched on a descriptor once a change has been made. */
  function Final(c: Change): Mask
  {
    Mask(c.read.Add? || (c.read.Keep? && c.before.r), c.write.Add? || (c.write.Keep? && c.before.w))
  }

  predicate NoOp(c: Change)
  {
    c.read.Keep? && c.write.Keep?
  }

  /** event_changelist_add: an add replaces a delete. */
  function Adding(c: Change, m: Mask): Change
  {
    c.(read := if m.r then Add else c.read, write := if m.w then Add else c.write)
  }

  /** event_changelist_del: a delete takes back an add of what was not there, and else replaces it. */
  function Deleting(c: Change, m: Mask): Change
  {
    c.(read := if !m.r then c.read else if !c.before.r && c.read.Add? then Keep else Del,
       write := if !m.w then c.write else if !c.before.w && c.write.Add? then Keep else Del)
  }

  function Or(a: Mask, b: Mask): Mask
  {
    Mask(a.r || b.r, a.w || b.w)
  }

  function Minus(a: Mask, b: Mask): Mask
  {
    Mask(a.r && !b.r, a.w && !b.w)
  }

  lemma ChangesCompose(c: Change, m: Mask)
    ensures Final(Adding(c, m)) == Or(Final(c), m) && Final(Deleting(c, m)) == Minus(Final(c), m)
  {
  }

  /** A request to a backend: evsel->add or evsel->del. */
  datatype Request = Request(add: bool, m: Mask)

  function Amended(c: Change, q: Request): Change
  {
    if q.add then Adding(c, q.m) else Deleting(c, q.m)
  }

  /** Requests gathered in one change. */
  function Gathered(c: Change, qs: seq<Request>): Change
    decreases |qs|
  {
    if qs == [] then c else Gathered(Amended(c, qs[0]), qs[1..])
  }

  // ---- The kernel's side

  datatype Op = CtlAdd | CtlMod | CtlDel
  datatype Errno = Ok | EEXIST | ENOENT

  /** epoll_ctl */
  function Ctl(kernel: map<Fd, Mask>, op: Op, fd: Fd, m: Mask): (map<Fd, Mask>, Errno)
  {
    match op
    case CtlAdd => if fd in kernel then (kernel, EEXIST) else (kernel[fd := m], Ok)
    case CtlMod => if fd in kernel then (kernel[fd := m], Ok) else (kernel, ENOENT)
    case CtlDel => if fd in kernel then (kernel - {fd}, Ok) else (kernel, ENOENT)
  }

  function Watched(kernel: map<Fd, Mask>, fd: Fd): Mask
  {
    if fd in kernel then kernel[fd] else NONE
  }

  /** The kernel watches fd for m, or not at all. */
  function Watching(kernel: map<Fd, Mask>, fd: Fd, m: Mask): map<Fd, Mask>
  {
    if m == NONE then kernel - {fd} else kernel[fd := m]
  }

  /** What the kernel has when a change has been made. */
  function Applied(kernel: map<Fd, Mask>, c: Change): map<Fd, Mask>
  {
    if NoOp(c) then kernel else Watching(kernel, c.fd, Final(c))
  }

  /** Requests passed on at once, each as a change of its own (epoll_nochangelist_add, epoll_nochangelist_del). */
  function OneByOne(kernel: map<Fd, Mask>, fd: Fd, wanted: Mask, qs: seq<Request>): map<Fd, Mask>
    decreases |qs|
  {
    if qs == [] then kernel
    else
      var c := Amended(Change(fd, wanted, Keep, Keep), qs[0]);
      OneByOne(Applied(kernel, c), fd, Final(c), qs[1..])
  }

  /** The kernel has fd exactly if it watches it for something. */
  predicate Exact(kernel: map<Fd, Mask>, fd: Fd)
  {
    fd in kernel ==> kernel[fd] != NONE
  }

  /** So it is for every descriptor. */
  ghost predicate AllExact(kernel: map<Fd, Mask>)
  {
    forall fd :: fd in kernel ==> kernel[fd] != NONE
  }

  /** Gathering requests changes nothing but the number of calls: the kernel is left the same. */
  lemma {:induction false} GatheringIsSafe(kernel: map<Fd, Mask>, c: Change, qs: seq<Request>)
    requires Exact(kernel, c.fd) && Watched(kernel, c.fd) == c.before
    ensures OneByOne(Applied(kernel, c), c.fd, Final(c), qs) == Applied(kernel, Gathered(c, qs))
    decreases |qs|
  {
    if qs != [] {
      var d := Amended(Change(c.fd, Final(c), Keep, Keep), qs[0]);
      ChangesCompose(c, qs[0].m);
      ChangesCompose(Change(c.fd, Final(c), Keep, Keep), qs[0].m);
      GatheringIsSafe(kernel, Amended(c, qs[0]), qs[1..]);
      AppliedTwice(kernel, c, d, Amended(c, qs[0]));
    }
  }

  /** One change after another, or one that does what both do. */
  lemma AppliedTwice(kernel: map<Fd, Mask>, c: Change, d: Change, e: Change)
    requires Exact(kernel, c.fd) && Watched(kernel, c.fd) == c.before && e.before == c.before
    requires c.fd == d.fd == e.fd && d.before == Final(c) && Final(d) == Final(e)
    ensures Applied(Applied(kernel, c), d) == Applied(kernel, e)
  {
    AppliedIs(kernel, c);
    AppliedIs(kernel, e);
    AppliedIs(Applied(kernel, c), d);
    var k := Watching(kernel, c.fd, Final(c));
    assert Watching(k, c.fd, Final(d)) == Watching(kernel, c.fd, Final(d));
  }

  /** A change that starts from what is watched leaves its final mask, even if it asks for nothing. */
  lemma AppliedIs(kernel: map<Fd, Mask>, c: Change)
    requires Exact(kernel, c.fd) && Watched(kernel, c.fd) == c.before
    ensures Applied(kernel, c) == Watching(kernel, c.fd, Final(c))
    ensures Exact(Applied(kernel, c), c.fd) && Watched(Applied(kernel, c), c.fd) == Final(c)
  {
    if NoOp(c) {
      assert Final(c) == c.before;
      assert Watching(kernel, c.fd, c.before) == kernel;
    }
  }

  /** The call epoll_apply_one_change makes first; no call is made for an empty mask. */
  function Decide(c: Change): (Op, Mask)
  {
    if c.read.Add? || c.write.Add? then
      (if c.before != NONE then CtlMod else CtlAdd,
       Mask(if c.read.Add? then true else if c.read.Del? then false else c.before.r,
            if c.write.Add? then true else if c.write.Del? then false else c.before.w))
    else if c.read.Del? then
      if c.write.Del? then (CtlDel, Mask(true, true))
      else if c.before.w then (CtlMod, Mask(false, true))
      else (CtlDel, Mask(true, false))
    else if c.write.Del? then
      if c.before.r then (CtlMod, Mask(true, false)) else (CtlDel, Mask(false, true))
    else (CtlAdd, NONE)
  }

  // ---- The whole state

  datatype View = View(
    slots: map<Fd, Slot>,
    changes: seq<Change>,
    kernel: map<Fd, Mask>,   // the epoll instance
    behind: set<Fd>)         // descriptors closed, or closed and reopened, since the kernel was last told of them

  /** The change for fd, if there is one, is where its slot says; once it is made, fd is watched for what is wanted. */
  ghost predicate FdOk(v: View, fd: Fd)
    requires fd in v.slots
  {
    var s := v.slots[fd];
    && Counted(s) && s.idxplus1 <= |v.changes|
    && if s.idxplus1 == 0 then fd !in v.behind ==> Watched(v.kernel, fd) == Wanted(s)
       else
         var c := v.changes[s.idxplus1 - 1];
         c.fd == fd && Final(c) == Wanted(s) && (fd !in v.behind ==> Watched(v.kernel, fd) == c.before)
  }

  /** Each change belongs to one descriptor, which knows it. */
  ghost predicate ChangeOk(v: View, i: nat)
    requires i < |v.changes|
  {
    v.changes[i].fd in v.slots && v.slots[v.changes[i].fd].idxplus1 == i + 1
  }

  ghost predicate Good(v: View)
  {
    && (forall fd :: fd in v.slots ==> FdOk(v, fd))
    && (forall i :: 0 <= i < |v.changes| ==> ChangeOk(v, i))
    && (forall fd :: fd !in v.slots && fd !in v.behind ==> Watched(v.kernel, fd) == NONE)
  }

  function Slotted(v: View, fd: Fd): View
  {
    if fd in v.slots then v else v.(slots := v.slots[fd := Slot(0, 0, [], 0)])
  }

  lemma SlottedGood(v: View, fd: Fd)
    requires Good(v)
    ensures Good(Slotted(v, fd)) && forall x :: WantedOn(Slotted(v, fd).slots, x) == WantedOn(v.slots, x)
  {
    var w := Slotted(v, fd);
    forall x | x in w.slots ensures FdOk(w, x) { if x in v.slots { assert FdOk(v, x); } }
    forall i | 0 <= i < |w.changes| ensures ChangeOk(w, i) { assert ChangeOk(v, i); }
  }

  /** event_changelist_get_or_construct */
  function Constructed(v: View, fd: Fd, before: Mask): (w: View)
    requires fd in v.slots
    ensures fd in w.slots
  {
    if v.slots[fd].idxplus1 != 0 then v
    else v.(changes := v.changes + [Change(fd, before, Keep, Keep)],
            slots := v.slots[fd := v.slots[fd].(idxplus1 := |v.changes| + 1)])
  }

  lemma ConstructedGood(v: View, fd: Fd)
    requires Good(v) && fd in v.slots
    ensures var w := Constructed(v, fd, Wanted(v.slots[fd]));
            Good(w) && 0 < w.slots[fd].idxplus1 <= |w.changes| && w.changes[w.slots[fd].idxplus1 - 1].fd == fd
            && Final(w.changes[w.slots[fd].idxplus1 - 1]) == Wanted(v.slots[fd])
  {
    var w := Constructed(v, fd, Wanted(v.slots[fd]));
    assert FdOk(v, fd);
    forall x | x in w.slots ensures FdOk(w, x) { assert FdOk(v, x); }
    forall i | 0 <= i < |w.changes| ensures ChangeOk(w, i) { if i < |v.changes| { assert ChangeOk(v, i); } }
  }

  /** A change of a descriptor that has one, and of what is wanted on it. */
  lemma ChangedGood(v: View, fd: Fd, c: Change, s: Slot)
    requires Good(v) && fd in v.slots && 0 < v.slots[fd].idxplus1 == s.idxplus1 <= |v.changes| && Counted(s)
    requires c.fd == fd && c.before == v.changes[s.idxplus1 - 1].before && Final(c) == Wanted(s)
    ensures Good(v.(slots := v.slots[fd := s], changes := v.changes[s.idxplus1 - 1 := c]))
  {
    var w := v.(slots := v.slots[fd := s], changes := v.changes[s.idxplus1 - 1 := c]);
    assert FdOk(v, fd);
    forall x | x in w.slots ensures FdOk(w, x) {
      assert FdOk(v, x);
      if x != fd && v.slots[x].idxplus1 > 0 { assert ChangeOk(v, v.slots[x].idxplus1 - 1) && ChangeOk(v, s.idxplus1 - 1); }
    }
    forall i | 0 <= i < |w.changes| ensures ChangeOk(w, i) { assert ChangeOk(v, i); }
  }

  /** event_changelist_add or event_changelist_del. */
  function Queued(v: View, fd: Fd, m: Mask, add: bool): (w: View)
    requires fd in v.slots
    ensures fd in w.slots && w.slots == v.slots[fd := v.slots[fd].(idxplus1 := w.slots[fd].idxplus1)]
  {
    var w := Constructed(v, fd, Wanted(v.slots[fd]));
    var k := w.slots[fd].idxplus1 - 1;
    if 0 <= k < |w.changes| then
      w.(changes := w.changes[k := if add then Adding(w.changes[k], m) else Deleting(w.changes[k], m)])
    else w
  }

  /** The change queued, and the counters stored after it. */
  lemma QueuedGood(v: View, fd: Fd, m: Mask, add: bool, s: Slot)
    requires Good(v) && fd in v.slots && Counted(s)
    requires Wanted(s) == if add then Or(Wanted(v.slots[fd]), m) else Minus(Wanted(v.slots[fd]), m)
    requires s.idxplus1 == Queued(v, fd, m, add).slots[fd].idxplus1
    ensures var w := Queued(v, fd, m, add); Good(w.(slots := w.slots[fd := s]))
  {
    hide Good;
    ConstructedGood(v, fd);
    var w := Constructed(v, fd, Wanted(v.slots[fd]));
    var k := w.slots[fd].idxplus1 - 1;
    ChangesCompose(w.changes[k], m);
    ChangedGood(w, fd, if add then Adding(w.changes[k], m) else Deleting(w.changes[k], m), s);
  }

  /** More or fewer events on a descriptor, with the same directions wanted as before. */
  lemma SameWantGood(v: View, fd: Fd, s: Slot)
    requires Good(v) && fd in v.slots && v.slots[fd].idxplus1 == s.idxplus1 && Counted(s) && Wanted(s) == Wanted(v.slots[fd])
    ensures Good(v.(slots := v.slots[fd := s]))
  {
    var w := v.(slots := v.slots[fd := s]);
    forall x | x in w.slots ensures FdOk(w, x) { assert FdOk(v, x); }
    forall i | 0 <= i < |w.changes| ensures ChangeOk(w, i) { assert ChangeOk(v, i); }
  }

  class Poller {
    var slots: map<Fd, Slot>
    var changes: seq<Change>
    var kernel: map<Fd, Mask>
    ghost var behind: set<Fd>

    ghost function V(): View
      reads this
    {
      View(slots, changes, kernel, behind)
    }

    ghost predicate Valid()
      reads this
    {
      Good(V())
    }

    constructor ()
      ensures Valid() && slots == map[] && kernel == map[] && behind == {}
    {
      slots, changes, kernel, behind := map[], [], map[], {};
    }

    /** event_changelist_get_or_construct */
    method GetOrConstruct(fd: Fd, before: Mask) returns (k: nat)
      requires Valid() && fd in slots && before == Wanted(slots[fd])
      modifies this`slots, this`changes
      ensures Valid() && V() == Constructed(old(V()), fd, before) && k + 1 == slots[fd].idxplus1 <= |changes|
    {
      ConstructedGood(V(), fd);
      if slots[fd].idxplus1 == 0 {
        changes := changes + [Change(fd, before, Keep, Keep)];
        slots := slots[fd := slots[fd].(idxplus1 := |changes|)];
      }
      k := slots[fd].idxplus1 - 1;
    }

    /** event_changelist_add */
    method ChangelistAdd(fd: Fd, before: Mask, m: Mask)
      requires Valid() && fd in slots && before == Wanted(slots[fd])
      modifies this`slots, this`changes
      ensures V() == Queued(old(V()), fd, m, true)
    {
      hide Good;
      var k := GetOrConstruct(fd, before);
      var c := changes[k];
      if m.r { c := c.(read := Add); }
      if m.w { c := c.(write := Add); }
      changes := changes[k := c];
    }

    /** event_changelist_del */
    method ChangelistDel(fd: Fd, before: Mask, m: Mask)
      requires Valid() && fd in slots && before == Wanted(slots[fd])
      modifies this`slots, this`changes
      ensures V() == Queued(old(V()), fd, m, false)
    {
      hide Good;
      var k := GetOrConstruct(fd, before);
      var c := changes[k];
      if m.r {
        c := if !c.before.r && c.read.Add? then c.(read := Keep) else c.(read := Del);
      }
      if m.w {
        c := if !c.before.w && c.write.Add? then c.(write := Keep) else c.(write := Del);
      }
      changes := changes[k := c];
    }

    /** evmap_io_add on a backend with a changelist. */
    method IoAdd(fd: Fd, ev: Event) returns (r: int)
      requires Valid()
      modifies this`slots, this`changes
      ensures Valid()
      ensures fd < 0 ==> r == 0 && slots == old(slots)
      ensures fd >= 0 ==> fd in slots && var was := Slotted(old(V()), fd).slots[fd];
              && (r == -1 <==> (ev.wants.r && was.nread == 0xffff) || (ev.wants.w && was.nwrite == 0xffff))
              && slots[fd].events == if r == -1 then was.events else was.events + [ev]
      ensures r == 1 <==> WantedOn(slots, fd) != WantedOn(old(slots), fd)
      ensures -1 <= r <= 1
      ensures Elsewhere(old(slots), slots, fd)
    {
      hide Good;
      if fd < 0 {
        return 0;
      }
      SlottedGood(V(), fd);
      if fd !in slots {
        slots := slots[fd := Slot(0, 0, [], 0)];
      }
      r := AddTo(fd, ev);
    }

    /** The same, when the descriptor has its slot. */
    method AddTo(fd: Fd, ev: Event) returns (r: int)
      requires Valid() && fd in slots
      modifies this`slots, this`changes
      ensures Valid() && fd in slots
      ensures r == -1 <==> (ev.wants.r && old(slots)[fd].nread == 0xffff) || (ev.wants.w && old(slots)[fd].nwrite == 0xffff)
      ensures slots[fd].events == if r == -1 then old(slots)[fd].events else old(slots)[fd].events + [ev]
      ensures r == 1 <==> Wanted(slots[fd]) != Wanted(old(slots)[fd])
      ensures -1 <= r <= 1
      ensures Elsewhere(old(slots), slots, fd)
    {
      hide Good, Queued, Readers, Writers;
      ghost var v := V();
      SlotCounted(v, fd);
      CountMore(slots[fd].events, ev);
      var nread, nwrite := slots[fd].nread, slots[fd].nwrite;
      var before := Mask(nread > 0, nwrite > 0);
      var res := NONE;
      if ev.wants.r {
        nread := nread + 1;
        if nread == 1 { res := res.(r := true); }
      }
      if ev.wants.w {
        nwrite := nwrite + 1;
        if nwrite == 1 { res := res.(w := true); }
      }
      if nread > 0xffff || nwrite > 0xffff {
        return -1;
      }
      r := 0;
      if res != NONE {
        ChangelistAdd(fd, before, res);
        r := 1;
      }
      var s := slots[fd].(nread := nread, nwrite := nwrite, events := slots[fd].events + [ev]);
      if r == 1 { QueuedGood(v, fd, res, true, s); } else { SameWantGood(v, fd, s); }
      slots := slots[fd := s];
    }

    /** evmap_io_del on a backend with a changelist; ev was added. */
    method IoDel(fd: Fd, ev: Event) returns (r: int)
      requires Valid() && (fd >= 0 ==> fd in slots && ev in slots[fd].events)
      modifies this`slots, this`changes
      ensures Valid()
      ensures fd < 0 ==> r == 0 && slots == old(slots)
      ensures fd >= 0 ==> fd in slots && slots[fd].events == Without(old(slots)[fd].events, ev)
      ensures r == 1 <==> WantedOn(slots, fd) != WantedOn(old(slots), fd)
      ensures r == 0 || r == 1
      ensures Elsewhere(old(slots), slots, fd)
    {
      hide Good, Queued, Readers, Writers, Without;
      if fd < 0 {
        return 0;
      }
      ghost var v := V();
      SlotCounted(v, fd);
      CountLess(slots[fd].events, ev);
      var nread, nwrite := slots[fd].nread, slots[fd].nwrite;
      var before := Mask(nread > 0, nwrite > 0);
      var res := NONE;
      if ev.wants.r {
        nread := nread - 1;
        if nread == 0 { res := res.(r := true); }
      }
      if ev.wants.w {
        nwrite := nwrite - 1;
        if nwrite == 0 { res := res.(w := true); }
      }
      r := 0;
      if res != NONE {
        ChangelistDel(fd, before, res);
        r := 1;
      }
      var s := slots[fd].(nread := nread, nwrite := nwrite, events := Without(slots[fd].events, ev));
      if r == 1 { QueuedGood(v, fd, res, false, s); } else { SameWantGood(v, fd, s); }
      slots := slots[fd := s];
    }

    /** The program closes a descriptor, which the kernel then stops watching. */
    method CloseFd(fd: Fd)
      requires Valid()
      modifies this`kernel, this`behind
      ensures Valid() && kernel == old(kernel) - {fd} && behind == old(behind) + {fd}
    {
      ghost var v := V();
      kernel := kernel - {fd};
      behind := behind + {fd};
      forall x | x in slots ensures FdOk(V(), x) { assert FdOk(v, x); }
      forall i | 0 <= i < |changes| ensures ChangeOk(V(), i) { assert ChangeOk(v, i); }
    }

    /** epoll_apply_one_change: whatever the kernel had, it now watches what the change says; it never fails. */
    method ApplyOne(c: Change) returns (r: int)
      modifies this`kernel
      ensures r == 0
      ensures kernel == Applied(old(kernel), c)
    {
      var (op, events) := Decide(c);
      if events == NONE {
        return 0;
      }
      var (k, errno) := Ctl(kernel, op, c.fd, events);
      kernel := k;
      if errno != Ok {
        if op == CtlMod && errno == ENOENT {
          var (k2, errno2) := Ctl(kernel, CtlAdd, c.fd, events);
          kernel := k2;
          if errno2 != Ok {
            return -1;
          }
        } else if op == CtlAdd && errno == EEXIST {
          var (k2, errno2) := Ctl(kernel, CtlMod, c.fd, events);
          kernel := k2;
          if errno2 != Ok {
            return -1;
          }
        } else if op == CtlDel && errno == ENOENT {
        } else {
          return -1;
        }
      }
      r := 0;
    }

    /** Requests on one descriptor without a changelist: the kernel is left as by the one change they make up. */
    method ApplyEach(fd: Fd, before: Mask, qs: seq<Request>)
      requires Exact(kernel, fd) && Watched(kernel, fd) == before
      modifies this`kernel
      ensures kernel == Applied(old(kernel), Gathered(Change(fd, before, Keep, Keep), qs))
    {
      ghost var k0 := kernel;
      GatheringIsSafe(k0, Change(fd, before, Keep, Keep), qs);
      var wanted, i := before, 0;
      assert qs[0..] == qs;
      while i < |qs|
        invariant 0 <= i <= |qs| && OneByOne(k0, fd, before, qs) == OneByOne(kernel, fd, wanted, qs[i..])
      {
        var c := Amended(Change(fd, wanted, Keep, Keep), qs[i]);
        assert qs[i..][1..] == qs[i + 1..];
        var _ := ApplyOne(c);
        wanted, i := Final(c), i + 1;
      }
      assert qs[i..] == [];
    }

    /** epoll_apply_changes */
    method ApplyChanges() returns (r: int)
      requires Valid()
      modifies this`kernel
      ensures r == 0
      ensures forall x :: Watched(kernel, x) == Told(old(V()), |changes|, x)
      ensures AllExact(old(kernel)) ==> AllExact(kernel)
    {
      ghost var v := V();
      r := 0;
      var i := 0;
      while i < |changes|
        invariant 0 <= i <= |changes| && r == 0 && forall x :: Watched(kernel, x) == Told(v, i, x)
        invariant AllExact(old(kernel)) ==> AllExact(kernel)
      {
        ghost var k := kernel;
        ToldNext(v, i);
        var q := ApplyOne(changes[i]);
        if q < 0 {
          r := -1;
        }
        forall x ensures Watched(kernel, x) == Told(v, i + 1, x) {
          assert Watched(k, x) == Told(v, i, x);
        }
        i := i + 1;
      }
    }

    /** event_changelist_remove_all */
    method RemoveAll()
      requires IndexOk(V())
      modifies this`slots, this`changes
      ensures changes == [] && slots == Cleared(old(slots), |old(changes)|)
    {
      hide Cleared, IndexOk;
      ghost var v := V();
      ClearedNone(v);
      var i := 0;
      while i < |changes|
        invariant 0 <= i <= |changes| && changes == v.changes && slots == Cleared(v.slots, i)
      {
        ClearedNext(v, i);
        var fd := changes[i].fd;
        slots := slots[fd := slots[fd].(idxplus1 := 0)];
        i := i + 1;
      }
      changes := [];
    }

    /**
     * What epoll_dispatch does before it waits. The kernel then watches each descriptor for exactly what some event
     * on it wants, unless the descriptor was closed behind the library's back and nothing was asked of it since.
     */
    method Dispatch()
      requires Valid()
      modifies this
      ensures Valid() && changes == []
      ensures forall fd :: WantedOn(slots, fd) == WantedOn(old(slots), fd)
      ensures behind == old(behind) - Asked(old(changes)) && SameEvents(old(slots), slots)
      ensures AllExact(old(kernel)) ==> AllExact(kernel)
      ensures forall fd :: fd !in behind ==> Watched(kernel, fd) == WantedOn(slots, fd)
    {
      hide Good, IndexOk, Told, Cleared, Asked, AllExact, SameEvents;
      ghost var v := V();
      GoodIndex(v);
      var _ := ApplyChanges();
      IndexSame(v, V());
      RemoveAll();
      behind := behind - Asked(v.changes);
      DispatchGood(v, V());
      ClearedEvents(v);
    }
  }

  /** Nothing has changed on other descriptors. */
  ghost predicate Elsewhere(before: map<Fd, Slot>, after: map<Fd, Slot>, fd: Fd)
  {
    forall x :: x != fd ==> (x in after <==> x in before) && (x in after ==> after[x] == before[x])
  }

  lemma SlotCounted(v: View, fd: Fd)
    requires Good(v) && fd in v.slots
    ensures Counted(v.slots[fd])
  {
    assert FdOk(v, fd);
  }

  /** What the kernel watches on x when the first n changes have been made. */
  ghost function Told(v: View, n: nat, x: Fd): Mask
  {
    if x in v.slots && 0 < v.slots[x].idxplus1 <= n && v.slots[x].idxplus1 <= |v.changes| && !NoOp(v.changes[v.slots[x].idxplus1 - 1])
    then Final(v.changes[v.slots[x].idxplus1 - 1]) else Watched(v.kernel, x)
  }

  /** The slots when the first n changes have been dropped. */
  ghost function Cleared(slots: map<Fd, Slot>, n: nat): map<Fd, Slot>
  {
    map x | x in slots :: if 0 < slots[x].idxplus1 <= n then slots[x].(idxplus1 := 0) else slots[x]
  }

  /** The descriptors for which the changes ask something. */
  ghost function Asked(changes: seq<Change>): set<Fd>
  {
    set i | 0 <= i < |changes| && !NoOp(changes[i]) :: changes[i].fd
  }

  lemma DispatchGood(v: View, w: View)
    requires Good(v) && w.slots == Cleared(v.slots, |v.changes|) && w.changes == [] && w.behind == v.behind - Asked(v.changes)
    requires forall x :: Watched(w.kernel, x) == Told(v, |v.changes|, x)
    ensures Good(w)
    ensures forall x :: WantedOn(w.slots, x) == WantedOn(v.slots, x)
    ensures forall x :: x !in w.behind ==> Watched(w.kernel, x) == WantedOn(w.slots, x)
  {
    forall x ensures WantedOn(w.slots, x) == WantedOn(v.slots, x) && (x !in w.behind ==> Watched(w.kernel, x) == WantedOn(w.slots, x)) {
      if x in v.slots {
        assert FdOk(v, x);
        var k := v.slots[x].idxplus1;
        if k > 0 && !NoOp(v.changes[k - 1]) { assert x in Asked(v.changes); }
        if k == 0 || NoOp(v.changes[k - 1]) {
          NotAsked(v, x);
        }
      } else {
        NotAsked(v, x);
      }
    }
    forall x | x in w.slots ensures FdOk(w, x) { assert FdOk(v, x); }
  }

  /** Slots and changes refer to each other. */
  ghost predicate IndexOk(v: View)
  {
    && (forall x :: x in v.slots ==> v.slots[x].idxplus1 <= |v.changes| && (v.slots[x].idxplus1 > 0 ==> v.changes[v.slots[x].idxplus1 - 1].fd == x))
    && (forall i :: 0 <= i < |v.changes| ==> ChangeOk(v, i))
  }

  lemma GoodIndex(v: View)
    requires Good(v)
    ensures IndexOk(v)
  {
    forall x | x in v.slots ensures v.slots[x].idxplus1 <= |v.changes| && (v.slots[x].idxplus1 > 0 ==> v.changes[v.slots[x].idxplus1 - 1].fd == x) {
      assert FdOk(v, x);
    }
  }

  lemma IndexSame(v: View, w: View)
    requires IndexOk(v) && w.slots == v.slots && w.changes == v.changes
    ensures IndexOk(w)
  {
    forall i | 0 <= i < |w.changes| ensures ChangeOk(w, i) { assert ChangeOk(v, i); }
  }

  lemma ToldNext(v: View, i: nat)
    requires Good(v) && i < |v.changes|
    ensures var c := v.changes[i];
            && Told(v, i + 1, c.fd) == (if NoOp(c) then Told(v, i, c.fd) else Final(c))
            && forall x :: x != c.fd ==> Told(v, i + 1, x) == Told(v, i, x)
  {
    GoodIndex(v);
    assert ChangeOk(v, i);
  }

  lemma ClearedNone(v: View)
    ensures Cleared(v.slots, 0) == v.slots
  {
  }

  /** The same events on the same descriptors. */
  ghost predicate SameEvents(before: map<Fd, Slot>, after: map<Fd, Slot>)
  {
    after.Keys == before.Keys && forall x :: x in before ==> after[x].events == before[x].events
  }

  lemma ClearedEvents(v: View)
    ensures SameEvents(v.slots, Cleared(v.slots, |v.changes|))
  {
  }

  lemma ClearedNext(v: View, i: nat)
    requires IndexOk(v) && i < |v.changes|
    ensures var fd, m := v.changes[i].fd, Cleared(v.slots, i);
            fd in m && Cleared(v.slots, i + 1) == m[fd := m[fd].(idxplus1 := 0)]
  {
    assert ChangeOk(v, i);
    var fd, m := v.changes[i].fd, Cleared(v.slots, i);
    assert m[fd].idxplus1 == i + 1;
    forall x | x in v.slots ensures Cleared(v.slots, i + 1)[x] == m[fd := m[fd].(idxplus1 := 0)][x] {
      if x != fd { assert v.slots[x].idxplus1 != i + 1; }
    }
  }

  lemma NotAsked(v: View, x: Fd)
    requires Good(v)
    requires x !in v.slots || v.slots[x].idxplus1 == 0 || (v.slots[x].idxplus1 <= |v.changes| && NoOp(v.changes[v.slots[x].idxplus1 - 1]))
    ensures x !in Asked(v.changes)
  {
    forall i | 0 <= i < |v.changes| && !NoOp(v.changes[i]) ensures v.changes[i].fd != x {
      assert ChangeOk(v, i);
    }
  }
}
