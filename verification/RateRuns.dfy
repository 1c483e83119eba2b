/** Whole runs of a bufferevent with a rate limit: what it lets through, and whether a direction is ever forgotten. */
module RateRuns {
  import opened RateLimit
  import opened Seqs
  import opened TokenBucket

  datatype Snap = Snap(
    on: bool,
    cfg: Limits,
    read: SSize,
    write: SSize,
    last: UInt32,
    readSus: bool,
    writeSus: bool,
    pending: bool,
    firing: bool)

  ghost function View(l: Limited): Snap
    reads l
  {
    Snap(l.on, l.cfg, l.readLimit, l.writeLimit, l.lastUpdated, l.readSuspended, l.writeSuspended, l.pending, l.firing)
  }

  /**
   * What happens to a bufferevent with a rate limit; times are tick counts, by the configuration of the time, that do
   * not wrap.
   */
  datatype Act =
    | TryRead(time: nat, want: nat)   // bufferevent_readcb; with nothing to read, only the update that every call makes
    | TryWrite(time: nat, want: nat)
    | Expire                          // the refill timer, if it is set
    | Refill(time: nat)               // its callback, if it is due
    | UserRead(decr: int)             // bufferevent_decrement_read_limit, if there is a limit and the result fits
    | UserWrite(decr: int)
    | Configure(c: Limits, time: nat) // bufferevent_set_rate_limit, with another configuration
    | Clear                           // the same with none

  predicate Ok(s: Snap)
  {
    s.on ==> BothConfigured(s.cfg)
  }

  /** Both buckets up to date. */
  function Updated(s: Snap, t: nat): (u: Snap)
    requires Ok(s)
    ensures Ok(u)
  {
    if !s.on then s
    else
      var r, w := Refreshed(Bucket(s.read, s.last), s.cfg.read, t % TWO32), Refreshed(Bucket(s.write, s.last), s.cfg.write, t % TWO32);
      s.(read := r.limit, write := w.limit, last := r.lastUpdated)
  }

  /** How much is read, or written: nothing while that is suspended. */
  function Bytes(s: Snap, a: Act): (n: nat)
    requires Ok(s)
  {
    match a
    case TryRead(t, want) => if s.readSus then 0 else Min(want, if s.on then Positive0(Updated(s, t).read) else 16384)
    case TryWrite(t, want) => if s.writeSus then 0 else Min(want, if s.on then Positive0(Updated(s, t).write) else 16384)
    case _ => 0
  }

  /** Reading, at tick count t: the buckets are brought up to date, and charged if anything was read. */
  function Reading(s: Snap, t: nat, want: nat): (s': Snap)
    requires Ok(s)
    ensures Ok(s')
  {
    if !s.on then s
    else
      var u := Updated(s, t);
      var n := Bytes(s, TryRead(t, want));
      if n == 0 then u
      else
        var x: SSize := u.read - n;
        u.(read := x, readSus := x <= 0, pending := x <= 0 || s.pending)
  }

  function Writing(s: Snap, t: nat, want: nat): (s': Snap)
    requires Ok(s)
    ensures Ok(s')
  {
    if !s.on then s
    else
      var u := Updated(s, t);
      var n := Bytes(s, TryWrite(t, want));
      if n == 0 then u
      else
        var x: SSize := u.write - n;
        u.(write := x, writeSus := x <= 0, pending := x <= 0 || s.pending)
  }

  function Refilled(s: Snap, t: nat): (s': Snap)
    requires Ok(s)
    ensures Ok(s')
  {
    if !s.firing then s
    else
      var u := Updated(s, t);
      var r, w := s.readSus && u.read <= 0, s.writeSus && u.write <= 0;
      u.(readSus := r, writeSus := w, pending := s.pending || r || w, firing := false)
  }

  function LessRead(s: Snap, d: int): (s': Snap)
    ensures Ok(s) ==> Ok(s')
  {
    if !s.on || !Fits(s.read - d) then s
    else
      var x: SSize := s.read - d;
      var stop, go := s.read > 0 >= x, x > 0 >= s.read;
      s.(read := x, readSus := stop || (!go && s.readSus), pending := stop || (s.pending && (go ==> s.writeSus)))
  }

  function LessWrite(s: Snap, d: int): (s': Snap)
    ensures Ok(s) ==> Ok(s')
  {
    if !s.on || !Fits(s.write - d) then s
    else
      var x: SSize := s.write - d;
      var stop, go := s.write > 0 >= x, x > 0 >= s.write;
      s.(write := x, writeSus := stop || (!go && s.writeSus), pending := stop || (s.pending && (go ==> s.readSus)))
  }

  function Configuring(s: Snap, c: Limits, t: nat): (s': Snap)
    ensures Ok(s) ==> Ok(s')
  {
    if !BothConfigured(c) then s
    else
      var r: SSize := if s.on then Min(s.read, c.read.maximum) else c.read.rate;
      var w: SSize := if s.on then Min(s.write, c.write.maximum) else c.write.rate;
      s.(on := true, cfg := c, read := r, write := w, last := if s.on then s.last else t % TWO32,
         readSus := r <= 0, writeSus := w <= 0, pending := r <= 0 || w <= 0)
  }

  function Step(s: Snap, a: Act): (s': Snap)
    requires Ok(s)
    ensures Ok(s')
  {
    match a
    case TryRead(t, want) => Reading(s, t, want)
    case TryWrite(t, want) => Writing(s, t, want)
    case Expire => if s.pending then s.(pending := false, firing := true) else s
    case Refill(t) => Refilled(s, t)
    case UserRead(d) => LessRead(s, d)
    case UserWrite(d) => LessWrite(s, d)
    case Configure(c, t) => Configuring(s, c, t)
    case Clear => s.(on := false, readSus := false, writeSus := false, pending := false)
  }

  // ---- The methods do that

  /**
   * What a transfer must do, for a direction that was stopped or not: nothing if it was; else all that is wanted, unless
   * that empties the bucket, and then it stops; without a limit as much as one call may move.
   */
  predicate AllOrEmpty(on: bool, stopped: bool, want: nat, bytes: nat, limit: int, stops: bool)
  {
    && bytes <= want
    && (stopped ==> bytes == 0)
    && (!stopped && !on ==> bytes == if want <= 16384 then want else 16384)
    && (!stopped && on ==> (bytes == want || limit <= 0) && (bytes > 0 ==> limit >= 0 && (stops <==> limit == 0)))
  }

  method DoRead(l: Limited, t: nat, want: nat) returns (bytes: nat)
    requires l.Watched()
    modifies l
    ensures l.Watched() && View(l) == Reading(old(View(l)), t, want) && bytes == Bytes(old(View(l)), TryRead(t, want))
    ensures AllOrEmpty(old(l.on), old(l.readSuspended), want, bytes, l.readLimit, l.readSuspended)
  {
    hide Refreshed, Sound, Ticks;
    var m := l.GetReadMax(t % TWO32);
    bytes := if l.readSuspended then 0 else Min(want, m);
    if bytes > 0 {
      l.DecrementRead(bytes);
    }
  }

  method DoWrite(l: Limited, t: nat, want: nat) returns (bytes: nat)
    requires l.Watched()
    modifies l
    ensures l.Watched() && View(l) == Writing(old(View(l)), t, want) && bytes == Bytes(old(View(l)), TryWrite(t, want))
    ensures AllOrEmpty(old(l.on), old(l.writeSuspended), want, bytes, l.writeLimit, l.writeSuspended)
  {
    hide Refreshed, Sound, Ticks;
    var m := l.GetWriteMax(t % TWO32);
    bytes := if l.writeSuspended then 0 else Min(want, m);
    if bytes > 0 {
      l.DecrementWrite(bytes);
    }
  }

  method DoTimer(l: Limited, a: Act)
    requires l.Watched() && (a.Expire? || a.Refill?)
    modifies l
    ensures l.Watched() && View(l) == Step(old(View(l)), a)
  {
    hide Refreshed, Sound, Ticks;
    if a.Expire? && l.pending {
      l.TimerExpires();
    } else if a.Refill? && l.firing {
      l.RefillCallback(a.time % TWO32);
    }
  }

  method DoUser(l: Limited, a: Act)
    requires l.Watched() && (a.UserRead? || a.UserWrite? || a.Configure? || a.Clear?)
    modifies l
    ensures l.Watched() && View(l) == Step(old(View(l)), a)
  {
    match a
    case UserRead(d) =>
      if l.on && Fits(l.readLimit - d) {
        l.DecrementReadLimit(d);
      }
    case UserWrite(d) =>
      if l.on && Fits(l.writeLimit - d) {
        l.DecrementWriteLimit(d);
      }
    case Configure(c, t) =>
      if BothConfigured(c) {
        l.SetRateLimit(c, t % TWO32);
      }
    case Clear => l.ClearRateLimit();
  }

  method Perform(l: Limited, a: Act) returns (bytes: nat)
    requires l.Watched()
    modifies l
    ensures l.Watched() && View(l) == Step(old(View(l)), a) && bytes == Bytes(old(View(l)), a)
    ensures a.TryRead? ==> AllOrEmpty(old(l.on), old(l.readSuspended), a.want, bytes, l.readLimit, l.readSuspended)
    ensures a.TryWrite? ==> AllOrEmpty(old(l.on), old(l.writeSuspended), a.want, bytes, l.writeLimit, l.writeSuspended)
  {
    hide AllOrEmpty;
    hide Reading, Writing, Refilled, LessRead, LessWrite, Configuring, Updated;
    bytes := 0;
    match a
    case TryRead(t, want) => bytes := DoRead(l, t, want);
    case TryWrite(t, want) => bytes := DoWrite(l, t, want);
    case Expire => DoTimer(l, a);
    case Refill(_) => DoTimer(l, a);
    case _ => DoUser(l, a);
  }

  // ---- Runs

  function Run(s: Snap, acts: seq<Act>): (s': Snap)
    requires Ok(s)
    ensures Ok(s')
    decreases |acts|
  {
    if acts == [] then s else Run(Step(s, acts[0]), acts[1..])
  }

  /** What an act reads. */
  function ReadBy(s: Snap, a: Act): (rs: seq<Read>)
    requires Ok(s)
  {
    if a.TryRead? && Bytes(s, a) > 0 then [Read(a.time, Bytes(s, a))] else []
  }

  function WrittenBy(s: Snap, a: Act): (ws: seq<Read>)
    requires Ok(s)
  {
    if a.TryWrite? && Bytes(s, a) > 0 then [Read(a.time, Bytes(s, a))] else []
  }

  /** What is read in a run, and when. */
  function ReadsIn(s: Snap, acts: seq<Act>): (rs: seq<Read>)
    requires Ok(s)
    decreases |acts|
  {
    if acts == [] then [] else ReadBy(s, acts[0]) + ReadsIn(Step(s, acts[0]), acts[1..])
  }

  function WritesIn(s: Snap, acts: seq<Act>): (ws: seq<Read>)
    requires Ok(s)
    decreases |acts|
  {
    if acts == [] then [] else WrittenBy(s, acts[0]) + WritesIn(Step(s, acts[0]), acts[1..])
  }

  lemma RunNext(s: Snap, acts: seq<Act>)
    requires Ok(s) && acts != []
    ensures Run(s, acts) == Run(Step(s, acts[0]), acts[1..])
    ensures ReadsIn(s, acts) == ReadBy(s, acts[0]) + ReadsIn(Step(s, acts[0]), acts[1..])
    ensures WritesIn(s, acts) == WrittenBy(s, acts[0]) + WritesIn(Step(s, acts[0]), acts[1..])
  {
    hide Step, ReadBy, WrittenBy;
  }

  lemma RunNone(s: Snap)
    requires Ok(s)
    ensures Run(s, []) == s && ReadsIn(s, []) == [] && WritesIn(s, []) == []
  {
  }

  /** The methods carry out any run of acts. */
  method Transfer(l: Limited, acts: seq<Act>) returns (rs: seq<Read>, ws: seq<Read>)
    requires l.Watched()
    modifies l
    ensures l.Watched() && View(l) == Run(old(View(l)), acts)
    ensures rs == ReadsIn(old(View(l)), acts) && ws == WritesIn(old(View(l)), acts)
  {
    hide Step, Bytes, AllOrEmpty, Run, ReadsIn, WritesIn;
    rs, ws := [], [];
    ghost var s := View(l);
    assert acts[0..] == acts;
    for i := 0 to |acts|
      invariant l.Watched() && Run(View(l), acts[i..]) == Run(s, acts)
      invariant rs + ReadsIn(View(l), acts[i..]) == ReadsIn(s, acts)
      invariant ws + WritesIn(View(l), acts[i..]) == WritesIn(s, acts)
    {
      assert acts[i..][0] == acts[i] && acts[i..][1..] == acts[i + 1..];
      RunNext(View(l), acts[i..]);
      var bytes := Perform(l, acts[i]);
      if acts[i].TryRead? && bytes > 0 {
        rs := rs + [Read(acts[i].time, bytes)];
      } else if acts[i].TryWrite? && bytes > 0 {
        ws := ws + [Read(acts[i].time, bytes)];
      }
    }
    RunNone(View(l));
  }

  // ---- Reading and writing are alike

  function Mirror(s: Snap): Snap
  {
    s.(cfg := Limits(s.cfg.write, s.cfg.read), read := s.write, write := s.read, readSus := s.writeSus, writeSus := s.readSus)
  }

  function MirrorAct(a: Act): (a': Act)
    ensures NoGift(a') == NoGift(a) && a'.Configure? == a.Configure? && a'.Clear? == a.Clear?
  {
    match a
    case TryRead(t, want) => TryWrite(t, want)
    case TryWrite(t, want) => TryRead(t, want)
    case UserRead(d) => UserWrite(d)
    case UserWrite(d) => UserRead(d)
    case Configure(c, t) => Configure(Limits(c.write, c.read), t)
    case _ => a
  }

  function MirrorActs(acts: seq<Act>): seq<Act>
  {
    seq(|acts|, i requires 0 <= i < |acts| => MirrorAct(acts[i]))
  }

  lemma MirrorUpdated(s: Snap, t: nat)
    requires Ok(s)
    ensures Updated(Mirror(s), t) == Mirror(Updated(s, t))
  {
    hide Refreshed;
    if s.on {
      SameTime(Bucket(s.read, s.last), Bucket(s.write, s.last), s.cfg.read, s.cfg.write, t % TWO32);
    }
  }

  lemma MirrorStep(s: Snap, a: Act)
    requires Ok(s)
    ensures Step(Mirror(s), MirrorAct(a)) == Mirror(Step(s, a)) && Bytes(Mirror(s), MirrorAct(a)) == Bytes(s, a)
  {
    hide Updated;
    if a.TryRead? || a.TryWrite? || a.Refill? {
      MirrorUpdated(s, a.time);
    }
  }

  /** A run and its mirror image: what the one reads the other writes. */
  lemma {:induction false} MirrorRun(s: Snap, acts: seq<Act>)
    requires Ok(s)
    ensures Run(Mirror(s), MirrorActs(acts)) == Mirror(Run(s, acts))
    ensures ReadsIn(Mirror(s), MirrorActs(acts)) == WritesIn(s, acts)
    ensures WritesIn(Mirror(s), MirrorActs(acts)) == ReadsIn(s, acts)
    decreases |acts|
  {
    if acts != [] {
      MirrorStep(s, acts[0]);
      MirrorRun(Step(s, acts[0]), acts[1..]);
      hide Step, Bytes;
      assert MirrorActs(acts)[1..] == MirrorActs(acts[1..]);
    }
  }

  // ---- What stops

  /** A direction that is stopped will be looked at again. */
  predicate Looked(s: Snap)
  {
    Ok(s) && (s.readSus || s.writeSus ==> s.on && (s.pending || s.firing))
  }

  lemma StepLooked(s: Snap, a: Act)
    requires Looked(s)
    ensures Looked(Step(s, a))
  {
    hide Refreshed;
  }

  /** An empty bucket stops its direction. */
  predicate Stopped(s: Snap)
  {
    s.on && s.read <= 0 ==> s.readSus
  }

  /** The buckets are brought up to date. */
  predicate Updates(s: Snap, a: Act)
  {
    a.TryRead? || a.TryWrite? || (a.Refill? && s.firing)
  }

  /** The only acts that may lose sight of an empty bucket: those that bring it up to date, and so empty it. */
  predicate Keeps(s: Snap, a: Act)
    requires Ok(s)
  {
    s.on && !s.readSus && Updates(s, a) ==> Sound(s.read, s.cfg.read, Ticks(s.last, a.time % TWO32))
  }

  lemma StepStops(s: Snap, a: Act)
    requires Ok(s) && Stopped(s)
    ensures Stopped(Step(s, a)) <==> Keeps(s, a)
  {
    hide Refreshed, Sound, Ticks;
    if s.on && s.read > 0 && Updates(s, a) {
      TokensStay(Bucket(s.read, s.last), s.cfg.read, a.time % TWO32);
    }
  }

  /** At every point of a run, an empty bucket stops its direction. */
  ghost predicate AlwaysStopped(s: Snap, acts: seq<Act>)
    requires Ok(s)
  {
    forall n | 0 <= n <= |acts| :: Stopped(Run(s, acts[..n]))
  }

  lemma FirstThenRest(s: Snap, acts: seq<Act>)
    requires Ok(s)
    ensures AlwaysStopped(s, acts) <==> Stopped(s) && (acts != [] ==> AlwaysStopped(Step(s, acts[0]), acts[1..]))
  {
    hide Step, Stopped;
    assert Run(s, acts[..0]) == s;
    if acts != [] {
      var s', rest := Step(s, acts[0]), acts[1..];
      assert forall n | 0 <= n < |acts| :: acts[..n + 1][1..] == rest[..n];
      if AlwaysStopped(s, acts) {
        forall n | 0 <= n <= |rest| ensures Stopped(Run(s', rest[..n])) {
          assert Stopped(Run(s, acts[..n + 1]));
        }
      }
      if Stopped(s) && AlwaysStopped(s', rest) {
        forall n | 0 <= n <= |acts| ensures Stopped(Run(s, acts[..n])) {
          if n > 0 { assert Stopped(Run(s', rest[..n - 1])) && acts[..n - 1 + 1][1..] == rest[..n - 1]; }
        }
      }
    }
  }

  /** No update in a run carries a running bucket out of the range of ssize_t. */
  predicate AlwaysKeeps(s: Snap, acts: seq<Act>)
    requires Ok(s)
    decreases |acts|
  {
    acts != [] ==> Keeps(s, acts[0]) && AlwaysKeeps(Step(s, acts[0]), acts[1..])
  }

  lemma {:induction false} StopsExactly(s: Snap, acts: seq<Act>)
    requires Ok(s) && Stopped(s)
    ensures AlwaysStopped(s, acts) <==> AlwaysKeeps(s, acts)
    decreases |acts|
  {
    hide Step, Stopped, Keeps, AlwaysStopped;
    FirstThenRest(s, acts);
    if acts != [] {
      StepStops(s, acts[0]);
      if Stopped(Step(s, acts[0])) {
        StopsExactly(Step(s, acts[0]), acts[1..]);
      } else {
        FirstThenRest(Step(s, acts[0]), acts[1..]);
      }
    }
  }

  /** A read callback of its own makes a debt of a full bucket, reads nothing, and nothing stops it or is waited for. */
  lemma ReadForgets()
    ensures var c := Limits(Cfg(1, 1), Cfg(1, 1));
            var s := Snap(true, c, SSIZE_MAX, 1, 0, false, false, false, false);
            var s' := Step(s, TryRead(1, 10));
            && Looked(s) && Stopped(s) && Bytes(s, TryRead(1, 10)) == 0
            && s'.on && s'.read < 0 && !s'.readSus && !s'.pending && !s'.firing
  {
    OverfullTurns();
  }

  /** No bucket is above its maximum. */
  predicate Under(s: Snap)
  {
    s.on ==> s.read <= s.cfg.read.maximum && s.write <= s.cfg.write.maximum
  }

  /** The user gives no tokens back. */
  predicate NoGift(a: Act)
  {
    (a.UserRead? || a.UserWrite?) ==> a.decr >= 0
  }

  lemma StepUnder(s: Snap, a: Act)
    requires Ok(s) && Under(s) && NoGift(a)
    ensures Under(Step(s, a)) && Keeps(s, a)
  {
    hide Refreshed;
  }

  /** Where the user gives no tokens back, no bucket rises above its maximum and none is ever forgotten. */
  lemma {:induction false} NeverForgotten(s: Snap, acts: seq<Act>)
    requires Looked(s) && Under(s) && Stopped(s) && forall a <- acts :: NoGift(a)
    ensures AlwaysStopped(s, acts) && Looked(Run(s, acts)) && Under(Run(s, acts))
    decreases |acts|
  {
    hide Step, Stopped, Keeps, Under, AlwaysStopped;
    FirstThenRest(s, acts);
    if acts != [] {
      assert acts[0] in acts;
      StepLooked(s, acts[0]);
      StepUnder(s, acts[0]);
      StepStops(s, acts[0]);
      NeverForgotten(Step(s, acts[0]), acts[1..]);
    }
  }

  // ---- How much is let through

  function TimeOf(a: Act, t: nat): nat
  {
    if a.TryRead? || a.TryWrite? || a.Refill? || a.Configure? then a.time else t
  }

  /** Times do not go back. */
  predicate InOrder(acts: seq<Act>, t: nat)
    decreases |acts|
  {
    acts != [] ==> t <= TimeOf(acts[0], t) && InOrder(acts[1..], TimeOf(acts[0], t))
  }

  /** The time at which the buckets were last brought up to date, if it was now before. */
  function UpTo(s: Snap, a: Act, now: nat): nat
  {
    if Updates(s, a) then a.time else now
  }

  function Gift(a: Act): nat
  {
    if a.UserRead? then Positive0(-a.decr) else 0
  }

  /** The tokens an act may bring for reading: the rate for each tick it counts, and what the user gives back. */
  function Gain(s: Snap, a: Act): nat
  {
    var n := if Updates(s, a) then Ticks(s.last, a.time % TWO32) else 0;
    NonNegative(n, s.cfg.read.rate);
    n * s.cfg.read.rate + Gift(a)
  }

  function Gains(s: Snap, acts: seq<Act>): nat
    requires Ok(s)
    decreases |acts|
  {
    if acts == [] then 0 else Gain(s, acts[0]) + Gains(Step(s, acts[0]), acts[1..])
  }

  lemma StepGain(s: Snap, a: Act)
    requires Ok(s) && s.on && !a.Clear?
    ensures var s' := Step(s, a); s'.on && Total(ReadBy(s, a)) + Positive0(s'.read) <= Positive0(s.read) + Gain(s, a)
  {
    hide Refreshed, Ticks;
    if Updates(s, a) {
      Counted(Bucket(s.read, s.last), s.cfg.read, a.time % TWO32);
    }
  }

  /**
   * Whatever happens at whatever times, short of the limit being removed, what is read and what is then left is no more
   * than what there was and what came in: at each update the rate of the time for each tick counted.
   */
  lemma {:induction false} LetThrough(s: Snap, acts: seq<Act>)
    requires Ok(s) && s.on && Clear !in acts
    ensures Total(ReadsIn(s, acts)) + Positive0(Run(s, acts).read) <= Positive0(s.read) + Gains(s, acts)
    decreases |acts|
  {
    hide Step, ReadBy, Gain;
    if acts != [] {
      StepGain(s, acts[0]);
      LetThrough(Step(s, acts[0]), acts[1..]);
      TotalBoth(ReadBy(s, acts[0]), ReadsIn(Step(s, acts[0]), acts[1..]));
    }
  }

  lemma {:induction false} TotalBoth(rs: seq<Read>, more: seq<Read>)
    ensures Total(rs + more) == Total(rs) + Total(more)
  {
    if rs == [] {
      assert rs + more == more;
    } else {
      assert (rs + more)[1..] == rs[1..] + more;
      TotalBoth(rs[1..], more);
    }
  }

  /** The rate of the time for each tick that passed, and what the user gives back. */
  function Due(s: Snap, a: Act, now: nat): nat
  {
    NonNegative(Positive0(UpTo(s, a, now) - now), s.cfg.read.rate);
    Positive0(UpTo(s, a, now) - now) * s.cfg.read.rate + Gift(a)
  }

  function Dues(s: Snap, acts: seq<Act>, now: nat): nat
    requires Ok(s)
    decreases |acts|
  {
    if acts == [] then 0 else Due(s, acts[0], now) + Dues(Step(s, acts[0]), acts[1..], UpTo(s, acts[0], now))
  }

  lemma StepDue(s: Snap, a: Act, now: nat)
    requires Ok(s) && s.on && !a.Clear? && AsOf(Bucket(s.read, s.last), now) && now <= UpTo(s, a, now)
    ensures var s' := Step(s, a); s'.on && AsOf(Bucket(s'.read, s'.last), UpTo(s, a, now)) && Gain(s, a) <= Due(s, a, now)
  {
    hide Refreshed, Elapsed, Ticks;
    if Updates(s, a) {
      TokenBucket.Passed(Bucket(s.read, s.last), s.cfg.read, now, a.time);
      var n := Ticks(s.last, a.time % TWO32);
      Distribute(n, a.time - now - n, s.cfg.read.rate);
      NonNegative(a.time - now - n, s.cfg.read.rate);
    }
  }

  /** By a clock that does not go back, no tick is counted that has not passed, although counts wrap. */
  lemma {:induction false} GainsAreDue(s: Snap, acts: seq<Act>, now: nat, t: nat)
    requires Ok(s) && s.on && Clear !in acts && AsOf(Bucket(s.read, s.last), now) && now <= t && InOrder(acts, t)
    ensures Gains(s, acts) <= Dues(s, acts, now)
    decreases |acts|
  {
    hide Step, AsOf, Gain, Due;
    if acts != [] {
      StepDue(s, acts[0], now);
      GainsAreDue(Step(s, acts[0]), acts[1..], UpTo(s, acts[0], now), TimeOf(acts[0], t));
    }
  }

  /** So by such a clock what is let through is bounded by the time that passes. */
  lemma LetThroughInTime(s: Snap, acts: seq<Act>, now: nat, t: nat)
    requires Ok(s) && s.on && Clear !in acts && AsOf(Bucket(s.read, s.last), now) && now <= t && InOrder(acts, t)
    ensures Total(ReadsIn(s, acts)) + Positive0(Run(s, acts).read) <= Positive0(s.read) + Dues(s, acts, now)
  {
    hide *;
    LetThrough(s, acts);
    GainsAreDue(s, acts, now, t);
  }

  /** The configuration stays as it is. */
  predicate Steady(acts: seq<Act>)
  {
    forall a <- acts :: !a.Configure? && !a.Clear?
  }

  /** What the user gives back for reading. */
  function Given(acts: seq<Act>): nat
  {
    if acts == [] then 0 else Given(acts[1..]) + Gift(acts[0])
  }

  function EndOf(acts: seq<Act>, t: nat): nat
    decreases |acts|
  {
    if acts == [] then t else EndOf(acts[1..], TimeOf(acts[0], t))
  }

  lemma StepSteady(s: Snap, a: Act)
    requires Ok(s) && !a.Configure? && !a.Clear?
    ensures Step(s, a).cfg == s.cfg && Step(s, a).on == s.on
  {
    hide Refreshed;
  }

  lemma {:induction false} DuesAtMost(s: Snap, acts: seq<Act>, now: nat, t: nat)
    requires Ok(s) && Steady(acts) && now <= t && InOrder(acts, t)
    ensures EndOf(acts, t) >= t && Dues(s, acts, now) <= Given(acts) + (EndOf(acts, t) - now) * s.cfg.read.rate
    decreases |acts|
  {
    hide Step;
    if acts == [] {
      NonNegative(t - now, s.cfg.read.rate);
    } else {
      var a := acts[0];
      assert a in acts && Steady(acts[1..]);
      StepSteady(s, a);
      DuesAtMost(Step(s, a), acts[1..], UpTo(s, a, now), TimeOf(a, t));
      Distribute(EndOf(acts, t) - UpTo(s, a, now), UpTo(s, a, now) - now, s.cfg.read.rate);
    }
  }

  /** With one configuration: the rate for each tick that passed, and what the user gave back. */
  lemma LetThroughSteady(s: Snap, acts: seq<Act>, now: nat)
    requires Ok(s) && s.on && Steady(acts) && AsOf(Bucket(s.read, s.last), now) && InOrder(acts, now)
    ensures EndOf(acts, now) >= now
    ensures Total(ReadsIn(s, acts)) + Positive0(Run(s, acts).read)
         <= Positive0(s.read) + Given(acts) + (EndOf(acts, now) - now) * s.cfg.read.rate
  {
    hide *;
    assert Clear !in acts by { SteadyOn(acts); }
    LetThroughInTime(s, acts, now, now);
    DuesAtMost(s, acts, now, now);
  }

  lemma SteadyOn(acts: seq<Act>)
    requires Steady(acts)
    ensures Clear !in acts
  {
  }

  /** No more than a full bucket and the rate for each tick from the first transfer to the last. */
  ghost predicate Bounded(rs: seq<Read>, cfg: Cfg)
  {
    rs != [] ==> Last(rs, 0) >= rs[0].time && Total(rs) <= cfg.maximum + (Last(rs, 0) - rs[0].time) * cfg.rate
  }

  lemma WithinLess(b: Bucket, cfg: Cfg, rs: seq<Read>, now: nat, limit: SSize)
    requires Within(b, cfg, rs, now) && limit <= b.limit
    ensures Within(b.(limit := limit), cfg, rs, now)
  {
  }

  lemma StepWithin(s: Snap, a: Act, rs: seq<Read>, now: nat)
    requires Ok(s) && s.on && !a.Configure? && !a.Clear? && NoGift(a) && now <= UpTo(s, a, now)
    requires Within(Bucket(s.read, s.last), s.cfg.read, rs, now)
    ensures var s' := Step(s, a);
            Within(Bucket(s'.read, s'.last), s.cfg.read, rs + ReadBy(s, a), UpTo(s, a, now))
  {
    hide Refreshed, Within, AsOf;
    var b := Bucket(s.read, s.last);
    if Updates(s, a) {
      WithinRefreshed(b, s.cfg.read, rs, now, a.time);
      if ReadBy(s, a) != [] {
        WithinRead(Refreshed(b, s.cfg.read, a.time % TWO32), s.cfg.read, rs, Read(a.time, Bytes(s, a)));
      }
    } else if a.UserRead? {
      WithinLess(b, s.cfg.read, rs, now, Step(s, a).read);
    }
    assert rs + [] == rs;
  }

  lemma {:induction false} RunWithin(s: Snap, acts: seq<Act>, rs: seq<Read>, now: nat, t: nat) returns (now': nat)
    requires Ok(s) && s.on && Steady(acts) && (forall a <- acts :: NoGift(a)) && now <= t && InOrder(acts, t)
    requires Within(Bucket(s.read, s.last), s.cfg.read, rs, now)
    ensures Within(Bucket(Run(s, acts).read, Run(s, acts).last), s.cfg.read, rs + ReadsIn(s, acts), now')
    decreases |acts|
  {
    hide Step, Within, NoGift, ReadBy;
    if acts == [] {
      now' := now;
      assert rs + [] == rs;
    } else {
      var a := acts[0];
      assert a in acts && Steady(acts[1..]);
      StepSteady(s, a);
      StepWithin(s, a, rs, now);
      var more := ReadBy(s, a);
      now' := RunWithin(Step(s, a), acts[1..], rs + more, UpTo(s, a, now), TimeOf(a, t));
      assert rs + more + ReadsIn(Step(s, a), acts[1..]) == rs + ReadsIn(s, acts);
    }
  }

  lemma WithinBounded(b: Bucket, cfg: Cfg, rs: seq<Read>, now: nat)
    requires Within(b, cfg, rs, now)
    ensures Bounded(rs, cfg)
  {
  }

  /** From any state in which the bucket is not above its maximum, whatever happens in whatever order. */
  lemma FirstToLast(s: Snap, acts: seq<Act>, now: nat)
    requires Ok(s) && s.on && s.read <= s.cfg.read.maximum
    requires Steady(acts) && (forall a <- acts :: NoGift(a)) && InOrder(acts, now)
    ensures Bounded(ReadsIn(s, acts), s.cfg.read)
  {
    hide Run, ReadsIn, InOrder, Bounded, Ok, NoGift, Steady;
    var now' := RunWithin(s, acts, [], now, now);
    assert [] + ReadsIn(s, acts) == ReadsIn(s, acts);
    WithinBounded(Bucket(Run(s, acts).read, Run(s, acts).last), s.cfg.read, ReadsIn(s, acts), now');
  }

  /** Five tokens given back, and six bytes are read at once where one was allowed. */
  lemma GiftLetsMore()
    ensures var c := Limits(Cfg(1, 1), Cfg(1, 1));
            var s := Snap(true, c, 1, 1, 0, false, false, false, false);
            Ok(s) && !Bounded(ReadsIn(s, [UserRead(-5), TryRead(0, 6)]), c.read)
  {
    var c := Limits(Cfg(1, 1), Cfg(1, 1));
    var s := Snap(true, c, 1, 1, 0, false, false, false, false);
    assert ReadsIn(Step(s, UserRead(-5)), [TryRead(0, 6)]) == [Read(0, 6)];
  }

  // ---- And that it is let through

  /** A read takes all that is wanted, or all there is. */
  lemma ReadsAll(s: Snap, t: nat, want: nat)
    requires Ok(s)
    ensures var s' := Step(s, TryRead(t, want)); var n := Total(ReadBy(s, TryRead(t, want)));
            AllOrEmpty(s.on, s.readSus, want, n, s'.read, s'.readSus)
  {
    hide Refreshed;
  }

  /** The tokens that an act brings, for a bucket not above its maximum: the rate for each tick, and less for decrements. */
  function Comes(s: Snap, a: Act): int
  {
    (if Updates(s, a) then Ticks(s.last, a.time % TWO32) * s.cfg.read.rate else 0)
    - (if a.UserRead? && Fits(s.read - a.decr) then a.decr else 0)
  }

  /** And those that the maximum cuts off. */
  function Cut(s: Snap, a: Act): nat
  {
    if Updates(s, a) then Positive0(s.read + Ticks(s.last, a.time % TWO32) * s.cfg.read.rate - s.cfg.read.maximum)
    else if a.Configure? && BothConfigured(a.c) then Positive0(s.read - a.c.read.maximum)
    else 0
  }

  function ComeIn(s: Snap, acts: seq<Act>): int
    requires Ok(s)
    decreases |acts|
  {
    if acts == [] then 0 else Comes(s, acts[0]) + ComeIn(Step(s, acts[0]), acts[1..])
  }

  function CutOff(s: Snap, acts: seq<Act>): nat
    requires Ok(s)
    decreases |acts|
  {
    if acts == [] then 0 else Cut(s, acts[0]) + CutOff(Step(s, acts[0]), acts[1..])
  }

  lemma StepConserves(s: Snap, a: Act)
    requires Ok(s) && s.on && !a.Clear? && s.read <= s.cfg.read.maximum && NoGift(a)
    ensures var s' := Step(s, a);
            && s'.on && s'.read <= s'.cfg.read.maximum
            && Total(ReadBy(s, a)) + s'.read + Cut(s, a) == s.read + Comes(s, a)
  {
    if Updates(s, a) {
      RefreshedIs(Bucket(s.read, s.last), s.cfg.read, a.time % TWO32);
    }
    hide Refreshed, Ticks;
  }

  lemma RefreshedIs(b: Bucket, cfg: Cfg, tick: UInt32)
    requires Configured(cfg) && b.limit <= cfg.maximum
    ensures Refreshed(b, cfg, tick).limit == Min(cfg.maximum, b.limit + Ticks(b.lastUpdated, tick) * cfg.rate)
  {
  }

  /**
   * Nothing is lost: where no tokens are given back, what is read and what is left is what there was and what came in,
   * less what the maximum cut off.
   */
  lemma {:induction false} Conserved(s: Snap, acts: seq<Act>)
    requires Ok(s) && s.on && s.read <= s.cfg.read.maximum && Clear !in acts && forall a <- acts :: NoGift(a)
    ensures Run(s, acts).on
    ensures Total(ReadsIn(s, acts)) + Run(s, acts).read + CutOff(s, acts) == s.read + ComeIn(s, acts)
    decreases |acts|
  {
    hide Step, ReadBy, Cut, Comes, NoGift;
    if acts != [] {
      assert acts[0] in acts && forall a <- acts[1..] :: a in acts;
      StepConserves(s, acts[0]);
      Conserved(Step(s, acts[0]), acts[1..]);
      TotalBoth(ReadBy(s, acts[0]), ReadsIn(Step(s, acts[0]), acts[1..]));
    }
  }

  /** A reader that is not suspended and wants more than it gets has, with all it read before, got everything. */
  lemma HungryGetsAll(s: Snap, acts: seq<Act>, t: nat, want: nat)
    requires Ok(s) && s.on && s.read <= s.cfg.read.maximum && Clear !in acts && forall a <- acts :: NoGift(a)
    requires var r := Run(s, acts); !r.readSus && Total(ReadBy(r, TryRead(t, want))) < want
    ensures var all := acts + [TryRead(t, want)];
            Total(ReadsIn(s, all)) + CutOff(s, all) >= s.read + ComeIn(s, all) && Run(s, all).read <= 0
  {
    var a := TryRead(t, want);
    var all := acts + [a];
    RunBoth(s, acts, [a]);
    ReadsAll(Run(s, acts), t, want);
    assert Run(Run(s, acts), [a]) == Step(Run(s, acts), a);
    hide Run, Step, ReadBy, ReadsIn, CutOff, ComeIn;
    Conserved(s, acts);
    assert NoGift(a) && forall x <- all :: x in acts || x == a;
    Conserved(s, all);
  }

  lemma {:induction false} RunBoth(s: Snap, acts: seq<Act>, more: seq<Act>)
    requires Ok(s)
    ensures Run(s, acts + more) == Run(Run(s, acts), more)
    ensures ReadsIn(s, acts + more) == ReadsIn(s, acts) + ReadsIn(Run(s, acts), more)
    decreases |acts|
  {
    hide Step, ReadBy;
    if acts == [] {
      assert acts + more == more;
    } else {
      RunBoth(Step(s, acts[0]), acts[1..], more);
      assert (acts + more)[0] == acts[0] && (acts + more)[1..] == acts[1..] + more;
    }
  }

  /** Tick after tick, from t + 1 on: the timer expires, its callback is run, and then there is a read. */
  function EachTick(t: nat, n: nat, want: nat): seq<Act>
    decreases n
  {
    if n == 0 then [] else [Expire, Refill(t + 1), TryRead(t + 1, want)] + EachTick(t + 1, n - 1, want)
  }

  /** Reading has used up its tokens at tick t and waits for more. */
  predicate UsedUp(s: Snap, t: nat)
  {
    Ok(s) && s.on && s.read == 0 && s.readSus && s.pending && s.last == t % TWO32
  }

  lemma OneTick(s: Snap, t: nat, want: nat)
    requires UsedUp(s, t) && want >= s.cfg.read.rate
    ensures var a := [Expire, Refill(t + 1), TryRead(t + 1, want)];
            && UsedUp(Run(s, a), t + 1) && Run(s, a).cfg == s.cfg && ReadsIn(s, a) == [Read(t + 1, s.cfg.read.rate)]
  {
    var a := [Expire, Refill(t + 1), TryRead(t + 1, want)];
    var s1 := Step(s, a[0]);
    var s2 := Step(s1, a[1]);
    var s3 := Step(s2, a[2]);
    TokensBack(s, t);
    TakesAll(s2, t + 1, want);
    assert s1 == s.(pending := false, firing := true);
    hide Step, Bytes, Run, ReadsIn, UsedUp;
    RunNext(s2, a[2..]);
    RunNext(s1, a[1..]);
    RunNext(s, a);
    assert a[1..][0] == a[1] && a[1..][1..] == a[2..] && a[2..][0] == a[2] && a[2..][1..] == [];
    RunNone(s3);
  }

  /** A tick later there are tokens again, and reading goes on. */
  lemma TokensBack(s: Snap, t: nat)
    requires UsedUp(s, t)
    ensures var s2 := Step(Step(s, Expire), Refill(t + 1));
            && s2.on && s2.cfg == s.cfg && s2.read == s.cfg.read.rate && !s2.readSus && s2.last == (t + 1) % TWO32
  {
    NextTick(s.last, t);
    RefreshedIs(Bucket(0, s.last), s.cfg.read, (t + 1) % TWO32);
  }

  /** And a read takes them all. */
  lemma TakesAll(s: Snap, t: nat, want: nat)
    requires Ok(s) && s.on && s.read == s.cfg.read.rate <= want && !s.readSus && s.last == t % TWO32
    ensures UsedUp(Step(s, TryRead(t, want)), t) && Step(s, TryRead(t, want)).cfg == s.cfg
    ensures ReadBy(s, TryRead(t, want)) == [Read(t, s.read)]
  {
  }

  lemma NextTick(last: UInt32, t: nat)
    requires last == t % TWO32
    ensures Ticks(last, (t + 1) % TWO32) == 1
  {
  }

  /** A reader that always wants enough gets the rate at every tick. */
  lemma {:induction false} FullRate(s: Snap, t: nat, n: nat, want: nat)
    requires UsedUp(s, t) && want >= s.cfg.read.rate
    ensures Total(ReadsIn(s, EachTick(t, n, want))) == n * s.cfg.read.rate && UsedUp(Run(s, EachTick(t, n, want)), t + n)
    decreases n
  {
    hide Run, ReadsIn, Total;
    if n == 0 {
      assert Ok(s);
      RunNone(s);
      assert Total([]) == 0 by { TotalOne(Read(0, 0)); }
    } else {
      var a := [Expire, Refill(t + 1), TryRead(t + 1, want)];
      OneTick(s, t, want);
      RunBoth(s, a, EachTick(t + 1, n - 1, want));
      FullRate(Run(s, a), t + 1, n - 1, want);
      TotalBoth(ReadsIn(s, a), ReadsIn(Run(s, a), EachTick(t + 1, n - 1, want)));
      TotalOne(Read(t + 1, s.cfg.read.rate));
      Distribute(1, n - 1, s.cfg.read.rate);
    }
  }

  lemma TotalOne(r: Read)
    ensures Total([r]) == r.bytes && Total([]) == 0
  {
    assert [r][1..] == [];
  }

  // ---- And for writing

  lemma {:induction false} MirrorOrder(acts: seq<Act>, t: nat)
    ensures InOrder(MirrorActs(acts), t) <==> InOrder(acts, t)
    ensures EndOf(MirrorActs(acts), t) == EndOf(acts, t)
    decreases |acts|
  {
    if acts != [] {
      MirrorOrder(acts[1..], TimeOf(acts[0], t));
      assert MirrorActs(acts)[1..] == MirrorActs(acts[1..]);
    }
  }

  lemma MirrorAll(acts: seq<Act>)
    ensures Steady(acts) ==> Steady(MirrorActs(acts))
    ensures (forall a <- acts :: NoGift(a)) ==> forall a <- MirrorActs(acts) :: NoGift(a)
    ensures Clear in MirrorActs(acts) ==> Clear in acts
  {
    hide MirrorAct, NoGift;
    forall a <- MirrorActs(acts)
      ensures exists a0 <- acts :: a == MirrorAct(a0)
    {
      var i :| 0 <= i < |acts| && a == MirrorAct(acts[i]);
      assert acts[i] in acts;
    }
  }

  lemma WriteFirstToLast(s: Snap, acts: seq<Act>, now: nat)
    requires Ok(s) && s.on && s.write <= s.cfg.write.maximum
    requires Steady(acts) && (forall a <- acts :: NoGift(a)) && InOrder(acts, now)
    ensures Bounded(WritesIn(s, acts), s.cfg.write)
  {
    hide Run, ReadsIn, WritesIn, InOrder, Bounded, NoGift, Steady, MirrorActs;
    MirrorRun(s, acts);
    MirrorOrder(acts, now);
    MirrorAll(acts);
    FirstToLast(Mirror(s), MirrorActs(acts), now);
  }

  lemma WriteLetThrough(s: Snap, acts: seq<Act>)
    requires Ok(s) && s.on && Clear !in acts
    ensures Total(WritesIn(s, acts)) + Positive0(Run(s, acts).write)
         <= Positive0(s.write) + Gains(Mirror(s), MirrorActs(acts))
  {
    hide Run, ReadsIn, WritesIn, Gains, MirrorActs;
    MirrorRun(s, acts);
    MirrorAll(acts);
    LetThrough(Mirror(s), MirrorActs(acts));
  }

  lemma WriteConserved(s: Snap, acts: seq<Act>)
    requires Ok(s) && s.on && s.write <= s.cfg.write.maximum && Clear !in acts && forall a <- acts :: NoGift(a)
    ensures Total(WritesIn(s, acts)) + Run(s, acts).write + CutOff(Mirror(s), MirrorActs(acts))
         == s.write + ComeIn(Mirror(s), MirrorActs(acts))
  {
    hide Run, ReadsIn, WritesIn, CutOff, ComeIn, MirrorActs, NoGift;
    MirrorRun(s, acts);
    MirrorAll(acts);
    Conserved(Mirror(s), MirrorActs(acts));
  }

  lemma WriteLetThroughInTime(s: Snap, acts: seq<Act>, now: nat, t: nat)
    requires Ok(s) && s.on && Clear !in acts && AsOf(Bucket(s.write, s.last), now) && now <= t && InOrder(acts, t)
    ensures Total(WritesIn(s, acts)) + Positive0(Run(s, acts).write)
         <= Positive0(s.write) + Dues(Mirror(s), MirrorActs(acts), now)
  {
    hide Run, ReadsIn, WritesIn, InOrder, Dues, MirrorActs, AsOf;
    MirrorRun(s, acts);
    MirrorOrder(acts, t);
    MirrorAll(acts);
    LetThroughInTime(Mirror(s), MirrorActs(acts), now, t);
  }

  /** At every point of a run, an empty bucket for writing stops that direction. */
  ghost predicate WriteAlwaysStopped(s: Snap, acts: seq<Act>)
    requires Ok(s)
  {
    forall n | 0 <= n <= |acts| :: Stopped(Mirror(Run(s, acts[..n])))
  }

  lemma WriteStopped(s: Snap, acts: seq<Act>)
    requires Ok(s)
    ensures WriteAlwaysStopped(s, acts) <==> AlwaysStopped(Mirror(s), MirrorActs(acts))
  {
    hide Run, Stopped;
    forall n | 0 <= n <= |acts|
      ensures MirrorActs(acts)[..n] == MirrorActs(acts[..n]) && Run(Mirror(s), MirrorActs(acts)[..n]) == Mirror(Run(s, acts[..n]))
    {
      assert MirrorActs(acts)[..n] == MirrorActs(acts[..n]);
      MirrorRun(s, acts[..n]);
    }
  }

  lemma WriteStopsExactly(s: Snap, acts: seq<Act>)
    requires Ok(s) && Stopped(Mirror(s))
    ensures WriteAlwaysStopped(s, acts) <==> AlwaysKeeps(Mirror(s), MirrorActs(acts))
  {
    hide AlwaysStopped, WriteAlwaysStopped, AlwaysKeeps;
    WriteStopped(s, acts);
    StopsExactly(Mirror(s), MirrorActs(acts));
  }

  lemma WriteNeverForgotten(s: Snap, acts: seq<Act>)
    requires Looked(s) && Under(s) && Stopped(Mirror(s)) && forall a <- acts :: NoGift(a)
    ensures WriteAlwaysStopped(s, acts)
  {
    hide AlwaysStopped, WriteAlwaysStopped, Run, MirrorActs, NoGift;
    WriteStopped(s, acts);
    MirrorAll(acts);
    NeverForgotten(Mirror(s), MirrorActs(acts));
  }
}
