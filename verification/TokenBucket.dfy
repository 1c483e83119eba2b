/** Token buckets, in the unsigned arithmetic of the original, and what they let through. */
module TokenBucket {
  import opened Seqs

  const INT_MAX := 0x7fff_ffff
  const SSIZE_MAX := 0x7fff_ffff_ffff_ffff

  type UInt32 = x: int | 0 <= x < TWO32
  type SSize = x: int | -SSIZE_MAX - 1 <= x <= SSIZE_MAX

  /** One direction of an ev_token_bucket_cfg. */
  datatype Cfg = Cfg(rate: nat, maximum: nat)

  /** What ev_token_bucket_cfg_new lets through. */
  predicate Configured(cfg: Cfg)
  {
    1 <= cfg.rate <= cfg.maximum <= SSIZE_MAX
  }

  /** One direction of an ev_token_bucket. */
  datatype Bucket = Bucket(limit: SSize, lastUpdated: UInt32)

  function ToUnsigned64(x: int): (u: int)
    ensures 0 <= u < TWO64
  {
    x % TWO64
  }

  function ToSigned64(x: int): (s: SSize)
  {
    var u := x % TWO64;
    if u <= SSIZE_MAX then u else u - TWO64
  }

  /** The ticks from last to tick, as an unsigned difference. */
  function Elapsed(last: UInt32, tick: UInt32): UInt32
  {
    (tick - last) % TWO32
  }

  /** The subtraction maximum - limit does not wrap, or wraps to no more than the tokens due. */
  predicate NoHarm(limit: SSize, cfg: Cfg, n: int)
  {
    limit <= cfg.maximum || TWO64 + cfg.maximum - limit <= n * cfg.rate
  }

  lemma DivLess(a: int, n: int, r: int)
    requires n > 0
    ensures a / n < r <==> a < n * r
  {
    assert a == n * (a / n) + a % n;
    if a / n < r {
      assert n * (a / n + 1) <= n * r;
    } else {
      assert n * r <= n * (a / n);
    }
  }

  /**
   * ev_token_bucket_update: rate tokens for each tick, up to the maximum, exactly when the subtraction does no harm;
   * a bucket that holds more than its maximum may be left with yet more.
   */
  method Update(b: Bucket, cfg: Cfg, tick: UInt32) returns (b': Bucket, r: int)
    requires Configured(cfg)
    ensures var n := Elapsed(b.lastUpdated, tick);
            if n == 0 || n > INT_MAX then b' == b && r == 0
            else r == 1 && b'.lastUpdated == tick
                 && (b'.limit == Min(cfg.maximum, b.limit + n * cfg.rate) <==> NoHarm(b.limit, cfg, n))
                 && (!NoHarm(b.limit, cfg, n) ==> b'.limit == ToSigned64(b.limit + n * cfg.rate))
    ensures b' == Refreshed(b, cfg, tick)
  {
    var n := Elapsed(b.lastUpdated, tick);
    if n == 0 || n > INT_MAX {
      return b, 0;
    }
    var diff := ToUnsigned64(cfg.maximum - b.limit);
    var p := n * cfg.rate;
    DivLess(diff, n, cfg.rate);
    Positive(n, cfg.rate);
    Sums(b.limit, cfg.maximum, p);
    hide Elapsed, ToUnsigned64, ToSigned64;
    var limit: SSize := cfg.maximum;
    if !(diff / n < cfg.rate) {
      limit := ToSigned64(b.limit + ToUnsigned64(p));
    }
    b', r := Bucket(limit, tick), 1;
  }

  lemma Positive(n: int, r: int)
    requires n > 0 && r > 0
    ensures n * r > 0
  {
  }

  /** The sums of Update, for p tokens due. */
  lemma Sums(limit: SSize, maximum: nat, p: int)
    requires maximum <= SSIZE_MAX && 0 < p
    ensures var diff := ToUnsigned64(maximum - limit);
            var harm := limit > maximum && TWO64 + maximum - limit > p;
            var s := if diff < p then maximum else ToSigned64(limit + ToUnsigned64(p));
            && (s == Min(maximum, limit + p) <==> !harm) && (harm ==> s == ToSigned64(limit + p))
  {
    var diff := ToUnsigned64(maximum - limit);
    assert diff == if limit <= maximum then maximum - limit else TWO64 + maximum - limit;
    if p <= diff {
      assert ToUnsigned64(p) == p;
    }
  }

  /** One token too many, from a negative decrement, and the bucket grows past its maximum. */
  lemma OverfullGrows()
    ensures Configured(Cfg(1, 1)) && Refreshed(Bucket(2, 0), Cfg(1, 1), 1).limit == 3 > Cfg(1, 1).maximum
  {
  }

  /** As full as can be, and the next tick makes it a debt. */
  lemma OverfullTurns()
    ensures Configured(Cfg(1, 1)) && Refreshed(Bucket(SSIZE_MAX, 0), Cfg(1, 1), 1).limit < 0
  {
  }

  /** The ticks that count: none if time stood still or went back. */
  function Ticks(last: UInt32, tick: UInt32): UInt32
  {
    var n := Elapsed(last, tick);
    if n > INT_MAX then 0 else n
  }

  /** A bucket above its maximum is not carried out of the range of ssize_t, or all the way round. */
  predicate Sound(limit: SSize, cfg: Cfg, n: UInt32)
  {
    limit <= cfg.maximum || limit + n * cfg.rate <= SSIZE_MAX || limit + n * cfg.rate > TWO64
  }

  /** Exactly then do tokens stay tokens. */
  lemma TokensStay(b: Bucket, cfg: Cfg, tick: UInt32)
    requires Configured(cfg) && b.limit > 0
    ensures Refreshed(b, cfg, tick).limit > 0 <==> Sound(b.limit, cfg, Ticks(b.lastUpdated, tick))
  {
    var n := Ticks(b.lastUpdated, tick);
    if n > 0 {
      Positive(n, cfg.rate);
      TurnsAt(b.limit, cfg.maximum, n * cfg.rate);
    }
  }

  lemma TurnsAt(limit: SSize, maximum: nat, p: int)
    requires 0 < maximum <= SSIZE_MAX && limit > 0 && p > 0
    ensures limit > maximum && TWO64 + maximum - limit > p ==>
              (ToSigned64(limit + p) > 0 <==> limit + p <= SSIZE_MAX || limit + p > TWO64)
  {
    if limit > maximum && TWO64 + maximum - limit > p {
      var x := limit + p;
      assert x % TWO64 == if x < TWO64 then x else x - TWO64;
    }
  }

  /** What ev_token_bucket_update leaves in a bucket. */
  function Refreshed(b: Bucket, cfg: Cfg, tick: UInt32): (b': Bucket)
    requires Configured(cfg)
    ensures b.limit <= cfg.maximum ==> b'.limit <= cfg.maximum
  {
    var n := Elapsed(b.lastUpdated, tick);
    if n == 0 || n > INT_MAX then b
    else
      Positive(n, cfg.rate);
      if NoHarm(b.limit, cfg, n) then Bucket(Min(cfg.maximum, b.limit + n * cfg.rate), tick)
      else Bucket(ToSigned64(b.limit + n * cfg.rate), tick)
  }

  /** Updating at each of two ticks comes to the same as updating at the later one. */
  lemma OneUpdateOrTwo(b: Bucket, cfg: Cfg, t1: UInt32, t2: UInt32)
    requires Configured(cfg) && b.limit <= cfg.maximum
    requires Elapsed(b.lastUpdated, t1) + Elapsed(t1, t2) <= INT_MAX
    ensures Refreshed(Refreshed(b, cfg, t1), cfg, t2) == Refreshed(b, cfg, t2)
  {
    var n1, n2 := Elapsed(b.lastUpdated, t1), Elapsed(t1, t2);
    Chain(b.lastUpdated, t1, t2);
    Distribute(n1, n2, cfg.rate);
    if n1 > 0 { Positive(n1, cfg.rate); }
    if n2 > 0 { Positive(n2, cfg.rate); }
  }

  lemma Chain(t0: UInt32, t1: UInt32, t2: UInt32)
    requires Elapsed(t0, t1) + Elapsed(t1, t2) <= INT_MAX
    ensures Elapsed(t0, t2) == Elapsed(t0, t1) + Elapsed(t1, t2)
    ensures Elapsed(t0, t1) == 0 ==> t0 == t1
    ensures Elapsed(t1, t2) == 0 ==> t1 == t2
  {
  }

  lemma Distribute(a: int, b: int, r: int)
    ensures (a + b) * r == a * r + b * r
  {
  }

  // ---- How much a bucket lets through

  /** A read of some bytes at a tick count that does not wrap. */
  datatype Read = Read(time: nat, bytes: nat)

  function Positive0(x: int): nat
  {
    if x > 0 then x else 0
  }

  /** The bucket after one read: brought up to date, then charged. */
  function Charged(b: Bucket, cfg: Cfg, read: Read): (b': Bucket)
    requires Configured(cfg) && b.limit <= cfg.maximum
    requires read.bytes <= Positive0(Refreshed(b, cfg, read.time % TWO32).limit)
    ensures b'.limit <= cfg.maximum
  {
    var u := Refreshed(b, cfg, read.time % TWO32);
    u.(limit := u.limit - read.bytes)
  }

  /** Reads in order of time, each within what _bufferevent_get_read_max allowed at the time. */
  ghost predicate Allowed(b: Bucket, cfg: Cfg, since: nat, rs: seq<Read>)
    requires Configured(cfg) && b.limit <= cfg.maximum
    decreases |rs|
  {
    rs == []
    || (since <= rs[0].time
        && rs[0].bytes <= Positive0(Refreshed(b, cfg, rs[0].time % TWO32).limit)
        && Allowed(Charged(b, cfg, rs[0]), cfg, rs[0].time, rs[1..]))
  }

  function Total(rs: seq<Read>): nat
  {
    if rs == [] then 0 else rs[0].bytes + Total(rs[1..])
  }

  /** The bucket was brought up to date at time, or so long before that its clock has come round. */
  ghost predicate AsOf(b: Bucket, time: nat)
  {
    var n := Elapsed(b.lastUpdated, time % TWO32);
    n == 0 || n > INT_MAX
  }

  /** From one such time to the next, the clock counts no tick that has not passed. */
  lemma NoTickTwice(b: Bucket, t: nat, t': nat)
    requires AsOf(b, t) && t <= t' && Elapsed(b.lastUpdated, t' % TWO32) <= INT_MAX
    ensures Elapsed(b.lastUpdated, t' % TWO32) <= t' - t
  {
    var k := Rounds(b.lastUpdated, t);
    var k' := Rounds(b.lastUpdated, t');
  }

  /** How often the clock has come round. */
  lemma Rounds(last: UInt32, t: nat) returns (k: int)
    ensures Elapsed(last, t % TWO32) == t - last - k * TWO32
  {
    k := t / TWO32 + (t % TWO32 - last) / TWO32;
  }

  lemma UpToDate(b: Bucket, cfg: Cfg, t: nat)
    requires Configured(cfg)
    ensures AsOf(Refreshed(b, cfg, t % TWO32), t)
  {
  }

  /** The time of the last read, or t if there is none. */
  function Last(rs: seq<Read>, t: nat): nat
  {
    if rs == [] then t else rs[|rs| - 1].time
  }

  lemma {:induction false} Bound(b: Bucket, cfg: Cfg, t: nat, rs: seq<Read>)
    requires Configured(cfg) && b.limit <= cfg.maximum && AsOf(b, t) && Allowed(b, cfg, t, rs)
    ensures Last(rs, t) >= t && Total(rs) <= Positive0(b.limit) + (Last(rs, t) - t) * cfg.rate
    decreases |rs|
  {
    if rs != [] {
      var read, last := rs[0], Last(rs, t);
      Refill(b, cfg, t, read.time);
      var c := Charged(b, cfg, read);
      hide Refreshed, Elapsed;
      Bound(c, cfg, read.time, rs[1..]);
      assert last == Last(rs[1..], read.time);
      Distribute(last - read.time, read.time - t, cfg.rate);
    }
  }

  /** No update, not of an overfull bucket either, brings more than the rate for each tick that it counts. */
  lemma Counted(b: Bucket, cfg: Cfg, tick: UInt32)
    requires Configured(cfg)
    ensures Positive0(Refreshed(b, cfg, tick).limit) <= Positive0(b.limit) + Ticks(b.lastUpdated, tick) * cfg.rate
  {
    var n := Elapsed(b.lastUpdated, tick);
    if 0 < n <= INT_MAX {
      Positive(n, cfg.rate);
      if b.limit > 0 { SignedBelow(b.limit + n * cfg.rate); }
    }
  }

  /** It counts no more of them than have passed. */
  lemma Passed(b: Bucket, cfg: Cfg, t: nat, t': nat)
    requires Configured(cfg) && AsOf(b, t) && t <= t'
    ensures Ticks(b.lastUpdated, t' % TWO32) <= t' - t && AsOf(Refreshed(b, cfg, t' % TWO32), t')
  {
    UpToDate(b, cfg, t');
    if Elapsed(b.lastUpdated, t' % TWO32) <= INT_MAX { NoTickTwice(b, t, t'); }
  }

  lemma Refill(b: Bucket, cfg: Cfg, t: nat, t': nat)
    requires Configured(cfg) && AsOf(b, t) && t <= t'
    ensures var u := Refreshed(b, cfg, t' % TWO32);
            AsOf(u, t') && Positive0(u.limit) <= Positive0(b.limit) + (t' - t) * cfg.rate
  {
    hide *;
    Counted(b, cfg, t' % TWO32);
    Passed(b, cfg, t, t');
    var n := Ticks(b.lastUpdated, t' % TWO32);
    Distribute(n, t' - t - n, cfg.rate);
    NonNegative(t' - t - n, cfg.rate);
  }

  lemma SignedBelow(x: nat)
    ensures ToSigned64(x) <= x
  {
  }

  /**
   * What a bucket has let through up to some time: reads in order, whose total is within the bound, and with what is
   * left in it still is.
   */
  ghost predicate Within(b: Bucket, cfg: Cfg, rs: seq<Read>, now: nat)
  {
    && b.limit <= cfg.maximum
    && (rs != [] ==>
          && AsOf(b, now) && rs[0].time <= Last(rs, 0) <= now
          && Total(rs) + Positive0(b.limit) <= cfg.maximum + (now - rs[0].time) * cfg.rate
          && Total(rs) <= cfg.maximum + (Last(rs, 0) - rs[0].time) * cfg.rate)
  }

  lemma WithinRefreshed(b: Bucket, cfg: Cfg, rs: seq<Read>, now: nat, t: nat)
    requires Configured(cfg) && Within(b, cfg, rs, now) && now <= t
    ensures Within(Refreshed(b, cfg, t % TWO32), cfg, rs, t) && AsOf(Refreshed(b, cfg, t % TWO32), t)
  {
    UpToDate(b, cfg, t);
    if rs != [] {
      Refill(b, cfg, now, t);
      Distribute(t - now, now - rs[0].time, cfg.rate);
    }
  }

  lemma {:induction false} TotalMore(rs: seq<Read>, r: Read)
    ensures Total(rs + [r]) == Total(rs) + r.bytes
  {
    if rs == [] {
      assert rs + [r] == [r];
    } else {
      TotalMore(rs[1..], r);
      assert (rs + [r])[1..] == rs[1..] + [r];
    }
  }

  lemma WithinRead(b: Bucket, cfg: Cfg, rs: seq<Read>, r: Read)
    requires Within(b, cfg, rs, r.time) && AsOf(b, r.time) && r.bytes <= Positive0(b.limit)
    ensures b.limit - r.bytes >= -SSIZE_MAX - 1
    ensures Within(b.(limit := b.limit - r.bytes), cfg, rs + [r], r.time)
  {
    TotalMore(rs, r);
    if rs != [] { assert (rs + [r])[0] == rs[0]; }
  }

  lemma NonNegative(n: int, r: int)
    requires n >= 0 && r >= 0
    ensures n * r >= 0
  {
  }

  lemma FirstRead(b: Bucket, cfg: Cfg, read: Read)
    requires Configured(cfg) && b.limit <= cfg.maximum
    requires read.bytes <= Positive0(Refreshed(b, cfg, read.time % TWO32).limit)
    ensures var c := Charged(b, cfg, read); AsOf(c, read.time) && Positive0(c.limit) + read.bytes <= cfg.maximum
  {
    UpToDate(b, cfg, read.time);
  }

  lemma AllowedFirst(b: Bucket, cfg: Cfg, rs: seq<Read>)
    requires Configured(cfg) && b.limit <= cfg.maximum && rs != [] && Allowed(b, cfg, rs[0].time, rs)
    ensures rs[0].bytes <= Positive0(Refreshed(b, cfg, rs[0].time % TWO32).limit)
    ensures Allowed(Charged(b, cfg, rs[0]), cfg, rs[0].time, rs[1..])
    ensures Total(rs) == rs[0].bytes + Total(rs[1..]) && Last(rs, 0) == Last(rs[1..], rs[0].time)
  {
  }

  /** One bucket by itself: no more than it can hold and the rate for each tick that passed, however the reads are spread. */
  lemma RateBound(b: Bucket, cfg: Cfg, rs: seq<Read>)
    requires Configured(cfg) && b.limit <= cfg.maximum && rs != [] && Allowed(b, cfg, rs[0].time, rs)
    ensures Last(rs, 0) >= rs[0].time && Total(rs) <= cfg.maximum + (Last(rs, 0) - rs[0].time) * cfg.rate
  {
    hide *;
    AllowedFirst(b, cfg, rs);
    FirstRead(b, cfg, rs[0]);
    Bound(Charged(b, cfg, rs[0]), cfg, rs[0].time, rs[1..]);
  }
}
