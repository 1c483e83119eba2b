/** A bufferevent with its own rate limit: its buckets, its suspension for bandwidth, and the refill timer. */
module RateLimit {
  import opened Seqs
  import opened TokenBucket

  /** An ev_token_bucket_cfg. */
  datatype Limits = Limits(read: Cfg, write: Cfg)

  predicate BothConfigured(c: Limits)
  {
    Configured(c.read) && Configured(c.write)
  }

  predicate Fits(x: int)
  {
    -SSIZE_MAX - 1 <= x <= SSIZE_MAX
  }

  /** Whether time has moved does not depend on the direction. */
  lemma SameTime(r: Bucket, w: Bucket, rc: Cfg, wc: Cfg, tick: UInt32)
    requires r.lastUpdated == w.lastUpdated && Configured(rc) && Configured(wc)
    ensures Refreshed(r, rc, tick).lastUpdated == Refreshed(w, wc, tick).lastUpdated
  {
  }

  class Limited {
    var on: bool               // cfg is set
    var cfg: Limits
    var readLimit: SSize
    var writeLimit: SSize
    var lastUpdated: UInt32
    var readSuspended: bool    // BEV_SUSPEND_BW in read_suspended
    var writeSuspended: bool
    var pending: bool          // refill_bucket_event is added
    var firing: bool           // it has expired, and its callback has not taken the lock yet

    /** A direction that is stopped will be looked at again. */
    ghost predicate Watched()
      reads this
    {
      (on ==> BothConfigured(cfg)) && (readSuspended || writeSuspended ==> on && (pending || firing))
    }

    /** An empty bucket stops its direction. */
    ghost predicate ReadStopped()
      reads this
    {
      on && readLimit <= 0 ==> readSuspended
    }

    ghost predicate WriteStopped()
      reads this
    {
      on && writeLimit <= 0 ==> writeSuspended
    }

    ghost predicate Valid()
      reads this
    {
      Watched() && ReadStopped() && WriteStopped()
    }

    ghost function ReadBucket(): Bucket
      reads this
    {
      Bucket(readLimit, lastUpdated)
    }

    ghost function WriteBucket(): Bucket
      reads this
    {
      Bucket(writeLimit, lastUpdated)
    }

    /** Updating at tick empties no bucket from which something may be taken. */
    ghost predicate ReadSound(tick: UInt32)
      reads this
    {
      readSuspended || Sound(readLimit, cfg.read, Ticks(lastUpdated, tick))
    }

    ghost predicate WriteSound(tick: UInt32)
      reads this
    {
      writeSuspended || Sound(writeLimit, cfg.write, Ticks(lastUpdated, tick))
    }

    constructor ()
      ensures Valid() && !on && !readSuspended && !writeSuspended && !pending && !firing
    {
      on, cfg, readLimit, writeLimit, lastUpdated := false, Limits(Cfg(1, 1), Cfg(1, 1)), 0, 0, 0;
      readSuspended, writeSuspended, pending, firing := false, false, false, false;
    }

    /** bufferevent_update_buckets: exactly when an update could turn tokens into a debt, a direction is left running. */
    method Refresh(tick: UInt32)
      requires Watched() && on
      modifies this`readLimit, this`writeLimit, this`lastUpdated
      ensures Watched()
      ensures ReadBucket() == Refreshed(old(ReadBucket()), cfg.read, tick)
      ensures WriteBucket() == Refreshed(old(WriteBucket()), cfg.write, tick)
      ensures old(ReadStopped()) ==> (ReadStopped() <==> old(ReadSound(tick)))
      ensures old(WriteStopped()) ==> (WriteStopped() <==> old(WriteSound(tick)))
    {
      hide Elapsed, NoHarm, ToSigned64, Refreshed, Ticks, Sound;
      SameTime(ReadBucket(), WriteBucket(), cfg.read, cfg.write, tick);
      if readLimit > 0 { TokensStay(ReadBucket(), cfg.read, tick); }
      if writeLimit > 0 { TokensStay(WriteBucket(), cfg.write, tick); }
      var r, _ := Update(Bucket(readLimit, lastUpdated), cfg.read, tick);
      var w, _ := Update(Bucket(writeLimit, lastUpdated), cfg.write, tick);
      readLimit, writeLimit, lastUpdated := r.limit, w.limit, r.lastUpdated;
    }

    /** _bufferevent_get_read_max without a group: how much may be read now. */
    method GetReadMax(tick: UInt32) returns (m: nat)
      requires Watched()
      modifies this`readLimit, this`writeLimit, this`lastUpdated
      ensures Watched() && m == if !on then 16384 else if readLimit > 0 then readLimit else 0
      ensures RefreshedFrom(old(ReadBucket()), old(WriteBucket()), tick)
      ensures old(ReadStopped()) ==> (ReadStopped() <==> !on || old(ReadSound(tick)))
      ensures old(WriteStopped()) ==> (WriteStopped() <==> !on || old(WriteSound(tick)))
    {
      if !on {
        return 16384;
      }
      Refresh(tick);
      m := if readLimit < 0 then 0 else readLimit;
    }

    /** _bufferevent_get_write_max */
    method GetWriteMax(tick: UInt32) returns (m: nat)
      requires Watched()
      modifies this`readLimit, this`writeLimit, this`lastUpdated
      ensures Watched() && m == if !on then 16384 else if writeLimit > 0 then writeLimit else 0
      ensures RefreshedFrom(old(ReadBucket()), old(WriteBucket()), tick)
      ensures old(ReadStopped()) ==> (ReadStopped() <==> !on || old(ReadSound(tick)))
      ensures old(WriteStopped()) ==> (WriteStopped() <==> !on || old(WriteSound(tick)))
    {
      if !on {
        return 16384;
      }
      Refresh(tick);
      m := if writeLimit < 0 then 0 else writeLimit;
    }

    /** Both buckets are brought up to date, if there is a configuration. */
    ghost predicate RefreshedFrom(r: Bucket, w: Bucket, tick: UInt32)
      requires on ==> BothConfigured(cfg)
      reads this
    {
      && ReadBucket() == (if on then Refreshed(r, cfg.read, tick) else r)
      && WriteBucket() == (if on then Refreshed(w, cfg.write, tick) else w)
    }

    /** _bufferevent_decrement_read_buckets: bytes have been read. */
    method DecrementRead(bytes: int)
      requires Watched() && (on ==> Fits(readLimit - bytes))
      modifies this`readLimit, this`readSuspended, this`pending
      ensures Watched() && ReadStopped() && (old(WriteStopped()) ==> WriteStopped())
      ensures readLimit == if on then old(readLimit) - bytes else old(readLimit)
      ensures readSuspended <==> on && readLimit <= 0
      ensures pending <==> readSuspended || (old(pending) && (old(readSuspended) ==> writeSuspended))
    {
      if !on {
        return;
      }
      readLimit := readLimit - bytes;
      if readLimit <= 0 {
        readSuspended, pending := true, true;
      } else if readSuspended {
        if !writeSuspended {
          pending := false;
        }
        readSuspended := false;
      }
    }

    /** _bufferevent_decrement_write_buckets */
    method DecrementWrite(bytes: int)
      requires Watched() && (on ==> Fits(writeLimit - bytes))
      modifies this`writeLimit, this`writeSuspended, this`pending
      ensures Watched() && WriteStopped() && (old(ReadStopped()) ==> ReadStopped())
      ensures writeLimit == if on then old(writeLimit) - bytes else old(writeLimit)
      ensures writeSuspended <==> on && writeLimit <= 0
      ensures pending <==> writeSuspended || (old(pending) && (old(writeSuspended) ==> readSuspended))
    {
      if !on {
        return;
      }
      writeLimit := writeLimit - bytes;
      if writeLimit <= 0 {
        writeSuspended, pending := true, true;
      } else if writeSuspended {
        if !readSuspended {
          pending := false;
        }
        writeSuspended := false;
      }
    }

    /** bufferevent_decrement_read_limit, which acts only when the limit changes sign. */
    method DecrementReadLimit(decr: int)
      requires Watched() && on && Fits(readLimit - decr)
      modifies this`readLimit, this`readSuspended, this`pending
      ensures Watched() && (old(Valid()) ==> Valid()) && readLimit == old(readLimit) - decr
      ensures readSuspended <==> if old(readLimit) > 0 >= readLimit then true
                               else if readLimit > 0 >= old(readLimit) then false else old(readSuspended)
      ensures pending <==> if old(readLimit) > 0 >= readLimit then true
                         else old(pending) && (readLimit > 0 >= old(readLimit) ==> writeSuspended)
    {
      var before := readLimit;
      readLimit := readLimit - decr;
      if before > 0 && readLimit <= 0 {
        readSuspended, pending := true, true;
      } else if before <= 0 && readLimit > 0 {
        if !writeSuspended {
          pending := false;
        }
        readSuspended := false;
      }
    }

    /** bufferevent_decrement_write_limit */
    method DecrementWriteLimit(decr: int)
      requires Watched() && on && Fits(writeLimit - decr)
      modifies this`writeLimit, this`writeSuspended, this`pending
      ensures Watched() && (old(Valid()) ==> Valid()) && writeLimit == old(writeLimit) - decr
      ensures writeSuspended <==> if old(writeLimit) > 0 >= writeLimit then true
                               else if writeLimit > 0 >= old(writeLimit) then false else old(writeSuspended)
      ensures pending <==> if old(writeLimit) > 0 >= writeLimit then true
                         else old(pending) && (writeLimit > 0 >= old(writeLimit) ==> readSuspended)
    {
      var before := writeLimit;
      writeLimit := writeLimit - decr;
      if before > 0 && writeLimit <= 0 {
        writeSuspended, pending := true, true;
      } else if before <= 0 && writeLimit > 0 {
        if !readSuspended {
          pending := false;
        }
        writeSuspended := false;
      }
    }

    /** The timer expires; its callback waits for the lock, and other calls may come before it. */
    method TimerExpires()
      requires Watched() && pending
      modifies this`pending, this`firing
      ensures Watched() && (old(Valid()) ==> Valid()) && !pending && firing
    {
      pending, firing := false, true;
    }

    /** _bev_refill_callback: what has tokens again goes on, and the rest is waited for. */
    method RefillCallback(tick: UInt32)
      requires Watched() && firing
      modifies this`readLimit, this`writeLimit, this`lastUpdated, this`readSuspended, this`writeSuspended, this`pending, this`firing
      ensures Watched() && !firing && RefreshedFrom(old(ReadBucket()), old(WriteBucket()), tick)
      ensures old(ReadStopped()) ==> (ReadStopped() <==> !on || old(ReadSound(tick)))
      ensures old(WriteStopped()) ==> (WriteStopped() <==> !on || old(WriteSound(tick)))
      ensures readSuspended <==> old(readSuspended) && readLimit <= 0
      ensures writeSuspended <==> old(writeSuspended) && writeLimit <= 0
      ensures pending <==> old(pending) || readSuspended || writeSuspended
    {
      if !on {
        firing := false;
        return;
      }
      Refresh(tick);
      firing := false;
      var again := false;
      if readSuspended {
        if readLimit > 0 {
          readSuspended := false;
        } else {
          again := true;
        }
      }
      if writeSuspended {
        if writeLimit > 0 {
          writeSuspended := false;
        } else {
          again := true;
        }
      }
      if again {
        pending := true;
      }
    }

    /** bufferevent_set_rate_limit with no configuration. */
    method ClearRateLimit()
      requires Watched()
      modifies this`on, this`readSuspended, this`writeSuspended, this`pending
      ensures Valid() && !on && !readSuspended && !writeSuspended && !pending
    {
      on, readSuspended, writeSuspended, pending := false, false, false, false;
    }

    /** bufferevent_set_rate_limit with a configuration other than the present one. */
    method SetRateLimit(c: Limits, tick: UInt32)
      requires Watched() && BothConfigured(c)
      modifies this`on, this`cfg, this`readLimit, this`writeLimit, this`lastUpdated, this`readSuspended, this`writeSuspended, this`pending
      ensures Valid() && on && cfg == c && readLimit <= c.read.maximum && writeLimit <= c.write.maximum
      ensures readSuspended <==> readLimit <= 0
      ensures writeSuspended <==> writeLimit <= 0
      ensures pending <==> readSuspended || writeSuspended
      ensures readLimit == if old(on) then Min(old(readLimit), c.read.maximum) else c.read.rate
      ensures writeLimit == if old(on) then Min(old(writeLimit), c.write.maximum) else c.write.rate
      ensures lastUpdated == if old(on) then old(lastUpdated) else tick
    {
      var reinit := on;
      on, cfg := true, c;
      if reinit {
        if readLimit > c.read.maximum {
          readLimit := c.read.maximum;
        }
        if writeLimit > c.write.maximum {
          writeLimit := c.write.maximum;
        }
      } else {
        readLimit, writeLimit, lastUpdated := c.read.rate, c.write.rate, tick;
      }
      pending := false;
      var suspended := false;
      if readLimit > 0 {
        readSuspended := false;
      } else {
        readSuspended, suspended := true, true;
      }
      if writeLimit > 0 {
        writeSuspended := false;
      } else {
        writeSuspended, suspended := true, true;
      }
      if suspended {
        pending := true;
      }
    }
  }

  /**
   * A full bucket, by a negative decrement, and one tick: nothing may be read any more, but reading is not stopped and
   * no timer will look at it.
   */
  method OverfullForgets() returns (l: Limited)
    ensures fresh(l) && l.Watched() && l.on && l.readLimit < 0 && !l.ReadStopped() && !l.pending && !l.firing
  {
    hide Refreshed, Sound;
    l := new Limited();
    l.SetRateLimit(Limits(Cfg(1, 1), Cfg(1, 1)), 0);
    l.DecrementReadLimit(l.readLimit - SSIZE_MAX);
    assert l.ReadBucket() == Bucket(SSIZE_MAX, 0);
    OverfullTurns();
    var _ := l.GetReadMax(1);
  }
}
