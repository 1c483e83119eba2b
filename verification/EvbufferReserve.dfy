/** Reserving room at the end of an evbuffer and committing what was written there. */
module EvbufferReserve {
  import opened Bytes
  import opened Seqs
  import opened ChainList
  import opened Evbuffer

  const MAX_TO_COPY_IN_EXPAND: nat := 4096

  /** An iovec: len bytes at offset pos of the chain at base. */
  datatype Vec = Vec(base: Addr, pos: nat, len: nat)

  function Space(mem: Memory, a: Addr): nat
  {
    if a in mem && mem[a].Ok() then mem[a].SpaceLen() else 0
  }

  /** The room in the m chains from f on. */
  ghost function SpaceSum(mem: Memory, cs: seq<Addr>, f: nat, m: nat): nat
    requires f + m <= |cs|
  {
    if m == 0 then 0 else SpaceSum(mem, cs, f, m - 1) + Space(mem, cs[f + m - 1])
  }

  lemma {:induction false} SpaceSumFrame(mem: Memory, mem': Memory, cs: seq<Addr>, f: nat, m: nat)
    requires f + m <= |cs|
    requires forall i :: f <= i < f + m ==> Space(mem, cs[i]) == Space(mem', cs[i])
    ensures SpaceSum(mem, cs, f, m) == SpaceSum(mem', cs, f, m)
  {
    if m > 0 {
      SpaceSumFrame(mem, mem', cs, f, m - 1);
    }
  }

  /** The first chain with room: the last one with data, or the one after it. */
  ghost function FirstSpace(mem: Memory, cs: seq<Addr>, k: nat): nat
  {
    if k < |cs| && Space(mem, cs[k]) == 0 then k + 1 else k
  }

  /** The first n chains with room at the end of buf have room for want bytes, m of them being enough. */
  ghost predicate RoomIn(buf: EvBuffer, want: nat, n: nat, m: nat)
    reads buf
  {
    && m <= n
    && FirstSpace(buf.mem, buf.chains, buf.lwd) + m <= |buf.chains|
    && want <= SpaceSum(buf.mem, buf.chains, FirstSpace(buf.mem, buf.chains, buf.lwd), m)
  }

  /** The chains cs are where they were, with buffers of the same size and no less room. */
  ghost predicate Sized(m: Memory, m': Memory, cs: seq<Addr>)
  {
    forall i :: 0 <= i < |cs| ==> SizedAt(m, m', cs[i])
  }

  ghost predicate SizedAt(m: Memory, m': Memory, a: Addr)
  {
    a in m && a in m' && |m[a].buffer| == |m'[a].buffer| && Space(m, a) <= Space(m', a)
  }

  /** The chain at a is as it was, but for the chain it is linked to. */
  ghost predicate SameAt(m: Memory, m': Memory, a: Addr)
  {
    a in m && a in m' && m'[a] == m[a].(next := m'[a].next)
  }

  /** Count the room at the end, realigning empty chains, until want bytes or n chains are found. */
  method CountRoom(buf: EvBuffer, want: nat, n: nat) returns (avail: nat, used: nat, chain: Ptr)
    requires buf.Valid() && buf.chains != [] && n >= 2
    modifies buf`mem
    ensures buf.Valid() && buf.mem.Keys == old(buf.mem.Keys)
    ensures avail >= want ==> RoomIn(buf, want, n, used)
    ensures avail < want ==> used == n || chain == Null
    ensures used <= n
    ensures var f := FirstSpace(buf.mem, buf.chains, buf.lwd);
            f + used <= |buf.chains| && avail == SpaceSum(buf.mem, buf.chains, f, used)
            && (avail < want && used < n ==> f + used == |buf.chains|)
    ensures Sized(old(buf.mem), buf.mem, buf.chains)
    ensures buf.lwd < |buf.chains| == |buf.blocks|
    ensures buf.blocks[buf.lwd] != [] ==> SameAt(old(buf.mem), buf.mem, buf.chains[buf.lwd])
  {
    hide Spine, Flat, LastData, SpaceSum, Space, Sized, SameAt, Realigned, PtrAt, SlotAt;
    ghost var cs, bs, k := buf.chains, buf.blocks, buf.lwd;
    SpineLen(buf.mem, cs, bs);
    Designated(buf.mem, cs, bs, k);
    chain := buf.Deref(buf.lastWithDatap);
    var m := buf.mem;
    used, avail := 0, 0;
    ghost var i := k;
    ghost var f := if bs[k] != [] && Space(m, cs[k]) == 0 then k + 1 else k;
    SumNone(m, cs, f);
    SizedSame(m, cs, bs);
    while true
      invariant Spine(m, cs, bs) && m.Keys == old(buf.mem.Keys)
      invariant Sized(old(buf.mem), m, cs) && (bs[k] != [] ==> SameAt(old(buf.mem), m, cs[k]))
      invariant k <= i <= |cs| && chain == PtrAt(cs, i) && used <= n
      invariant if i == k then used == 0 && (f == if bs[k] != [] && Space(m, cs[k]) == 0 then k + 1 else k)
                else f + used == i && f == FirstSpace(m, cs, k)
      invariant avail == SpaceSum(m, cs, f, used)
      invariant i > k ==> avail < want && used < n
      decreases |cs| - i
    {
      PtrIs(cs, i);
      if chain == Null {
        break;
      }
      SpineAt(m, cs, bs, i);
      EmptyAfter(bs, k, i);
      RealignedSpine(old(buf.mem), m, cs, bs, k, i);
      CountOne(m, Realigned(m, chain.addr), cs, bs, k, i, f, used);
      // A chain without data is realigned.
      m := Realigned(m, chain.addr);
      SpineAt(m, cs, bs, i);
      var c := m[chain.addr];
      if c.SpaceLen() != 0 {
        avail := avail + c.SpaceLen();
        used := used + 1;
      }
      i := i + 1;
      if avail >= want || used == n {
        break;
      }
      chain := c.next;
    }
    buf.mem := m;
  }

  /** What the slot of chain k holds. */
  lemma Designated(m: Memory, cs: seq<Addr>, bs: seq<Block>, k: nat)
    requires Spine(m, cs, bs) && k < |cs|
    ensures SlotAt(cs, k) == if k == 0 then FirstSlot else NextOf(cs[k - 1])
    ensures k > 0 ==> cs[k - 1] in m && m[cs[k - 1]].next == PtrAt(cs, k)
  {
    if k > 0 { SpineAt(m, cs, bs, k - 1); }
  }

  /** The chain at a realigned, if it has no data. */
  function Realigned(m: Memory, a: Addr): Memory
    requires a in m
  {
    if m[a].off == 0 then m[a := m[a].(misalign := 0)] else m
  }

  lemma SizedSame(m: Memory, cs: seq<Addr>, bs: seq<Block>)
    requires Spine(m, cs, bs)
    ensures Sized(m, m, cs) && forall i :: 0 <= i < |cs| ==> SameAt(m, m, cs[i])
  {
    SpineLen(m, cs, bs);
  }

  lemma RealignedSpine(m0: Memory, m: Memory, cs: seq<Addr>, bs: seq<Block>, k: nat, i: nat)
    requires Spine(m, cs, bs) && Sized(m0, m, cs) && k < |cs| == |bs| && i < |cs| && cs[i] in m
    requires bs[i] != [] ==> i == k
    requires bs[k] != [] ==> SameAt(m0, m, cs[k])
    ensures var m' := Realigned(m, cs[i]);
            && Spine(m', cs, bs) && m'.Keys == m.Keys && Sized(m0, m', cs) && (bs[k] != [] ==> SameAt(m0, m', cs[k]))
  {
    var m' := Realigned(m, cs[i]);
    SpineAt(m, cs, bs, i);
    SpineNoDup(m, cs, bs);
    if m[cs[i]].off == 0 {
      SpineSet(m, cs, bs, i, m[cs[i]].(misalign := 0));
      assert bs[i := []] == bs;
    }
    forall j | 0 <= j < |cs| ensures SizedAt(m0, m', cs[j]) { assert SizedAt(m0, m, cs[j]); }
  }

  lemma SumNone(mem: Memory, cs: seq<Addr>, f: nat)
    requires f <= |cs|
    ensures SpaceSum(mem, cs, f, 0) == 0
  {
  }

  /** Only the chain last_with_datap designates can have data among those from it on. */
  lemma EmptyAfter(bs: seq<Block>, k: nat, i: nat)
    requires LastData(bs, k) && k <= i < |bs|
    ensures bs[i] != [] ==> i == k
  {
  }

  /** Counting chain i, which may have been realigned. */
  lemma CountOne(m: Memory, m': Memory, cs: seq<Addr>, bs: seq<Block>, k: nat, i: nat, f: nat, used: nat)
    requires Spine(m, cs, bs) && Spine(m', cs, bs) && k <= i < |cs| && f + used <= |cs| && LastData(bs, k)
    requires if i == k then used == 0 && (f == if bs[k] != [] && Space(m, cs[k]) == 0 then k + 1 else k)
             else f + used == i && f == FirstSpace(m, cs, k)
    requires cs[i] in m && m' == Realigned(m, cs[i])
    ensures f == FirstSpace(m', cs, k)
    ensures m'[cs[i]].Ok() && Space(m', cs[i]) == m'[cs[i]].SpaceLen()
    ensures Space(m', cs[i]) == 0 ==> i == k && f == k + 1
    ensures if Space(m', cs[i]) == 0 then SpaceSum(m', cs, f, used) == SpaceSum(m, cs, f, used)
            else f + used == i && SpaceSum(m', cs, f, used + 1) == SpaceSum(m, cs, f, used) + Space(m', cs[i])
  {
    SpineAt(m, cs, bs, i);
    SpineAt(m', cs, bs, i);
    SpineAt(m, cs, bs, k);
    SpineNoDup(m, cs, bs);
    SpaceSumFrame(m, m', cs, f, used);
  }

  /** Add an empty chain when all the room counted is not enough and fewer than n chains have it. */
  method ExpandByAppending(buf: EvBuffer, datlen: nat, n: nat, avail: nat, ghost used: nat, a: Addr)
    requires buf.Valid() && buf.chains != [] && used < n && a !in buf.mem && avail < datlen
    requires FirstSpace(buf.mem, buf.chains, buf.lwd) + used == |buf.chains|
    requires avail == SpaceSum(buf.mem, buf.chains, FirstSpace(buf.mem, buf.chains, buf.lwd), used)
    modifies buf`mem, buf`last, buf`lastWithDatap, buf`totalLen, buf`chains, buf`blocks, buf`lwd
    ensures buf.Valid() && buf.Contents() == old(buf.Contents()) && buf.chains != []
    ensures RoomIn(buf, datlen, n, used + 1)
    ensures buf.mem.Keys <= old(buf.mem.Keys) + {a}
    ensures buf.lwd == old(buf.lwd) && buf.chains == old(buf.chains) + [a]
    ensures Sized(old(buf.mem), buf.mem, old(buf.chains))
    ensures forall x :: x in old(buf.chains) ==> SameAt(old(buf.mem), buf.mem, x)
  {
    hide Spine, Flat, SpaceSum;
    ghost var m, cs, k := buf.mem, buf.chains, buf.lwd;
    ghost var f := FirstSpace(m, cs, k);
    SpineLen(m, cs, buf.blocks);
    var tmp := ChainNew(datlen - avail);
    buf.AppendChain(a, tmp);
    assert buf.Contents() == old(buf.Contents());
    SumGrown(m, buf.mem, cs, buf.chains, f, used, a);
  }

  /** An empty chain at the end adds its room to the sum. */
  lemma SumGrown(m: Memory, m': Memory, cs: seq<Addr>, cs': seq<Addr>, f: nat, used: nat, a: Addr)
    requires cs' == cs + [a] && f + used == |cs|
    requires forall i :: 0 <= i < |cs| ==> Space(m', cs[i]) == Space(m, cs[i])
    ensures SpaceSum(m', cs', f, used + 1) == SpaceSum(m, cs, f, used) + Space(m', a)
  {
    SumPrefix(m', cs', cs, f, used);
    SpaceSumFrame(m, m', cs, f, used);
  }

  lemma {:induction false} SumPrefix(m: Memory, cs': seq<Addr>, cs: seq<Addr>, f: nat, used: nat)
    requires f + used <= |cs| <= |cs'| && cs == cs'[..|cs|]
    ensures SpaceSum(m, cs', f, used) == SpaceSum(m, cs, f, used)
  {
    if used > 0 {
      SumPrefix(m, cs', cs, f, used - 1);
    }
  }

  /** Replace all empty chains at the end by one that, with the room left in the last chain with data, is enough. */
  method ExpandByReplacing(buf: EvBuffer, datlen: nat, a: Addr) returns (ghost m: nat)
    requires buf.Valid() && buf.lwd <= buf.VictimAt() < |buf.chains| == |buf.blocks| && a !in buf.mem
    requires Space(buf.mem, buf.chains[buf.lwd]) < datlen || buf.VictimAt() == buf.lwd
    modifies buf`mem, buf`first, buf`last, buf`totalLen, buf`chains, buf`blocks
    ensures buf.Valid() && buf.Contents() == old(buf.Contents()) && buf.chains != []
    ensures RoomIn(buf, datlen, 2, m)
    ensures buf.mem.Keys <= old(buf.mem.Keys) + {a}
    ensures buf.chains == old(buf.chains[..buf.VictimAt()]) + [a]
    ensures old(buf.blocks[buf.lwd] != []) ==> SameAt(old(buf.mem), buf.mem, old(buf.chains[buf.lwd]))
  {
    hide Spine, Flat;
    ghost var k, v := buf.lwd, buf.VictimAt();
    SpineLen(buf.mem, buf.chains, buf.blocks);
    if k > 0 { SpineAt(buf.mem, buf.chains, buf.blocks, k - 1); }
    SpineAt(buf.mem, buf.chains, buf.blocks, k);
    var chain := buf.Deref(buf.lastWithDatap).addr;
    var ch, avail := buf.lastWithDatap, 0;
    if buf.mem[chain].off != 0 {
      ch := NextOf(chain);
      avail := buf.mem[chain].SpaceLen();
    }
    var tmp := ChainNew(datlen - avail);
    buf.ReplaceTail(ch, v, a, tmp);
    assert buf.chains[v] == a;
    m := if v == k || Space(buf.mem, buf.chains[k]) == 0 then 1 else 2;
    SumUpToTwo(buf.mem, buf.chains, FirstSpace(buf.mem, buf.chains, k), m);
  }

  lemma SumUpToTwo(mem: Memory, cs: seq<Addr>, f: nat, m: nat)
    requires 1 <= m <= 2 && f + m <= |cs|
    ensures SpaceSum(mem, cs, f, m) == Space(mem, cs[f]) + if m == 2 then Space(mem, cs[f + 1]) else 0
  {
    assert SpaceSum(mem, cs, f, 1) == SpaceSum(mem, cs, f, 0) + Space(mem, cs[f]);
  }

  /** What making room leaves of the chains cs with memory m, of which the k-th is the last with data, for n vectors. */
  ghost predicate Undisturbed(m: Memory, cs: seq<Addr>, bs: seq<Block>, k: nat, n: nat, m': Memory, cs': seq<Addr>, k': nat)
  {
    && |cs'| <= |cs| + 1
    && (cs == [] ==> |cs'| == 1 && k' == 0)
    && (cs != [] ==> k' == k)
    && (k < |cs| == |bs| && bs[k] != [] ==> k < |cs'| && cs'[..k + 1] == cs[..k + 1] && SameAt(m, m', cs[k]))
    && (cs != [] && |cs| < k + n ==> cs <= cs' && Sized(m, m', cs))
  }

  /**
   * _evbuffer_expand_fast: room for datlen bytes in at most n chains. The last chain with data stays as it is, and so do
   * the empty ones, but for realigning, if there are fewer than n.
   */
  method ExpandFast(buf: EvBuffer, datlen: nat, n: nat, a: Addr) returns (ghost m: nat)
    requires buf.Valid() && n >= 2 && a !in buf.mem
    modifies buf`mem, buf`first, buf`last, buf`lastWithDatap, buf`totalLen, buf`chains, buf`blocks, buf`lwd
    ensures buf.Valid() && buf.Contents() == old(buf.Contents()) && buf.chains != []
    ensures RoomIn(buf, datlen, n, m)
    ensures buf.mem.Keys <= old(buf.mem.Keys) + {a}
    ensures Undisturbed(old(buf.mem), old(buf.chains), old(buf.blocks), old(buf.lwd), n, buf.mem, buf.chains, buf.lwd)
  {
    hide Spine, Flat, SpaceSum, Sized, SameAt, Space, FirstEmpty, LastData;
    ghost var m0, cs, bs, k := buf.mem, buf.chains, buf.blocks, buf.lwd;
    SpineLen(m0, cs, bs);
    if buf.last == Null {
      m := ExpandEmpty(buf, datlen, a);
      return;
    }
    var avail, used, chain := CountRoom(buf, datlen, n);
    ghost var m1 := buf.mem;
    m := used;
    if avail >= datlen {
      assert cs[..k + 1] == buf.chains[..k + 1];
      return;
    }
    if used < n {
      ExpandByAppending(buf, datlen, n, avail, used, a);
      m := used + 1;
      assert buf.chains[..k + 1] == cs[..k + 1];
      SizedTwice(m0, m1, buf.mem, cs, cs[k]);
    } else {
      RoomOfOne(buf.mem, buf.chains, FirstSpace(buf.mem, buf.chains, buf.lwd), used);
      m := ExpandByReplacing(buf, datlen, a);
      SameTwice(m0, m1, buf.mem, cs[k]);
    }
  }

  /** The first chain of an empty buffer. */
  method ExpandEmpty(buf: EvBuffer, datlen: nat, a: Addr) returns (ghost m: nat)
    requires buf.Valid() && buf.chains == []
    modifies buf`mem, buf`first, buf`last, buf`totalLen, buf`chains, buf`blocks
    ensures buf.Valid() && buf.Contents() == old(buf.Contents()) && |buf.chains| == 1 && RoomIn(buf, datlen, 1, m)
    ensures buf.mem.Keys == {a} && buf.lwd == 0
  {
    hide Spine, Flat, SpaceSum;
    var c := ChainNew(datlen);
    buf.InsertFirst(a, c);
    m := 1;
    SumUpToTwo(buf.mem, buf.chains, 0, 1);
  }

  lemma SameTwice(m0: Memory, m1: Memory, m2: Memory, a: Addr)
    ensures SameAt(m0, m1, a) && SameAt(m1, m2, a) ==> SameAt(m0, m2, a)
  {
  }

  lemma SizedTwice(m0: Memory, m1: Memory, m2: Memory, cs: seq<Addr>, a: Addr)
    requires Sized(m0, m1, cs) && Sized(m1, m2, cs)
    ensures Sized(m0, m2, cs)
    ensures SameAt(m0, m1, a) && SameAt(m1, m2, a) ==> SameAt(m0, m2, a)
  {
    forall i | 0 <= i < |cs| ensures SizedAt(m0, m2, cs[i]) { assert SizedAt(m0, m1, cs[i]) && SizedAt(m1, m2, cs[i]); }
  }

  /** Any one of the chains counted has at most the room counted. */
  lemma {:induction false} RoomOfOne(mem: Memory, cs: seq<Addr>, f: nat, m: nat)
    requires f + m <= |cs|
    ensures m > 0 ==> Space(mem, cs[f]) <= SpaceSum(mem, cs, f, m)
  {
    if m > 1 {
      RoomOfOne(mem, cs, f, m - 1);
    }
  }

  /** Vector i is a piece of the room in chain f + i, starting where its data ends. */
  ghost predicate OfferAt(mem: Memory, cs: seq<Addr>, f: nat, vecs: seq<Vec>, i: nat)
    requires i < |vecs| && f + |vecs| <= |cs|
  {
    && vecs[i].base == cs[f + i]
    && cs[f + i] in mem
    && mem[cs[f + i]].Ok()
    && vecs[i].pos == mem[cs[f + i]].misalign + mem[cs[f + i]].off
    && vecs[i].len <= mem[cs[f + i]].SpaceLen()
  }

  /** The vectors are pieces of the room in consecutive chains from f on. */
  ghost predicate Offered(mem: Memory, cs: seq<Addr>, f: nat, vecs: seq<Vec>)
  {
    && f + |vecs| <= |cs|
    && forall i :: 0 <= i < |vecs| ==> OfferAt(mem, cs, f, vecs, i)
  }

  function Lens(vecs: seq<Vec>): nat
  {
    if vecs == [] then 0 else Lens(vecs[..|vecs| - 1]) + vecs[|vecs| - 1].len
  }

  /** _evbuffer_read_setup_vecs: vectors for howmuch bytes of room. */
  method SetupVecs(buf: EvBuffer, howmuch: nat, nVecs: nat, exact: bool, ghost m: nat) returns (vecs: seq<Vec>)
    requires buf.Valid() && buf.chains != [] && RoomIn(buf, howmuch, nVecs, m)
    ensures |vecs| <= nVecs && Offered(buf.mem, buf.chains, FirstSpace(buf.mem, buf.chains, buf.lwd), vecs)
    ensures howmuch <= Lens(vecs) && (exact ==> Lens(vecs) == howmuch)
  {
    hide Spine, Flat, LastData, SpaceSum, Lens;
    ghost var cs, bs, k := buf.chains, buf.blocks, buf.lwd;
    ghost var f := FirstSpace(buf.mem, cs, k);
    SpineLen(buf.mem, cs, bs);
    if k > 0 { SpineAt(buf.mem, cs, bs, k - 1); }
    SpineAt(buf.mem, cs, bs, k);
    var mem := buf.mem;
    var chain := buf.Deref(buf.lastWithDatap);
    if mem[chain.addr].SpaceLen() == 0 {
      chain := mem[chain.addr].next;
    }
    vecs := [];
    var soFar := 0;
    SumNone(mem, cs, f);
    LensNone();
    while |vecs| < nVecs && soFar < howmuch
      invariant 0 <= soFar == Lens(vecs) && |vecs| <= nVecs && f + |vecs| <= |cs| && chain == PtrAt(cs, f + |vecs|)
      invariant Offered(mem, cs, f, vecs)
      invariant soFar < howmuch ==> soFar == SpaceSum(mem, cs, f, |vecs|)
      invariant exact ==> soFar <= howmuch
      decreases nVecs - |vecs|
    {
      SumOneMore(mem, cs, f, |vecs|, m, howmuch);
      SpineAt(mem, cs, bs, f + |vecs|);
      var c := mem[chain.addr];
      var avail := c.SpaceLen();
      if avail > howmuch - soFar && exact {
        avail := howmuch - soFar;
      }
      var v := Vec(chain.addr, c.misalign + c.off, avail);
      OfferOneMore(mem, cs, f, vecs, v);
      vecs := vecs + [v];
      soFar := soFar + avail;
      chain := c.next;
    }
    SumMono(mem, cs, f, m, |vecs|);
  }

  lemma LensNone()
    ensures Lens([]) == 0
  {
  }

  lemma OfferOneMore(mem: Memory, cs: seq<Addr>, f: nat, vecs: seq<Vec>, v: Vec)
    requires Offered(mem, cs, f, vecs) && f + |vecs| < |cs|
    requires v.base == cs[f + |vecs|] && v.base in mem && mem[v.base].Ok()
    requires v.pos == mem[v.base].misalign + mem[v.base].off && v.len <= mem[v.base].SpaceLen()
    ensures Offered(mem, cs, f, vecs + [v]) && Lens(vecs + [v]) == Lens(vecs) + v.len
  {
    var vecs' := vecs + [v];
    assert vecs'[..|vecs|] == vecs;
    forall i | 0 <= i < |vecs'| ensures OfferAt(mem, cs, f, vecs', i) {
      if i < |vecs| {
        assert OfferAt(mem, cs, f, vecs, i);
      }
    }
  }

  lemma {:induction false} SumMono(mem: Memory, cs: seq<Addr>, f: nat, m: nat, m': nat)
    requires f + m <= |cs| && f + m' <= |cs|
    ensures m <= m' ==> SpaceSum(mem, cs, f, m) <= SpaceSum(mem, cs, f, m')
    decreases m'
  {
    if m < m' {
      SumMono(mem, cs, f, m, m' - 1);
    }
  }

  /** As long as the room offered is too small, another chain of those known to be enough follows. */
  lemma SumOneMore(mem: Memory, cs: seq<Addr>, f: nat, i: nat, m: nat, want: nat)
    requires f + i <= |cs| && f + m <= |cs|
    requires SpaceSum(mem, cs, f, i) < want <= SpaceSum(mem, cs, f, m)
    ensures i < m && SpaceSum(mem, cs, f, i + 1) == SpaceSum(mem, cs, f, i) + Space(mem, cs[f + i])
  {
    SumMono(mem, cs, f, m, i);
  }

  /** The chain at r has room for datlen bytes and no data follows it. */
  ghost predicate RoomAt(buf: EvBuffer, r: Addr, datlen: nat)
    reads buf
  {
    && r in buf.mem && buf.mem[r].Ok() && buf.mem[r].SpaceLen() >= datlen
    && exists i :: buf.lwd <= i < |buf.chains| && buf.chains[i] == r
  }

  /** Move the data of the last chain with data to a new chain with datlen bytes of room. */
  method ResizeLastWithData(buf: EvBuffer, datlen: nat, a: Addr)
    requires buf.Valid() && buf.chains != [] && a !in buf.mem
    modifies buf`mem, buf`first, buf`last, buf`chains
    ensures buf.Valid() && buf.Contents() == old(buf.Contents()) && RoomAt(buf, a, datlen)
    ensures buf.mem.Keys <= old(buf.mem.Keys) + {a}
    ensures old(buf.lwd < |buf.chains|) && buf.chains == old(buf.chains)[buf.lwd := a]
  {
    hide Spine, Flat, LastData, NoDup;
    ghost var m, cs, bs, k := buf.mem, buf.chains, buf.blocks, buf.lwd;
    SpineLen(m, cs, bs);
    SpineNoDup(m, cs, bs);
    if k > 0 { SpineAt(m, cs, bs, k - 1); }
    SpineAt(m, cs, bs, k);
    var chain := buf.Deref(buf.lastWithDatap).addr;
    var c := buf.mem[chain];
    var tmp := ChainNew(c.off + datlen);
    tmp := tmp.Append(c.Data()).(next := c.next);
    assert tmp.Data() == c.Data();
    SpineSwap(m, cs, bs, k, a, tmp);
    Renamed(cs, k, a);
    buf.mem := Swapped(buf.mem, buf.lastWithDatap, chain, a, tmp);
    if buf.lastWithDatap.FirstSlot? {
      buf.first := To(a);
    }
    if buf.last == To(chain) {
      buf.last := To(a);
    }
    buf.chains := cs[k := a];
  }

  /** Free chain and make the slot that pointed at it point at c, allocated at a. */
  function Swapped(mem: Memory, slot: Slot, chain: Addr, a: Addr, c: Chain): Memory
  {
    var m := mem - {chain};
    var m := if slot.NextOf? && slot.chain in m then m[slot.chain := m[slot.chain].(next := To(a))] else m;
    m[a := c]
  }

  lemma SpineSwap(mem: Memory, cs: seq<Addr>, bs: seq<Block>, k: nat, a: Addr, c: Chain)
    requires Spine(mem, cs, bs) && k < |cs| && a !in mem
    requires c.Ok() && c.Data() == bs[k] && c.next == PtrAt(cs, k + 1)
    ensures Spine(Swapped(mem, SlotAt(cs, k), cs[k], a, c), cs[k := a], bs)
    ensures Swapped(mem, SlotAt(cs, k), cs[k], a, c).Keys <= mem.Keys + {a}
  {
    SpineLen(mem, cs, bs);
    if k > 0 { SpineAt(mem, cs, bs, k - 1); }
    assert NoDup(cs);
    SpineReplace(mem, cs, bs, k, a, c, Swapped(mem, SlotAt(cs, k), cs[k], a, c));
  }

  /** Replacing chain k changes neither the slot that designates it nor, unless it is an end, the ends. */
  lemma Renamed(cs: seq<Addr>, k: nat, a: Addr)
    requires k < |cs| && NoDup(cs)
    ensures SlotAt(cs[k := a], k) == SlotAt(cs, k) && a in cs[k := a]
    ensures PtrAt(cs[k := a], 0) == if k == 0 then To(a) else PtrAt(cs, 0)
    ensures PtrAt(cs[k := a], |cs| - 1) == if PtrAt(cs, |cs| - 1) == To(cs[k]) then To(a) else PtrAt(cs, |cs| - 1)
  {
    assert cs[k := a][k] == a;
  }

  /** Insert a new empty chain with room for datlen bytes. */
  method InsertNew(buf: EvBuffer, datlen: nat, a: Addr)
    requires buf.Valid() && a !in buf.mem
    modifies buf`mem, buf`first, buf`last, buf`lastWithDatap, buf`totalLen, buf`chains, buf`blocks, buf`lwd
    ensures buf.Valid() && buf.Contents() == old(buf.Contents()) && RoomAt(buf, a, datlen)
    ensures buf.mem.Keys <= old(buf.mem.Keys) + {a}
    ensures old(buf.VictimAt() <= |buf.chains|) && buf.chains == old(buf.chains[..buf.VictimAt()]) + [a]
  {
    hide Spine, Flat;
    buf.VictimIs();
    var c := ChainNew(datlen);
    var _ := buf.ChainInsert(a, c);
    assert c.Data() == [] && buf.Contents() == old(buf.Contents());
    assert buf.chains[|buf.chains| - 1] == a;
  }

  /** Realign the chain i, which has enough room once that is done. */
  method AlignChain(buf: EvBuffer, chain: Addr, ghost i: nat)
    requires buf.Valid() && i < |buf.chains| && chain == buf.chains[i] && chain in buf.mem && buf.mem[chain].Ok()
    modifies buf`mem
    ensures buf.Valid() && buf.mem == old(buf.mem[chain := buf.mem[chain].Align()])
  {
    hide Spine, Flat, LastData;
    SpineAt(buf.mem, buf.chains, buf.blocks, i);
    SpineSet(buf.mem, buf.chains, buf.blocks, i, buf.mem[chain].Align());
    assert buf.blocks[i := buf.blocks[i]] == buf.blocks;
    buf.mem := buf.mem[chain := buf.mem[chain].Align()];
  }

  /** The chain at r is one that evbuffer_commit_space looks at: the last one, or the first with room. */
  ghost predicate EndOrFirst(buf: EvBuffer, r: Addr)
    reads buf
  {
    buf.last == To(r) || PtrAt(buf.chains, FirstSpace(buf.mem, buf.chains, buf.lwd)) == To(r)
  }

  /**
   * The last chain with data has some room, too little, and it is not worth making more; the next one has enough, and
   * yet another one follows.
   */
  ghost predicate PassedOver(buf: EvBuffer, n: nat)
    reads buf
  {
    && buf.lwd + 2 < |buf.chains| && buf.chains[buf.lwd] in buf.mem
    && var c := buf.mem[buf.chains[buf.lwd]];
    && c.Ok() && c.off > 0 && 0 < c.SpaceLen() < n && !c.ShouldRealign(n)
    && (c.SpaceLen() < |c.buffer| / 8 || c.off > MAX_TO_COPY_IN_EXPAND)
    && n <= Space(buf.mem, buf.chains[buf.lwd + 1])
  }

  /** evbuffer_expand_singlechain: one chain at the end with room for datlen bytes. */
  method ExpandSingleChain(buf: EvBuffer, datlen: nat, a: Addr) returns (r: Addr)
    requires buf.Valid() && a !in buf.mem
    modifies buf`mem, buf`first, buf`last, buf`lastWithDatap, buf`totalLen, buf`chains, buf`blocks, buf`lwd
    ensures buf.Valid() && buf.Contents() == old(buf.Contents()) && RoomAt(buf, r, datlen)
    ensures buf.mem.Keys <= old(buf.mem.Keys) + {a}
    ensures EndOrFirst(buf, r) <==> !old(PassedOver(buf, datlen))
  {
    hide Spine, Flat, LastData;
    ghost var k := buf.lwd;
    SpineLen(buf.mem, buf.chains, buf.blocks);
    if k > 0 { SpineAt(buf.mem, buf.chains, buf.blocks, k - 1); }
    if k < |buf.chains| { SpineAt(buf.mem, buf.chains, buf.blocks, k); }
    var p := buf.Deref(buf.lastWithDatap);
    ghost var i := k;
    if p != Null && buf.mem[p.addr].SpaceLen() == 0 {
      p := buf.mem[p.addr].next;
      i := k + 1;
    }
    if p == Null {
      InsertNew(buf, datlen, a);
      return a;
    }
    SpineAt(buf.mem, buf.chains, buf.blocks, i);
    var c := buf.mem[p.addr];
    if c.SpaceLen() >= datlen {
      assert buf.chains[i] == p.addr;
      return p.addr;
    }
    if c.off == 0 {
      EmptyIsNot(buf, i, datlen);
      InsertNew(buf, datlen, a);
      return a;
    }
    EmptyAfter(buf.blocks, k, i);
    r := ExpandWithData(buf, p.addr, datlen, a);
  }

  /** The room is not in the last chain with data, or that chain is empty. */
  lemma EmptyIsNot(buf: EvBuffer, i: nat, n: nat)
    requires buf.Valid() && buf.lwd <= i < |buf.chains| && buf.chains[i] in buf.mem && buf.mem[buf.chains[i]].off == 0
    requires i > buf.lwd ==> Space(buf.mem, buf.chains[buf.lwd]) == 0
    ensures !PassedOver(buf, n)
  {
  }

  /** The branches for a last chain with data, p, that has some room, but less than datlen. */
  method ExpandWithData(buf: EvBuffer, p: Addr, datlen: nat, a: Addr) returns (r: Addr)
    requires buf.Valid() && a !in buf.mem && buf.lwd < |buf.chains| == |buf.blocks| && p == buf.chains[buf.lwd]
    requires p in buf.mem && buf.mem[p].Ok() && buf.mem[p].off > 0 && 0 < buf.mem[p].SpaceLen() < datlen
    modifies buf`mem, buf`first, buf`last, buf`lastWithDatap, buf`totalLen, buf`chains, buf`blocks, buf`lwd
    ensures buf.Valid() && buf.Contents() == old(buf.Contents()) && RoomAt(buf, r, datlen)
    ensures buf.mem.Keys <= old(buf.mem.Keys) + {a}
    ensures EndOrFirst(buf, r) <==> !old(PassedOver(buf, datlen))
  {
    hide Spine, Flat, LastData;
    ghost var k := buf.lwd;
    SpineLen(buf.mem, buf.chains, buf.blocks);
    SpineAt(buf.mem, buf.chains, buf.blocks, k);
    SpineNoDup(buf.mem, buf.chains, buf.blocks);
    var c := buf.mem[p];
    if c.ShouldRealign(datlen) {
      AlignChain(buf, p, k);
      return p;
    }
    if c.SpaceLen() < |c.buffer| / 8 || c.off > MAX_TO_COPY_IN_EXPAND {
      if k + 1 < |buf.chains| { SpineAt(buf.mem, buf.chains, buf.blocks, k + 1); }
      if c.next != Null && buf.mem[c.next.addr].SpaceLen() >= datlen {
        assert buf.chains[k + 1] == c.next.addr;
        return c.next.addr;
      }
      InsertNew(buf, datlen, a);
    } else {
      ResizeLastWithData(buf, datlen, a);
    }
    r := a;
  }

  /** evbuffer_reserve_space: vectors, at most nVecs of them, with room for size bytes; -1 on refusal. */
  method ReserveSpace(buf: EvBuffer, size: nat, nVecs: int, a: Addr) returns (r: int, vecs: seq<Vec>)
    requires buf.Valid() && a !in buf.mem
    modifies buf`mem, buf`first, buf`last, buf`lastWithDatap, buf`totalLen, buf`chains, buf`blocks, buf`lwd
    ensures buf.Valid() && buf.Contents() == old(buf.Contents())
    ensures buf.mem.Keys <= old(buf.mem.Keys) + {a}
    ensures r == -1 <==> buf.freezeEnd || nVecs < 1
    ensures r == -1 ==> vecs == []
    ensures r != -1 ==> r == |vecs| <= nVecs && size <= Lens(vecs)
    ensures nVecs >= 2 && r != -1 ==> buf.chains != [] && Offered(buf.mem, buf.chains, FirstSpace(buf.mem, buf.chains, buf.lwd), vecs)
    ensures nVecs >= 2 && r != -1 ==>
              Undisturbed(old(buf.mem), old(buf.chains), old(buf.blocks), old(buf.lwd), nVecs, buf.mem, buf.chains, buf.lwd)
    ensures nVecs == 1 && r != -1 ==> |vecs| == 1 && RoomAt(buf, vecs[0].base, size) && vecs[0] == SpaceVec(buf.mem, vecs[0].base)
    ensures nVecs == 1 && r != -1 ==> (Acceptable(buf, vecs) <==> !old(PassedOver(buf, size)))
  {
    hide Spine, Flat, LastData, SpaceSum, Undisturbed, Acceptable, PassedOver;
    if buf.freezeEnd || nVecs < 1 {
      return -1, [];
    }
    if nVecs == 1 {
      var chain := ExpandSingleChain(buf, size, a);
      vecs := [SpaceVec(buf.mem, chain)];
      SingleVecAcceptable(buf, chain);
      assert vecs[..0] == [];
    } else {
      var m := ExpandFast(buf, size, nVecs, a);
      vecs := SetupVecs(buf, size, nVecs, false, m);
    }
    r := |vecs|;
  }

  /** All of the room after the data of the chain at a. */
  function SpaceVec(mem: Memory, a: Addr): Vec
    requires a in mem && mem[a].Ok()
  {
    Vec(a, mem[a].misalign + mem[a].off, mem[a].SpaceLen())
  }

  /** The bytes that memory holds where a vector points. */
  function VecBytes(mem: Memory, v: Vec): Block
  {
    if v.base in mem && v.pos + v.len <= |mem[v.base].buffer| then mem[v.base].buffer[v.pos..v.pos + v.len] else []
  }

  function Written(mem: Memory, vecs: seq<Vec>): Block
  {
    if vecs == [] then [] else Written(mem, vecs[..|vecs| - 1]) + VecBytes(mem, vecs[|vecs| - 1])
  }

  /** CHAIN_SPACE_PTR of the last chain is where the vector points. */
  ghost predicate AtLast(buf: EvBuffer, v: Vec)
    reads buf
  {
    && buf.last == To(v.base)
    && v.base in buf.mem
    && v.pos == buf.mem[v.base].misalign + buf.mem[v.base].off
  }

  /** What evbuffer_commit_space accepts. */
  ghost predicate Acceptable(buf: EvBuffer, vecs: seq<Vec>)
    reads buf
  {
    && !buf.freezeEnd
    && if |vecs| == 1 && AtLast(buf, vecs[0]) then vecs[0].len <= Space(buf.mem, vecs[0].base)
       else vecs == [] || (buf.chains != [] && Offered(buf.mem, buf.chains, FirstSpace(buf.mem, buf.chains, buf.lwd), vecs))
  }

  /** The vector points into the room of the last chain: put its bytes into the buffer. */
  method CommitLast(buf: EvBuffer, v: Vec)
    requires buf.Valid() && buf.chains != [] && AtLast(buf, v) && v.len <= Space(buf.mem, v.base)
    modifies buf`mem, buf`blocks, buf`totalLen, buf`lastWithDatap, buf`lwd
    ensures buf.Linked() && buf.Contents() == old(buf.Contents() + VecBytes(buf.mem, v))
    ensures buf.LwdRight() <==> v.len == 0 || |buf.chains| <= old(buf.lwd) + 2
    ensures old(buf.blocks) != [] && buf.blocks == ToppedUp(old(buf.blocks), old(VecBytes(buf.mem, v)))
  {
    hide Spine, Flat;
    SpineLen(buf.mem, buf.chains, buf.blocks);
    SpineAt(buf.mem, buf.chains, buf.blocks, |buf.chains| - 1);
    var c := buf.mem[v.base];
    var c' := c.(off := c.off + v.len);
    assert c'.Data() == c.Data() + VecBytes(buf.mem, v);
    LastDataTopped(buf.blocks, buf.lwd, VecBytes(buf.mem, v));
    buf.ExtendLast(c', VecBytes(buf.mem, v));
    assert buf.blocks[|buf.blocks| - 1] == c'.Data();
    ghost var k, n := buf.lwd, |buf.blocks|;
    assert k + 1 < n - 1 ==> buf.blocks[k + 1] == [];
    if v.len > 0 {
      buf.AdvanceLastWithData();
      assert k + 1 < n - 1 ==> buf.lwd == k;
    }
  }

  /** Pass 1: do the vectors match the room of the chains from p, chain f, on? */
  method CheckVecs(buf: EvBuffer, p: Ptr, vecs: seq<Vec>, ghost f: nat) returns (ok: bool)
    requires Spine(buf.mem, buf.chains, buf.blocks) && f <= |buf.chains| && p == PtrAt(buf.chains, f)
    ensures ok <==> Offered(buf.mem, buf.chains, f, vecs)
  {
    hide Spine, Offered;
    ghost var cs := buf.chains;
    SpineLen(buf.mem, cs, buf.blocks);
    var chain := p;
    var i := 0;
    OfferedNone(buf.mem, cs, f);
    assert vecs[..0] == [];
    while i < |vecs|
      invariant 0 <= i <= |vecs| && f + i <= |cs| && chain == PtrAt(cs, f + i)
      invariant Offered(buf.mem, cs, f, vecs[..i])
    {
      if chain == Null {
        OfferedPrefix(buf.mem, cs, f, vecs, i);
        return false;
      }
      SpineAt(buf.mem, cs, buf.blocks, f + i);
      OfferedPrefix(buf.mem, cs, f, vecs, i);
      var c := buf.mem[chain.addr];
      if vecs[i].base != chain.addr || vecs[i].pos != c.misalign + c.off || vecs[i].len > c.SpaceLen() {
        return false;
      }
      OfferOneMore(buf.mem, cs, f, vecs[..i], vecs[i]);
      assert vecs[..i] + [vecs[i]] == vecs[..i + 1];
      chain := c.next;
      i := i + 1;
    }
    assert vecs[..i] == vecs;
    ok := true;
  }

  lemma OfferedNone(mem: Memory, cs: seq<Addr>, f: nat)
    requires f <= |cs|
    ensures Offered(mem, cs, f, [])
  {
  }

  lemma OfferedLen(mem: Memory, cs: seq<Addr>, f: nat, vecs: seq<Vec>)
    requires Offered(mem, cs, f, vecs)
    ensures f + |vecs| <= |cs|
  {
  }

  /** If all vectors match, vector i does. */
  lemma OfferedPrefix(mem: Memory, cs: seq<Addr>, f: nat, vecs: seq<Vec>, i: nat)
    requires i < |vecs|
    ensures Offered(mem, cs, f, vecs) ==> f + |vecs| <= |cs| && OfferAt(mem, cs, f, vecs, i)
  {
  }

  /** The chains from j on are as they were in m0 and hold nothing, except that chain k may. */
  ghost predicate Untouched(m: Memory, m0: Memory, cs: seq<Addr>, bs: seq<Block>, k: nat, j: nat)
    requires |bs| == |cs|
  {
    && (forall l :: j <= l < |cs| ==> cs[l] in m0 && cs[l] in m && m[cs[l]] == m0[cs[l]])
    && (forall l :: j <= l < |bs| && k < l ==> bs[l] == [])
  }

  lemma AllUntouched(m: Memory, cs: seq<Addr>, bs: seq<Block>, k: nat, j: nat)
    requires Spine(m, cs, bs) && |cs| == |bs| && LastData(bs, k)
    ensures Untouched(m, m, cs, bs, k, j)
  {
    SpineLen(m, cs, bs);
  }

  /** Pass 2: adjust the chains from slot, the one of chain f, on. */
  method AdjustChains(buf: EvBuffer, slot: Slot, vecs: seq<Vec>, ghost f: nat)
    requires buf.Valid() && buf.chains != [] && buf.lwd <= f && f <= |buf.chains| && slot == SlotAt(buf.chains, f)
    requires Offered(buf.mem, buf.chains, f, vecs)
    modifies buf`mem, buf`blocks, buf`totalLen, buf`lastWithDatap, buf`lwd
    ensures buf.Valid() && buf.Contents() == old(buf.Contents() + Written(buf.mem, vecs))
  {
    hide Spine, Flat, Offered, Written, LastData, Untouched;
    ghost var cs, bs := buf.chains, buf.blocks;
    ghost var k: nat := buf.lwd;
    ghost var m0: Memory, all := buf.mem, buf.Contents();
    var m: Memory, chainp, lwdp := buf.mem, slot, buf.lastWithDatap;
    var total: nat := buf.totalLen;
    SpineLen(m, cs, bs);
    OfferedLen(m, cs, f, vecs);
    AllUntouched(m, cs, bs, k, f);
    WrittenNone(m);
    assert vecs[..0] == [] && all + [] == all;
    if f > 0 { SpineAt(m, cs, bs, f - 1); }
    var chain := if chainp.FirstSlot? then buf.first else m[chainp.chain].next;
    for i := 0 to |vecs|
      invariant f + |vecs| <= |cs| == |bs| && Spine(m, cs, bs)
      invariant chain == PtrAt(cs, f + i) && chainp == SlotAt(cs, f + i)
      invariant Untouched(m, m0, cs, bs, k, f + i)
      invariant LastData(bs, k) && k < |cs| && k <= f + i && lwdp == SlotAt(cs, k)
      invariant Flat(bs) == all + Written(m0, vecs[..i]) && |Flat(bs)| == total
    {
      OfferedPrefix(m0, cs, f, vecs, i);
      SpineAt(m, cs, bs, f + i);
      var c := m[chain.addr];
      CommitOne(m, m0, cs, bs, k, f + i, vecs, i, all);
      var c' := c.(off := c.off + vecs[i].len);
      m := m[chain.addr := c'];
      total := total + vecs[i].len;
      if vecs[i].len != 0 {
        lwdp := chainp;
        k := f + i;
      }
      bs := bs[f + i := c'.Data()];
      chainp := NextOf(chain.addr);
      chain := c.next;
    }
    assert vecs[..|vecs|] == vecs;
    buf.mem, buf.lastWithDatap, buf.totalLen := m, lwdp, total;
    buf.blocks, buf.lwd := bs, k;
  }

  lemma WrittenNone(mem: Memory)
    ensures Written(mem, []) == []
  {
  }

  /** One step of pass 2: commit vector i to chain j. */
  lemma CommitOne(m: Memory, m0: Memory, cs: seq<Addr>, bs: seq<Block>, k: nat, j: nat, vecs: seq<Vec>, i: nat, all: Block)
    requires Spine(m, cs, bs) && k <= j < |cs| == |bs| && i < |vecs|
    requires Untouched(m, m0, cs, bs, k, j) && LastData(bs, k)
    requires cs[j] in m0 && m0[cs[j]].Ok() && vecs[i].base == cs[j]
    requires vecs[i].pos == m0[cs[j]].misalign + m0[cs[j]].off && vecs[i].len <= m0[cs[j]].SpaceLen()
    requires Flat(bs) == all + Written(m0, vecs[..i])
    ensures cs[j] in m && m[cs[j]] == m0[cs[j]]
    ensures var c := m[cs[j]].(off := m[cs[j]].off + vecs[i].len);
            && c.Ok()
            && Spine(m[cs[j] := c], cs, bs[j := c.Data()])
            && LastData(bs[j := c.Data()], if vecs[i].len != 0 then j else k)
            && Flat(bs[j := c.Data()]) == all + Written(m0, vecs[..i + 1])
            && |Flat(bs[j := c.Data()])| == |Flat(bs)| + vecs[i].len
            && Untouched(m[cs[j] := c], m0, cs, bs[j := c.Data()], if vecs[i].len != 0 then j else k, j + 1)
  {
    hide Spine, Flat, Written, LastData;
    SpineAt(m, cs, bs, j);
    SpineNoDup(m, cs, bs);
    var c := m[cs[j]].(off := m[cs[j]].off + vecs[i].len);
    var w := VecBytes(m0, vecs[i]);
    assert c.Data() == bs[j] + w;
    SpineSet(m, cs, bs, j, c);
    CommitFlat(m0, bs, k, j, w, vecs, i, all);
  }

  lemma CommitFlat(m0: Memory, bs: seq<Block>, k: nat, j: nat, w: Block, vecs: seq<Vec>, i: nat, all: Block)
    requires k <= j < |bs| && i < |vecs| && w == VecBytes(m0, vecs[i])
    requires LastData(bs, k) && forall l :: j <= l < |bs| && k < l ==> bs[l] == []
    requires Flat(bs) == all + Written(m0, vecs[..i])
    ensures LastData(bs[j := bs[j] + w], if w != [] then j else k)
    ensures Flat(bs[j := bs[j] + w]) == all + Written(m0, vecs[..i + 1])
    ensures |Flat(bs[j := bs[j] + w])| == |Flat(bs)| + |w|
  {
    hide Flat, Written, LastData;
    WrittenOneMore(m0, vecs, i);
    FlatExtendAt(bs, j, w);
    ConcatAssoc(all, Written(m0, vecs[..i]), w);
    LastDataExtend(bs, k, j, w);
  }

  lemma WrittenOneMore(mem: Memory, vecs: seq<Vec>, i: nat)
    requires i < |vecs|
    ensures Written(mem, vecs[..i + 1]) == Written(mem, vecs[..i]) + VecBytes(mem, vecs[i])
  {
    assert vecs[..i + 1][..i] == vecs[..i];
  }

  lemma ConcatAssoc(a: Block, b: Block, c: Block)
    ensures (a + b) + c == a + (b + c)
  {
  }

  lemma LastDataExtend(bs: seq<Block>, k: nat, j: nat, w: Block)
    requires k <= j < |bs| && LastData(bs, k) && forall l :: j <= l < |bs| && k < l ==> bs[l] == []
    ensures LastData(bs[j := bs[j] + w], if w != [] then j else k)
  {
    assert w == [] ==> bs[j] + w == bs[j];
  }

  /** evbuffer_commit_space: append the bytes written where the vectors point, or refuse and change nothing. */
  method CommitSpace(buf: EvBuffer, vecs: seq<Vec>) returns (r: int)
    requires buf.Valid()
    modifies buf`mem, buf`blocks, buf`totalLen, buf`lastWithDatap, buf`lwd
    ensures buf.Linked()
    ensures r == if old(Acceptable(buf, vecs)) then 0 else -1
    ensures r == 0 ==> buf.Contents() == old(buf.Contents() + Written(buf.mem, vecs))
    ensures r == -1 ==> buf.mem == old(buf.mem) && buf.blocks == old(buf.blocks) && buf.lwd == old(buf.lwd)
    ensures !buf.LwdRight() <==> r == 0 && |vecs| == 1 && vecs[0].len > 0 && old(AtLast(buf, vecs[0]) && |buf.chains| > buf.lwd + 2)
    ensures r == 0 && |vecs| == 1 && old(AtLast(buf, vecs[0])) ==>
              old(buf.blocks) != [] && buf.blocks == ToppedUp(old(buf.blocks), old(VecBytes(buf.mem, vecs[0])))
  {
    hide Spine, Flat, LastData, Offered, OfferAt, Written, VecBytes, ToppedUp;
    if buf.freezeEnd {
      return -1;
    }
    SpineLen(buf.mem, buf.chains, buf.blocks);
    if vecs == [] {
      WrittenNone(buf.mem);
      assert buf.Contents() + [] == buf.Contents();
      return 0;
    }
    if buf.last != Null { SpineAt(buf.mem, buf.chains, buf.blocks, |buf.chains| - 1); }
    if |vecs| == 1 && buf.last == To(vecs[0].base)
       && vecs[0].pos == buf.mem[buf.last.addr].misalign + buf.mem[buf.last.addr].off {
      if vecs[0].len > buf.mem[buf.last.addr].SpaceLen() {
        return -1;
      }
      WrittenOne(buf.mem, vecs);
      CommitLast(buf, vecs[0]);
      return 0;
    }
    r := CommitFrom(buf, vecs);
  }

  lemma WrittenOne(mem: Memory, vecs: seq<Vec>)
    requires |vecs| == 1
    ensures Written(mem, vecs) == VecBytes(mem, vecs[0])
  {
    assert vecs[..0] == [];
    assert [] + VecBytes(mem, vecs[0]) == VecBytes(mem, vecs[0]);
  }

  /** Commit to the chains from the first one with room on. */
  method CommitFrom(buf: EvBuffer, vecs: seq<Vec>) returns (r: int)
    requires buf.Valid() && vecs != []
    modifies buf`mem, buf`blocks, buf`totalLen, buf`lastWithDatap, buf`lwd
    ensures buf.Valid()
    ensures r == if old(buf.chains != [] && Offered(buf.mem, buf.chains, FirstSpace(buf.mem, buf.chains, buf.lwd), vecs)) then 0 else -1
    ensures r == 0 ==> buf.Contents() == old(buf.Contents() + Written(buf.mem, vecs))
    ensures r == -1 ==> buf.mem == old(buf.mem) && buf.blocks == old(buf.blocks) && buf.lwd == old(buf.lwd)
  {
    hide Spine, Flat, LastData, Offered, OfferAt, Written;
    SpineLen(buf.mem, buf.chains, buf.blocks);
    ghost var k, f := buf.lwd, FirstSpace(buf.mem, buf.chains, buf.lwd);
    if k > 0 { SpineAt(buf.mem, buf.chains, buf.blocks, k - 1); }
    var firstchainp := buf.lastWithDatap;
    var chain := buf.Deref(firstchainp);
    if chain == Null {
      return -1;
    }
    SpineAt(buf.mem, buf.chains, buf.blocks, k);
    if buf.mem[chain.addr].SpaceLen() == 0 {
      firstchainp := NextOf(chain.addr);
      chain := buf.mem[chain.addr].next;
    }
    var ok := CheckVecs(buf, chain, vecs, f);
    if !ok {
      return -1;
    }
    AdjustChains(buf, firstchainp, vecs, f);
    r := 0;
  }

  /** Whatever evbuffer_reserve_space offered in several vectors can be committed, and last_with_datap stays right. */
  lemma OfferedIsAcceptable(buf: EvBuffer, vecs: seq<Vec>)
    requires buf.Valid() && !buf.freezeEnd && buf.chains != []
    requires Offered(buf.mem, buf.chains, FirstSpace(buf.mem, buf.chains, buf.lwd), vecs)
    ensures Acceptable(buf, vecs)
    ensures |vecs| == 1 && AtLast(buf, vecs[0]) ==> |buf.chains| <= buf.lwd + 2
  {
    if |vecs| == 1 {
      assert OfferAt(buf.mem, buf.chains, FirstSpace(buf.mem, buf.chains, buf.lwd), vecs, 0);
      SpineNoDup(buf.mem, buf.chains, buf.blocks);
    }
  }

  /** A single vector from evbuffer_reserve_space can be committed only if its chain is the last or the first with room. */
  lemma SingleVecAcceptable(buf: EvBuffer, a: Addr)
    requires buf.Valid() && RoomAt(buf, a, 0) && !buf.freezeEnd
    ensures Acceptable(buf, [SpaceVec(buf.mem, a)]) <==> EndOrFirst(buf, a)
  {
    var vecs := [SpaceVec(buf.mem, a)];
    var f := FirstSpace(buf.mem, buf.chains, buf.lwd);
    if f < |buf.chains| {
      assert Offered(buf.mem, buf.chains, f, vecs) <==> OfferAt(buf.mem, buf.chains, f, vecs, 0);
    }
  }

  /** Writing into the room of chain j changes no data, no room and no vector's bytes but those of chain j. */
  lemma WriteInRoom(m: Memory, cs: seq<Addr>, bs: seq<Block>, f: nat, vecs: seq<Vec>, i: nat, w: Block)
    requires Spine(m, cs, bs) && Offered(m, cs, f, vecs) && i < |vecs| && |w| <= vecs[i].len
    ensures cs[f + i] in m && vecs[i].base == cs[f + i] && vecs[i].pos + |w| <= |m[cs[f + i]].buffer|
    ensures var m' := m[cs[f + i] := m[cs[f + i]].Write(vecs[i].pos, w)];
            && Spine(m', cs, bs)
            && Offered(m', cs, f, vecs)
            && (forall a :: a in cs ==> Space(m', a) == Space(m, a))
            && VecBytes(m', Vec(vecs[i].base, vecs[i].pos, |w|)) == w
            && m'.Keys == m.Keys
  {
    assert OfferAt(m, cs, f, vecs, i);
    SpineAt(m, cs, bs, f + i);
    var c := m[cs[f + i]];
    var c' := c.Write(vecs[i].pos, w);
    var m' := m[cs[f + i] := c'];
    assert c'.Data() == c'.buffer[..vecs[i].pos][c.misalign..] == c.buffer[..vecs[i].pos][c.misalign..] == c.Data();
    SpineSet(m, cs, bs, f + i, c');
    assert bs[f + i := bs[f + i]] == bs;
    forall j | 0 <= j < |vecs| ensures OfferAt(m', cs, f, vecs, j) {
      assert OfferAt(m, cs, f, vecs, j);
    }
    SpineLen(m, cs, bs);
  }

  lemma {:induction false} WrittenSame(m: Memory, m': Memory, out: seq<Vec>, n: nat)
    requires n <= |out| && forall j :: 0 <= j < |out| ==> VecBytes(m', out[j]) == VecBytes(m, out[j])
    ensures Written(m', out[..n]) == Written(m, out[..n])
  {
    if n > 0 {
      WrittenSame(m, m', out, n - 1);
      WrittenOneMore(m, out, n - 1);
      WrittenOneMore(m', out, n - 1);
    } else {
      assert out[..n] == [];
    }
  }

  /** What the caller does between reserving and committing: spread data over the vectors and shorten them to it. */
  method WriteVecs(buf: EvBuffer, vecs: seq<Vec>, data: Block) returns (out: seq<Vec>)
    requires buf.Valid() && buf.chains != [] && |data| <= Lens(vecs)
    requires Offered(buf.mem, buf.chains, FirstSpace(buf.mem, buf.chains, buf.lwd), vecs)
    modifies buf`mem
    ensures buf.Valid() && Offered(buf.mem, buf.chains, FirstSpace(buf.mem, buf.chains, buf.lwd), out)
    ensures Written(buf.mem, out) == data
    ensures buf.mem.Keys == old(buf.mem.Keys)
  {
    hide Spine, Flat, LastData, Offered, OfferAt, Written, Lens, NoDup, Space;
    ghost var cs, bs, k := buf.chains, buf.blocks, buf.lwd;
    ghost var f := FirstSpace(buf.mem, cs, k);
    var m: Memory := buf.mem;
    SpineLen(m, cs, bs);
    SpineNoDup(m, cs, bs);
    OfferedLen(m, cs, f, vecs);
    WrittenNone(m);
    OfferedNone(m, cs, f);
    out := [];
    var done: nat := 0;
    LensNone();
    assert vecs[..0] == [] && data[..0] == [];
    for i := 0 to |vecs|
      invariant Spine(m, cs, bs) && Offered(m, cs, f, vecs) && Offered(m, cs, f, out) && |out| == i && f + |vecs| <= |cs|
      invariant f == FirstSpace(m, cs, k) && m.Keys == old(buf.mem.Keys)
      invariant done <= |data| && Written(m, out) == data[..done] && (done == |data| || done == Lens(vecs[..i]))
    {
      var n := if vecs[i].len < |data| - done then vecs[i].len else |data| - done;
      var w := data[done..done + n];
      var m' := WriteOne(m, cs, bs, k, f, vecs, out, w);
      m := m';
      out := out + [Vec(vecs[i].base, vecs[i].pos, n)];
      LensOneMore(vecs, i);
      assert data[..done] + w == data[..done + n];
      done := done + n;
    }
    assert vecs[..|vecs|] == vecs && data[..|data|] == data;
    buf.mem := m;
  }

  lemma LensOneMore(vecs: seq<Vec>, i: nat)
    requires i < |vecs|
    ensures Lens(vecs[..i + 1]) == Lens(vecs[..i]) + vecs[i].len
  {
    assert vecs[..i + 1][..i] == vecs[..i];
  }

  /** memcpy of w to where the next vector points. */
  method WriteOne(m: Memory, ghost cs: seq<Addr>, ghost bs: seq<Block>, ghost k: nat, ghost f: nat, vecs: seq<Vec>, out: seq<Vec>, w: Block)
    returns (m': Memory)
    requires Spine(m, cs, bs) && k < |cs| && Offered(m, cs, f, vecs) && Offered(m, cs, f, out) && |out| < |vecs|
    requires |w| <= vecs[|out|].len && f == FirstSpace(m, cs, k)
    ensures Spine(m', cs, bs) && Offered(m', cs, f, vecs)
    ensures var v := Vec(vecs[|out|].base, vecs[|out|].pos, |w|);
            Offered(m', cs, f, out + [v]) && Written(m', out + [v]) == Written(m, out) + w
    ensures f == FirstSpace(m', cs, k) && m'.Keys == m.Keys
  {
    hide Spine, Flat, LastData, Written, Lens, NoDup, Space;
    ghost var i := |out|;
    ghost var v := Vec(vecs[i].base, vecs[i].pos, |w|);
    WriteInRoom(m, cs, bs, f, vecs, i, w);
    m' := m[vecs[|out|].base := m[vecs[|out|].base].Write(vecs[|out|].pos, w)];
    assert OfferAt(m', cs, f, vecs, i);
    SpineNoDup(m, cs, bs);
    ShorterOffers(m, m', cs, f, out, vecs, v);
    WrittenSame(m, m', out, i);
    assert out[..i] == out;
    WrittenOneMore(m', out + [v], i);
    assert (out + [v])[..i] == out && (out + [v])[..i + 1] == out + [v];
  }

  lemma ShorterOffers(m: Memory, m': Memory, cs: seq<Addr>, f: nat, out: seq<Vec>, vecs: seq<Vec>, v: Vec)
    requires Offered(m, cs, f, out) && Offered(m', cs, f, vecs) && |out| < |vecs|
    requires v.base == vecs[|out|].base && v.pos == vecs[|out|].pos && v.len <= vecs[|out|].len
    requires cs[f + |out|] in m && cs[f + |out|] in m' && m' == m[cs[f + |out|] := m'[cs[f + |out|]]] && NoDup(cs)
    ensures Offered(m', cs, f, out + [v])
    ensures forall j :: 0 <= j < |out| ==> VecBytes(m', out[j]) == VecBytes(m, out[j])
  {
    var out' := out + [v];
    forall j | 0 <= j < |out'| ensures OfferAt(m', cs, f, out', j) {
      if j < |out| {
        assert OfferAt(m, cs, f, out, j);
        assert cs[f + j] != cs[f + |out|];
      } else {
        assert OfferAt(m', cs, f, vecs, j);
      }
    }
    forall j | 0 <= j < |out| ensures VecBytes(m', out[j]) == VecBytes(m, out[j]) {
      assert OfferAt(m, cs, f, out, j);
      assert cs[f + j] != cs[f + |out|];
    }
  }

  /** Reserving room for data in several vectors, writing it there and committing it appends data. */
  method AppendThroughVectors(buf: EvBuffer, data: Block, nVecs: int, a: Addr)
    requires buf.Valid() && a !in buf.mem && nVecs >= 2 && !buf.freezeEnd
    modifies buf`mem, buf`first, buf`last, buf`lastWithDatap, buf`totalLen, buf`chains, buf`blocks, buf`lwd
    ensures buf.Valid() && buf.Contents() == old(buf.Contents()) + data
  {
    hide Spine, Flat, LastData, Offered, OfferAt, Written, Lens, Space;
    var n, vecs := ReserveSpace(buf, |data|, nVecs, a);
    var out := WriteVecs(buf, vecs, data);
    OfferedIsAcceptable(buf, out);
    var r := CommitSpace(buf, out);
  }
}
