/** Moving whole chains between evbuffers: evbuffer_add_buffer, evbuffer_prepend_buffer, evbuffer_remove_buffer. */
module EvbufferMove {
  import opened Bytes
  import opened ChainList
  import opened Evbuffer

  /** Neither buffer owns a chain of the other. */
  ghost predicate Apart(a: EvBuffer, b: EvBuffer)
    reads a, b
  {
    a != b ==> a.mem.Keys !! b.mem.Keys
  }

  /** COPY_CHAIN: dst, which owns nothing, takes over the list of src. */
  method CopyChain(dst: EvBuffer, src: EvBuffer)
    requires dst != src && src.Valid() && dst.mem == map[]
    modifies dst`mem, dst`first, dst`last, dst`lastWithDatap, dst`totalLen, dst`chains, dst`blocks, dst`lwd
    ensures dst.Valid() && dst.mem == src.mem && dst.chains == src.chains && dst.blocks == src.blocks && dst.lwd == src.lwd
  {
    dst.mem := src.mem;
    dst.first := src.first;
    dst.lastWithDatap := src.lastWithDatap;
    dst.last := src.last;
    dst.totalLen := src.totalLen;
    dst.chains, dst.blocks, dst.lwd := src.chains, src.blocks, src.lwd;
  }

  /** The two lists linked by l, the last chain of the first, as one. */
  lemma JoinLists(m1: Memory, cs1: seq<Addr>, bs1: seq<Block>, m2: Memory, cs2: seq<Addr>, bs2: seq<Block>, k: nat, m: Memory)
    requires Spine(m1, cs1, bs1) && Spine(m2, cs2, bs2) && m1.Keys !! m2.Keys
    requires Flat(bs1) != [] && Flat(bs2) != [] && k < |cs2| && LastData(bs2, k)
    requires cs1 != [] ==> var l := cs1[|cs1| - 1]; l in m1 && m == m1[l := m1[l].(next := PtrAt(cs2, 0))] + m2
    ensures Spine(m, cs1 + cs2, bs1 + bs2) && m.Keys == m1.Keys + m2.Keys
    ensures |cs1| == |bs1| && |cs2| == |bs2| && cs1 != []
    ensures Flat(bs1 + bs2) == Flat(bs1) + Flat(bs2)
    ensures LastData(bs1 + bs2, |cs1| + k)
  {
    NonEmpty(bs1);
    SpineLen(m1, cs1, bs1);
    SpineLen(m2, cs2, bs2);
    LastDataHas(bs2, k);
    LastDataAfter(bs1, bs2, k);
    SpineJoin(m1, cs1, bs1, m2, cs2, bs2, m);
    FlatConcat(bs1, bs2);
  }

  /** APPEND_CHAIN: link the list of src after the list of dst. */
  method AppendList(dst: EvBuffer, src: EvBuffer)
    requires dst != src && Apart(dst, src) && src.Valid() && dst.Valid()
    requires dst.Contents() != [] && src.Contents() != []
    modifies dst`mem, dst`last, dst`lastWithDatap, dst`totalLen, dst`chains, dst`blocks, dst`lwd
    ensures dst.Valid() && dst.mem.Keys == old(dst.mem.Keys) + src.mem.Keys
    ensures dst.chains == old(dst.chains) + src.chains && dst.blocks == old(dst.blocks) + src.blocks
    ensures dst.lwd == |old(dst.chains)| + src.lwd
    ensures dst.Contents() == old(dst.Contents()) + src.Contents()
  {
    hide Spine, Flat, LastData;
    NonEmpty(dst.blocks);
    NonEmpty(src.blocks);
    SpineLen(dst.mem, dst.chains, dst.blocks);
    SpineLen(src.mem, src.chains, src.blocks);
    var l := dst.last.addr;
    SpineAt(dst.mem, dst.chains, dst.blocks, |dst.chains| - 1);
    var m := dst.mem[l := dst.mem[l].(next := src.first)] + src.mem;
    JoinLists(dst.mem, dst.chains, dst.blocks, src.mem, src.chains, src.blocks, src.lwd, m);
    dst.lwd := |dst.chains| + src.lwd;
    dst.chains, dst.blocks := dst.chains + src.chains, dst.blocks + src.blocks;
    dst.mem := m;
    if src.lastWithDatap == FirstSlot {
      dst.lastWithDatap := NextOf(l);
    } else {
      dst.lastWithDatap := src.lastWithDatap;
    }
    dst.last := src.last;
    dst.totalLen := dst.totalLen + src.totalLen;
  }

  /** PREPEND_CHAIN: link the list of src in front of the list of dst. */
  method PrependList(dst: EvBuffer, src: EvBuffer)
    requires dst != src && Apart(dst, src) && src.Valid() && dst.Valid()
    requires dst.Contents() != [] && src.Contents() != []
    modifies dst`mem, dst`first, dst`lastWithDatap, dst`totalLen, dst`chains, dst`blocks, dst`lwd
    ensures dst.Valid() && dst.mem.Keys == old(dst.mem.Keys) + src.mem.Keys
    ensures dst.chains == src.chains + old(dst.chains) && dst.blocks == src.blocks + old(dst.blocks)
    ensures dst.lwd == |src.chains| + old(dst.lwd)
    ensures dst.Contents() == src.Contents() + old(dst.Contents())
  {
    hide Spine, Flat, LastData;
    NonEmpty(dst.blocks);
    NonEmpty(src.blocks);
    SpineLen(dst.mem, dst.chains, dst.blocks);
    SpineLen(src.mem, src.chains, src.blocks);
    var l := src.last.addr;
    SpineAt(src.mem, src.chains, src.blocks, |src.chains| - 1);
    var m := src.mem[l := src.mem[l].(next := dst.first)] + dst.mem;
    JoinLists(src.mem, src.chains, src.blocks, dst.mem, dst.chains, dst.blocks, dst.lwd, m);
    dst.lwd := |src.chains| + dst.lwd;
    dst.chains, dst.blocks := src.chains + dst.chains, src.blocks + dst.blocks;
    dst.mem := m;
    dst.first := src.first;
    dst.totalLen := dst.totalLen + src.totalLen;
    // *last_with_datap is a chain, since dst has data.
    if dst.lastWithDatap == FirstSlot {
      dst.lastWithDatap := NextOf(l);
    }
  }

  /** The list of buf now belongs to another buffer: ZERO_CHAIN, as RESTORE_PINNED does without pinned chains. */
  method GiveUp(buf: EvBuffer)
    modifies buf`mem, buf`first, buf`last, buf`lastWithDatap, buf`totalLen, buf`chains, buf`blocks, buf`lwd
    ensures buf.Valid() && buf.chains == [] && buf.blocks == [] && buf.mem == map[] && buf.Contents() == []
  {
    buf.mem := map[];
    buf.ZeroChain();
  }

  /** evbuffer_add_buffer: move all of inbuf to the end of outbuf. */
  method AddBuffer(outbuf: EvBuffer, inbuf: EvBuffer) returns (r: int)
    requires outbuf.Valid() && inbuf.Valid() && Apart(outbuf, inbuf)
    modifies outbuf, inbuf
    ensures outbuf.Valid() && inbuf.Valid() && Apart(outbuf, inbuf)
    ensures outbuf.freezeStart == old(outbuf.freezeStart) && outbuf.freezeEnd == old(outbuf.freezeEnd)
    ensures inbuf.freezeStart == old(inbuf.freezeStart) && inbuf.freezeEnd == old(inbuf.freezeEnd)
    ensures outbuf.mem.Keys + inbuf.mem.Keys <= old(outbuf.mem.Keys + inbuf.mem.Keys)
    ensures r == if old(inbuf.Contents()) != [] && outbuf != inbuf && (outbuf.freezeEnd || inbuf.freezeStart) then -1 else 0
    ensures r == -1 || outbuf == inbuf ==> outbuf.Contents() == old(outbuf.Contents()) && inbuf.Contents() == old(inbuf.Contents())
    ensures r == 0 && outbuf != inbuf ==> outbuf.Contents() == old(outbuf.Contents() + inbuf.Contents()) && inbuf.Contents() == []
    ensures old(outbuf.NoSpareTail() && inbuf.NoSpareTail()) ==> outbuf.NoSpareTail() && inbuf.NoSpareTail()
    ensures old(outbuf.Dense() && inbuf.Dense()) ==> outbuf.Dense() && inbuf.Dense()
  {
    hide Spine, Flat, LastData;
    if inbuf.totalLen == 0 || outbuf == inbuf {
      return 0;
    }
    if outbuf.freezeEnd || inbuf.freezeStart {
      return -1;
    }
    SpineLen(outbuf.mem, outbuf.chains, outbuf.blocks);
    SpineLen(inbuf.mem, inbuf.chains, inbuf.blocks);
    if outbuf.totalLen == 0 {
      outbuf.DrainAll();
      CopyChain(outbuf, inbuf);
    } else {
      DenseWithData(outbuf);
      DenseWithData(inbuf);
      AppendList(outbuf, inbuf);
    }
    GiveUp(inbuf);
    r := 0;
  }

  /** evbuffer_prepend_buffer: move all of inbuf to the front of outbuf. */
  method PrependBuffer(outbuf: EvBuffer, inbuf: EvBuffer) returns (r: int)
    requires outbuf.Valid() && inbuf.Valid() && Apart(outbuf, inbuf)
    modifies outbuf, inbuf
    ensures outbuf.Valid() && inbuf.Valid() && Apart(outbuf, inbuf)
    ensures outbuf.freezeStart == old(outbuf.freezeStart) && outbuf.freezeEnd == old(outbuf.freezeEnd)
    ensures inbuf.freezeStart == old(inbuf.freezeStart) && inbuf.freezeEnd == old(inbuf.freezeEnd)
    ensures outbuf.mem.Keys + inbuf.mem.Keys <= old(outbuf.mem.Keys + inbuf.mem.Keys)
    ensures r == if old(inbuf.Contents()) != [] && outbuf != inbuf && (outbuf.freezeStart || inbuf.freezeStart) then -1 else 0
    ensures r == -1 || outbuf == inbuf ==> outbuf.Contents() == old(outbuf.Contents()) && inbuf.Contents() == old(inbuf.Contents())
    ensures r == 0 && outbuf != inbuf ==> outbuf.Contents() == old(inbuf.Contents() + outbuf.Contents()) && inbuf.Contents() == []
    ensures old(outbuf.NoSpareTail() && inbuf.NoSpareTail()) ==> outbuf.NoSpareTail() && inbuf.NoSpareTail()
    ensures old(outbuf.Dense() && inbuf.Dense()) ==> outbuf.Dense() && inbuf.Dense()
  {
    hide Spine, Flat, LastData;
    if inbuf.totalLen == 0 || outbuf == inbuf {
      return 0;
    }
    if outbuf.freezeStart || inbuf.freezeStart {
      return -1;
    }
    SpineLen(outbuf.mem, outbuf.chains, outbuf.blocks);
    SpineLen(inbuf.mem, inbuf.chains, inbuf.blocks);
    if outbuf.totalLen == 0 {
      outbuf.DrainAll();
      CopyChain(outbuf, inbuf);
    } else {
      DenseWithData(outbuf);
      DenseWithData(inbuf);
      PrependList(outbuf, inbuf);
    }
    GiveUp(inbuf);
    r := 0;
  }

  /** With bytes in the buffer, density means no empty chain at all. */
  lemma DenseWithData(buf: EvBuffer)
    requires buf.Linked() && buf.Contents() != []
    ensures buf.Dense() ==> forall i :: 0 <= i < |buf.blocks| ==> buf.blocks[i] != []
  {
    if |buf.blocks| == 1 {
      FlatSingle(buf.blocks[0]);
      assert [buf.blocks[0]] == buf.blocks;
    }
  }

  /** moved holds the first i chains. */
  ghost predicate Collected(moved: Memory, mem: Memory, cs: seq<Addr>, i: nat)
  {
    && i <= |cs|
    && (forall a :: a in moved <==> a in cs[..i])
    && (forall a :: a in moved ==> a in mem && moved[a] == mem[a])
  }

  lemma CollectedNone(mem: Memory, cs: seq<Addr>)
    ensures Collected(map[], mem, cs, 0)
  {
  }

  lemma CollectOne(moved: Memory, mem: Memory, cs: seq<Addr>, i: nat)
    requires Collected(moved, mem, cs, i) && i < |cs| && cs[i] in mem
    ensures Collected(moved[cs[i] := mem[cs[i]]], mem, cs, i + 1)
  {
    assert cs[..i + 1] == cs[..i] + [cs[i]];
  }

  // ---- evbuffer_remove_buffer

  /** How many blocks from the front go whole into n bytes. */
  ghost function WholeAt(bs: seq<Block>, n: nat): (i: nat)
    ensures i <= |bs| && |Flat(bs[..i])| <= n
  {
    if bs == [] || |bs[0]| > n then assert bs[..0] == []; 0
    else
      var i := 1 + WholeAt(bs[1..], n - |bs[0]|);
      assert bs[..i][1..] == bs[1..][..i - 1];
      i
  }

  /** Find the chains that fit whole into datlen bytes: the first i chains, collected in moved. */
  method WholeChains(src: EvBuffer, datlen: nat)
    returns (chain: Ptr, previous: Ptr, left: nat, nread: nat, moved: Memory, ghost i: nat)
    requires src.Valid() && 0 < datlen < src.totalLen
    modifies src`lastWithDatap
    ensures |src.chains| == |src.blocks| && i == WholeAt(src.blocks, datlen) && i <= src.lwd < |src.chains|
    ensures chain == To(src.chains[i]) && previous == PtrAt(src.chains, if i == 0 then 0 else i - 1)
    ensures nread + left == datlen && nread == |Flat(src.blocks[..i])| && left < |src.blocks[i]|
    ensures Collected(moved, src.mem, src.chains, i)
    ensures src.lastWithDatap == if i < src.lwd then NextOf(src.chains[src.lwd - 1]) else FirstSlot
  {
    hide Spine, Flat, Collected, WholeAt;
    ghost var cs, bs, k := src.chains, src.blocks, src.lwd;
    NonEmpty(bs);
    SpineLen(src.mem, cs, bs);
    SpineNoDup(src.mem, cs, bs);
    SpineAt(src.mem, cs, bs, 0);
    if k > 0 { SpineAt(src.mem, cs, bs, k - 1); }
    chain, previous, left, nread, moved, i := src.first, src.first, datlen, 0, map[], 0;
    NonEmpty(bs[..0]);
    assert bs[0..] == bs;
    CollectedNone(src.mem, cs);
    while src.mem[chain.addr].off <= left
      invariant i <= k < |cs| && chain == To(cs[i]) && Link(src.mem, cs, bs, i)
      invariant previous == PtrAt(cs, if i == 0 then 0 else i - 1)
      invariant nread + left == datlen && nread == |Flat(bs[..i])|
      invariant WholeAt(bs, datlen) == i + WholeAt(bs[i..], left)
      invariant Collected(moved, src.mem, cs, i)
      invariant src.lastWithDatap == if i < k then NextOf(cs[k - 1]) else FirstSlot
      decreases k - i
    {
      WalkStep(bs, i, k, datlen, left);
      // The assertion of the original: this is not the last chain with data.
      assert src.Deref(src.lastWithDatap) != chain;
      var c := src.mem[chain.addr];
      nread := nread + c.off;
      left := left - c.off;
      previous := chain;
      if src.lastWithDatap == NextOf(chain.addr) {
        src.lastWithDatap := FirstSlot;
      }
      CollectOne(moved, src.mem, cs, i);
      moved := moved[chain.addr := c];
      chain := c.next;
      i := i + 1;
      SpineAt(src.mem, cs, bs, i);
    }
    WholeStop(bs, i, left);
  }

  /** The last chain with data never fits whole when there are more than datlen bytes. */
  lemma WalkStep(bs: seq<Block>, i: nat, k: nat, datlen: nat, left: nat)
    requires i <= k < |bs| && LastData(bs, k)
    requires |Flat(bs[..i])| + left == datlen < |Flat(bs)| && |bs[i]| <= left
    ensures i < k && Flat(bs[..i + 1]) == Flat(bs[..i]) + bs[i]
    ensures WholeAt(bs[i..], left) == 1 + WholeAt(bs[i + 1..], left - |bs[i]|)
  {
    TakeOneMore(bs, i);
    assert bs[i..][1..] == bs[i + 1..];
    if i == k {
      FlatLastData(bs, k);
      FlatSplit(bs, k);
      assert false;
    }
  }

  lemma WholeStop(bs: seq<Block>, i: nat, left: nat)
    requires i < |bs| && |bs[i]| > left
    ensures WholeAt(bs[i..], left) == 0
  {
  }

  /** The chain at l linked to p, and the chains moved. */
  function After(m: Memory, l: Addr, p: Ptr, moved: Memory): Memory
    requires l in m
  {
    m[l := m[l].(next := p)] + moved
  }

  lemma AfterIs(m: Memory, cs1: seq<Addr>, bs1: seq<Block>, moved: Memory, cs: seq<Addr>, bs: seq<Block>)
    requires Spine(m, cs1, bs1) && Spine(moved, cs, bs) && cs1 != [] && cs != [] && m.Keys !! moved.Keys
    ensures cs1[|cs1| - 1] in m && cs[|cs| - 1] in moved
    ensures var n := After(m, cs1[|cs1| - 1], PtrAt(cs, 0), moved);
            && Spine(n, cs1 + cs, bs1 + bs) && n.Keys == m.Keys + moved.Keys
            && cs[|cs| - 1] in n && n[cs[|cs| - 1]] == moved[cs[|cs| - 1]]
  {
    SpineAt(m, cs1, bs1, |cs1| - 1);
    SpineAt(moved, cs, bs, |cs| - 1);
    SpineJoin(m, cs1, bs1, moved, cs, bs, After(m, cs1[|cs1| - 1], PtrAt(cs, 0), moved));
  }

  /** Free the trailing empty chains of dst and link the chains moved, a list from p to l, in their place. */
  method LinkMoved(dst: EvBuffer, p: Ptr, l: Ptr, moved: Memory, nread: nat, ghost cs: seq<Addr>, ghost bs: seq<Block>)
    requires dst.Valid() && dst.mem.Keys !! moved.Keys
    requires Spine(moved, cs, bs) && |cs| == |bs| && cs != [] && p == PtrAt(cs, 0) && l == PtrAt(cs, |cs| - 1)
    requires nread == |Flat(bs)|
    modifies dst`mem, dst`first, dst`last, dst`totalLen, dst`chains, dst`blocks
    ensures dst.Linked()
    ensures dst.mem.Keys <= old(dst.mem.Keys) + moved.Keys
    ensures old(dst.VictimAt() <= |dst.chains| == |dst.blocks|)
    ensures |dst.chains| == |dst.blocks| && dst.blocks == old(dst.blocks[..dst.VictimAt()]) + bs
    ensures dst.Contents() == old(dst.Contents()) + Flat(bs)
    ensures dst.chains != [] && dst.last == l && l.addr in moved && l.addr in dst.mem && dst.mem[l.addr] == moved[l.addr]
  {
    hide Spine, Flat, PtrAt, SlotAt, LastData, After;
    ghost var v, cs1, bs1 := dst.VictimAt(), dst.chains, dst.blocks;
    SpineLen(dst.mem, cs1, bs1);
    JoinedEnds(cs1, v, cs, dst.lwd);
    SpineAt(moved, cs, bs, |cs| - 1);
    var chp := dst.FreeTrailingEmptyChains();
    ReceiveFlat(bs1, dst.lwd, v, bs);
    if dst.first == Null {
      assert cs1[..v] + cs == cs && bs1[..v] + bs == bs;
      dst.first := p;
      dst.mem := moved;
    } else {
      SpineAt(dst.mem, cs1[..v], bs1[..v], v - 1);
      AfterIs(dst.mem, cs1[..v], bs1[..v], moved, cs, bs);
      dst.mem := After(dst.mem, chp.chain, p, moved);
    }
    dst.last := l;
    dst.totalLen := dst.totalLen + nread;
    dst.chains, dst.blocks := cs1[..v] + cs, bs1[..v] + bs;
  }

  lemma JoinedEnds(cs1: seq<Addr>, v: nat, cs: seq<Addr>, k: nat)
    requires k <= v <= |cs1| && cs != []
    ensures var js := cs1[..v] + cs;
            && PtrAt(js, 0) == (if v == 0 then PtrAt(cs, 0) else PtrAt(cs1[..v], 0))
            && PtrAt(js, |js| - 1) == PtrAt(cs, |cs| - 1) == To(cs[|cs| - 1])
            && SlotAt(js, k) == SlotAt(cs1, k) && k < |js|
    ensures SlotAt(cs1, v) == (if v == 0 then FirstSlot else NextOf(cs1[v - 1]))
    ensures PtrAt(cs1[..v], 0) == Null <==> v == 0
  {
  }

  /** Replace the trailing empty chains of dst by the chains moved, a list from p to l, and move last_with_datap on. */
  method Receive(dst: EvBuffer, p: Ptr, l: Ptr, moved: Memory, nread: nat, ghost cs: seq<Addr>, ghost bs: seq<Block>)
    requires dst.Valid() && dst.mem.Keys !! moved.Keys
    requires Spine(moved, cs, bs) && |cs| == |bs| && cs != [] && p == PtrAt(cs, 0) && l == PtrAt(cs, |cs| - 1)
    requires nread == |Flat(bs)|
    modifies dst`mem, dst`first, dst`last, dst`lastWithDatap, dst`totalLen, dst`chains, dst`blocks, dst`lwd
    ensures dst.Linked() && |dst.chains| == |dst.blocks| && dst.chains != []
    ensures old(dst.VictimAt() <= |dst.blocks|)
    ensures dst.blocks == old(dst.blocks[..dst.VictimAt()]) + bs && dst.lwd == RunEnd(dst.blocks, old(dst.lwd))
    ensures dst.last == l && l.addr in moved && l.addr in dst.mem && dst.mem[l.addr] == moved[l.addr]
    ensures dst.mem.Keys <= old(dst.mem.Keys) + moved.Keys
    ensures dst.Contents() == old(dst.Contents()) + Flat(bs)
  {
    hide Spine, Flat, RunEnd, LastData;
    SpineLen(dst.mem, dst.chains, dst.blocks);
    LinkMoved(dst, p, l, moved, nread, cs, bs);
    dst.AdvanceLastWithData();
  }

  /** The list that evbuffer_remove_buffer builds. */
  lemma ReceiveFlat(bs1: seq<Block>, k: nat, v: nat, bs: seq<Block>)
    requires LastData(bs1, k) && k <= |bs1| && v == if k < |bs1| && bs1[k] != [] then k + 1 else k
    ensures Flat(bs1[..v] + bs) == Flat(bs1) + Flat(bs)
  {
    FlatConcat(bs1[..v], bs);
    FlatSplit(bs1, v);
    FlatEmpty(bs1[v..]);
    assert Flat(bs1[..v]) + [] == Flat(bs1[..v]);
  }

  /** Take the first i chains away from src. */
  method Detach(src: EvBuffer, previous: Ptr, moved: Memory, ghost i: nat) returns (m: Memory)
    requires Spine(src.mem, src.chains, src.blocks) && |src.chains| == |src.blocks| && 0 < i < |src.chains|
    requires Collected(moved, src.mem, src.chains, i) && previous == To(src.chains[i - 1])
    modifies src`mem
    ensures Spine(m, src.chains[..i], src.blocks[..i]) && Spine(src.mem, src.chains[i..], src.blocks[i..])
    ensures m.Keys !! src.mem.Keys && m.Keys <= old(src.mem.Keys) && src.mem.Keys <= old(src.mem.Keys)
    ensures previous.addr in m && previous.addr in old(src.mem) && m[previous.addr] == old(src.mem)[previous.addr].(next := Null)
  {
    hide Spine;
    SpineAt(src.mem, src.chains, src.blocks, i - 1);
    assert src.chains[i - 1] in src.chains[..i];
    m := moved[previous.addr := moved[previous.addr].(next := Null)];
    SpineTake(src.mem, src.chains, src.blocks, i, m);
    SpineSkip(src.mem, src.chains, src.blocks, i, src.mem - moved.Keys);
    src.mem := src.mem - moved.Keys;
  }

  /** What is left of src when its first i chains, with data in them, are gone. */
  lemma Cut(cs: seq<Addr>, bs: seq<Block>, k: nat, i: nat)
    requires |cs| == |bs| && i <= k < |cs| && LastData(bs, k)
    ensures |cs[i..]| == |bs[i..]| && LastData(bs[i..], k - i) && PtrAt(cs[i..], |cs[i..]| - 1) == PtrAt(cs, |cs| - 1)
    ensures SlotAt(cs[i..], k - i) == (if i < k then NextOf(cs[k - 1]) else FirstSlot) && PtrAt(cs[i..], 0) == To(cs[i])
    ensures Flat(bs) == Flat(bs[..i]) + Flat(bs[i..])
  {
    FlatSplit(bs, i);
  }

  /** Move the first i chains, collected in moved and ending with previous, to dst. */
  method MoveWhole(src: EvBuffer, dst: EvBuffer, chain: Ptr, previous: Ptr, nread: nat, moved: Memory, ghost i: nat)
    requires src != dst && Apart(src, dst) && dst.Valid()
    requires Spine(src.mem, src.chains, src.blocks) && |src.chains| == |src.blocks| && 0 < i <= src.lwd < |src.chains|
    requires src.LwdRight() && src.last == PtrAt(src.chains, |src.chains| - 1) && src.totalLen == |Flat(src.blocks)|
    requires src.first == PtrAt(src.chains, 0) && chain == To(src.chains[i]) && previous == To(src.chains[i - 1])
    requires nread == |Flat(src.blocks[..i])| && Collected(moved, src.mem, src.chains, i)
    requires src.lastWithDatap == if i < src.lwd then NextOf(src.chains[src.lwd - 1]) else FirstSlot
    modifies src`mem, src`first, src`totalLen, src`chains, src`blocks, src`lwd
    modifies dst`mem, dst`first, dst`last, dst`lastWithDatap, dst`totalLen, dst`chains, dst`blocks, dst`lwd
    ensures src.Valid() && src.chains == old(src.chains)[i..] && |old(src.blocks)| >= i && src.blocks == old(src.blocks)[i..]
    ensures dst.Linked() && |dst.chains| == |dst.blocks| && dst.chains != [] && old(dst.VictimAt() <= |dst.blocks|)
    ensures dst.blocks == old(dst.blocks[..dst.VictimAt()]) + old(src.blocks)[..i]
    ensures dst.lwd == RunEnd(dst.blocks, old(dst.lwd))
    ensures dst.last == previous && previous.addr in old(src.mem) && previous.addr in dst.mem
    ensures dst.mem[previous.addr] == old(src.mem)[previous.addr].(next := Null)
    ensures Apart(src, dst) && src.mem.Keys + dst.mem.Keys <= old(src.mem.Keys + dst.mem.Keys)
    ensures dst.Contents() == old(dst.Contents()) + Flat(old(src.blocks)[..i])
  {
    hide Spine, Flat, LastData, RunEnd, PtrAt, SlotAt, Collected;
    ghost var cs, bs, k := src.chains, src.blocks, src.lwd;
    Cut(cs, bs, k, i);
    Ends(cs, i);
    var p := src.first;
    var m := Detach(src, previous, moved, i);
    src.first := chain;
    src.totalLen := src.totalLen - nread;
    src.chains, src.blocks, src.lwd := cs[i..], bs[i..], k - i;
    Receive(dst, p, previous, m, nread, cs[..i], bs[..i]);
  }

  lemma Ends(cs: seq<Addr>, i: nat)
    requires 0 < i < |cs|
    ensures PtrAt(cs[..i], 0) == PtrAt(cs, 0) && PtrAt(cs[..i], |cs[..i]| - 1) == To(cs[i - 1])
    ensures |cs[..i]| == i && cs[..i] != []
  {
  }

  /** Take the first n bytes of chain j, which only empty chains precede. */
  method TakeFrom(src: EvBuffer, chain: Ptr, n: nat, ghost j: nat)
    requires src.Linked() && j < |src.chains| && chain == To(src.chains[j]) && j < |src.blocks| && n < |src.blocks[j]|
    requires forall i :: 0 <= i < j ==> src.blocks[i] == []
    modifies src`mem, src`blocks, src`totalLen
    ensures src.Linked() && n <= |old(src.Contents())| && src.Contents() == old(src.Contents())[n..]
    ensures src.LwdRight() <==> old(src.LwdRight())
    ensures old(src.Dense()) ==> src.Dense()
    ensures src.mem.Keys == old(src.mem.Keys)
  {
    hide Spine, Flat, LastData, DenseList;
    SpineLen(src.mem, src.chains, src.blocks);
    SpineAt(src.mem, src.chains, src.blocks, j);
    ConsumeLast(src.blocks, j, n, src.lwd);
    var c := src.mem[chain.addr].Consume(n);
    SpineSet(src.mem, src.chains, src.blocks, j, c);
    ConsumeAt(src.blocks, j, n);
    src.mem := src.mem[chain.addr := c];
    src.totalLen := src.totalLen - n;
    src.blocks := src.blocks[j := src.blocks[j][n..]];
  }

  lemma ConsumeAt(bs: seq<Block>, j: nat, n: nat)
    requires j < |bs| && n < |bs[j]| && forall i :: 0 <= i < j ==> bs[i] == []
    ensures n <= |Flat(bs)| && Flat(bs[j := bs[j][n..]]) == Flat(bs)[n..]
  {
    hide Flat;
    var after := bs[j := bs[j][n..]];
    FlatAt(bs, j);
    FlatAt(after, j);
    FlatEmpty(bs[..j]);
    assert after[..j] == bs[..j] && after[j + 1..] == bs[j + 1..];
    assert Flat(bs) == bs[j] + Flat(bs[j + 1..]);
    assert Flat(after) == bs[j][n..] + Flat(bs[j + 1..]);
  }

  /** A block that keeps some bytes counts as before. */
  lemma ConsumeLast(bs: seq<Block>, j: nat, n: nat, k: nat)
    requires j < |bs| && n < |bs[j]|
    ensures LastData(bs[j := bs[j][n..]], k) <==> LastData(bs, k)
    ensures DenseList(bs) ==> DenseList(bs[j := bs[j][n..]])
  {
    var after := bs[j := bs[j][n..]];
    assert forall i :: 0 <= i < |bs| ==> (after[i] == [] <==> bs[i] == []);
  }

  /** Some of the bytes of src are to go to dst, and not all. */
  ghost predicate Partial(src: EvBuffer, dst: EvBuffer, n: nat)
    reads src, dst
  {
    src != dst && 0 < n < |src.Contents()| && !dst.freezeEnd && !src.freezeStart
  }

  /** All bytes are in one chain that is not the first. */
  ghost predicate Behind(src: EvBuffer)
    reads src
  {
    0 < src.lwd <= |src.blocks| && Flat(src.blocks[..src.lwd]) == []
  }

  /** The list of dst once the chains that fit whole into n bytes are moved to it. */
  ghost function Reached(src: EvBuffer, dst: EvBuffer, n: nat): seq<Block>
    requires dst.Linked()
    reads src, dst
  {
    dst.blocks[..dst.VictimAt()] + src.blocks[..WholeAt(src.blocks, n)]
  }

  /** The list that src has then. */
  ghost function Kept(src: EvBuffer, n: nat): seq<Block>
    reads src
  {
    var i := WholeAt(src.blocks, n);
    if Flat(src.blocks[..i]) == [] then src.blocks else src.blocks[i..]
  }

  /** How much is then left to be copied. */
  ghost function Remains(src: EvBuffer, n: nat): nat
    reads src
  {
    n - |Flat(src.blocks[..WholeAt(src.blocks, n)])|
  }

  /** The chain after which it is then to be copied. */
  ghost function LastMoved(src: EvBuffer, n: nat): Chain
    requires src.Linked() && Flat(src.blocks[..WholeAt(src.blocks, n)]) != []
    reads src
  {
    var i := WholeAt(src.blocks, n);
    NonEmpty(src.blocks[..i]);
    SpineAt(src.mem, src.chains, src.blocks, i - 1);
    src.mem[src.chains[i - 1]]
  }

  /** Copying it fails the assertion of evbuffer_add. */
  ghost predicate RemoveAborts(src: EvBuffer, dst: EvBuffer, n: nat)
    requires src.Linked() && dst.Linked()
    reads src, dst
  {
    if Flat(src.blocks[..WholeAt(src.blocks, n)]) == [] then
      dst.chains != [] && !dst.FitsInLast(Remains(src, n)) && dst.Clogged()
    else
      var bs, c := Reached(src, dst, n), LastMoved(src, n);
      !c.Takes(Remains(src, n)) && CloggedAt(bs, RunEnd(bs, dst.lwd), c.Room())
  }

  /** last_with_datap of dst is right in the end. */
  ghost predicate DstRight(src: EvBuffer, dst: EvBuffer, n: nat)
    requires src.Linked() && dst.Linked()
    reads src, dst
  {
    if Flat(src.blocks[..WholeAt(src.blocks, n)]) == [] then dst.Lands(Remains(src, n))
    else
      var bs, c := Reached(src, dst, n), LastMoved(src, n);
      var k := RunEnd(bs, dst.lwd);
      if Remains(src, n) == 0 then LastData(bs, k) else LandsAt(bs, k, c.Takes(Remains(src, n)), c.Room())
  }

  /** All but the last copy: whole chains go to dst, and chain, the j-th that src now has, is to give left bytes more. */
  method SendWhole(src: EvBuffer, dst: EvBuffer, datlen: nat) returns (chain: Ptr, left: nat, nread: nat, ghost j: nat)
    requires src.Valid() && dst.Valid() && Partial(src, dst, datlen) && Apart(src, dst)
    modifies src`mem, src`first, src`lastWithDatap, src`totalLen, src`chains, src`blocks, src`lwd
    modifies dst`mem, dst`first, dst`last, dst`lastWithDatap, dst`totalLen, dst`chains, dst`blocks, dst`lwd
    ensures src.Linked() && dst.Linked() && Apart(src, dst) && src.mem.Keys + dst.mem.Keys <= old(src.mem.Keys + dst.mem.Keys)
    ensures j < |src.chains| == |src.blocks| && chain == To(src.chains[j]) && left < |src.blocks[j]|
    ensures forall i :: 0 <= i < j ==> src.blocks[i] == []
    ensures nread + left == datlen && left == old(Remains(src, datlen))
    ensures src.LwdRight() <==> !old(Behind(src))
    ensures src.blocks == old(Kept(src, datlen)) && dst.blocks == if nread > 0 then old(Reached(src, dst, datlen)) else old(dst.blocks)
    ensures old(src.Contents()) == old(src.Contents())[..nread] + src.Contents()
    ensures dst.Contents() == old(dst.Contents()) + old(src.Contents())[..nread]
    ensures old(RemoveAborts(src, dst, datlen)) <==> dst.chains != [] && !dst.FitsInLast(left) && dst.Clogged()
    ensures old(DstRight(src, dst, datlen)) <==> if left == 0 then dst.LwdRight() else dst.Lands(left)
  {
    hide Spine, Flat, LastData, SlotAt, PtrAt, RunEnd, WholeAt, CloggedAt, LandsAt, Chain.Takes, Chain.Room;
    ghost var bs, k := src.blocks, src.lwd;
    ghost var before := Flat(dst.blocks);
    SpineLen(src.mem, src.chains, bs);
    var previous, moved;
    ghost var i;
    chain, previous, left, nread, moved, i := WholeChains(src, datlen);
    Front(bs, k, i);
    BehindWhen(bs, k, i, left);
    j := 0;
    if nread > 0 {
      PtrIs(src.chains, i - 1);
      SpineAt(src.mem, src.chains, bs, i - 1);
      Unlinked(src.mem[previous.addr], left);
      MoveWhole(src, dst, chain, previous, nread, moved, i);
    } else {
      src.lwd := if i < k then k else 0;
      SlotIs(src.chains, k);
      j := i;
      assert before + [] == before;
    }
  }

  lemma Unlinked(c: Chain, n: nat)
    ensures c.(next := Null).Takes(n) <==> c.Takes(n)
    ensures c.(next := Null).Room() == c.Room()
  {
  }

  lemma SlotIs(cs: seq<Addr>, k: nat)
    requires k <= |cs|
    ensures SlotAt(cs, 0) == FirstSlot && (k > 0 ==> SlotAt(cs, k) == NextOf(cs[k - 1]))
  {
  }

  /** The bytes of the first i blocks and of the rest. */
  lemma Front(bs: seq<Block>, k: nat, i: nat)
    requires i <= k < |bs|
    ensures |Flat(bs[..i])| <= |Flat(bs)| && Flat(bs)[..|Flat(bs[..i])|] == Flat(bs[..i])
    ensures Flat(bs) == Flat(bs[..i]) + Flat(bs[i..])
    ensures i == 0 ==> Flat(bs[..i]) == []
    ensures Flat(bs[..i]) == [] ==> Flat(bs) == [] + Flat(bs) && forall j :: 0 <= j < i ==> bs[j] == []
  {
    FlatSplit(bs, i);
    if Flat(bs[..i]) == [] {
      forall j | 0 <= j < i ensures bs[j] == [] { FlatAt(bs[..i], j); }
    }
  }

  /** The walk stops at chain k without having found a byte exactly when all bytes are there. */
  lemma BehindWhen(bs: seq<Block>, k: nat, i: nat, left: nat)
    requires i <= k < |bs| && left < |bs[i]| && LastData(bs, k)
    ensures Flat(bs[..k]) == [] <==> Flat(bs[..i]) == [] && i == k
    ensures i == k > 0 ==> !LastData(bs, 0)
  {
    if i < k {
      FlatAt(bs[..k], i);
    }
  }

  /** The part of evbuffer_remove_buffer for fewer bytes than src has: zero-copy moves, then one copy. */
  method RemoveSome(src: EvBuffer, dst: EvBuffer, datlen: nat, a: Addr) returns (n: nat, aborted: bool)
    requires src.Valid() && dst.Valid() && Partial(src, dst, datlen)
    requires Apart(src, dst) && a !in src.mem && a !in dst.mem
    modifies src`mem, src`first, src`lastWithDatap, src`totalLen, src`chains, src`blocks, src`lwd, dst
    ensures dst.freezeStart == old(dst.freezeStart) && dst.freezeEnd == old(dst.freezeEnd)
    ensures aborted <==> old(RemoveAborts(src, dst, datlen))
    ensures !aborted ==>
              && src.Linked() && dst.Linked() && Apart(src, dst)
              && n == datlen <= |old(src.Contents())|
              && dst.Contents() == old(dst.Contents() + src.Contents()[..datlen])
              && src.Contents() == old(src.Contents()[datlen..])
              && (src.LwdRight() <==> !old(Behind(src)))
              && (dst.LwdRight() <==> old(DstRight(src, dst, datlen)))
              && (old(src.Dense()) ==> src.Dense()) && (old(src.Dense() && dst.Dense()) ==> dst.Dense())
    ensures src.mem.Keys + dst.mem.Keys <= old(src.mem.Keys + dst.mem.Keys) + {a}
  {
    hide Spine, Flat, LastData, SlotAt, PtrAt, RunEnd, WholeAt, CloggedAt, LandsAt, RemoveAborts, DstRight, Remains, Behind;
    hide DenseList, Kept, Reached;
    DenseSent(src, dst, datlen);
    var chain, left, nread, j := SendWhole(src, dst, datlen);
    SpineAt(src.mem, src.chains, src.blocks, j);
    HeadBytes(src.blocks, j, left);
    TwoPieces(old(src.Contents()), nread, src.Contents(), left, old(dst.Contents()));
    var _, aborts := dst.Add(src.mem[chain.addr].Data()[..left], a);
    if aborts {
      return 0, true;
    }
    TakeFrom(src, chain, left, j);
    n, aborted := nread + left, false;
  }

  /** The first bytes are those of the first block with data. */
  lemma HeadBytes(bs: seq<Block>, j: nat, n: nat)
    requires j < |bs| && n <= |bs[j]| && forall i :: 0 <= i < j ==> bs[i] == []
    ensures n <= |Flat(bs)| && bs[j][..n] == Flat(bs)[..n]
  {
    FlatAt(bs, j);
    FlatEmpty(bs[..j]);
  }

  lemma TwoPieces(all: Block, n: nat, rest: Block, m: nat, to: Block)
    requires n <= |all| && all == all[..n] + rest && m <= |rest|
    ensures n + m <= |all| && to + all[..n] + rest[..m] == to + all[..n + m] && rest[m..] == all[n + m..]
  {
    assert all[..n + m] == all[..n] + rest[..m];
  }

  lemma DenseSent(src: EvBuffer, dst: EvBuffer, n: nat)
    requires src.Valid() && dst.Valid() && Partial(src, dst, n)
    ensures src.Dense() ==> DenseList(Kept(src, n))
    ensures src.Dense() && dst.Dense() ==> DenseList(Reached(src, dst, n))
  {
    hide Flat, WholeAt;
    DenseWithData(src);
  }

  /** Blocks with data put in the place of the empty ones at the end. */
  lemma MovedFine(d: seq<Block>, k: nat, v: nat, m: seq<Block>)
    requires k <= |d| && (d == [] <==> k == |d|) && v == (if k < |d| && d[k] != [] then k + 1 else k) && LastData(d, k)
    requires m != [] && forall i :: 0 <= i < |m| ==> m[i] != []
    ensures var bs := d[..v] + m;
            RunEnd(bs, k) == |bs| - 1 && LastData(bs, |bs| - 1) && FirstEmpty(bs, |bs| - 1) == |bs|
  {
    var bs := d[..v] + m;
    RunEndIs(bs, k, |bs| - 1);
    FirstEmptyIs(bs, |bs| - 1, |bs|);
  }

  /** The walk stops at or before the last chain with data. */
  lemma {:induction false} WholeBefore(bs: seq<Block>, n: nat, k: nat)
    requires k < |bs| && LastData(bs, k) && n < |Flat(bs)|
    ensures WholeAt(bs, n) <= k
  {
    if |bs[0]| <= n {
      OneChainWithData(bs, k);
      WholeBefore(bs[1..], n - |bs[0]|, k - 1);
    }
  }

  /** No chain before the last one with data is empty, and dst has no spare chain: nothing goes wrong. */
  lemma GaplessFine(src: EvBuffer, dst: EvBuffer, n: nat)
    requires src.Valid() && dst.Valid() && Partial(src, dst, n)
    requires forall i :: 0 <= i < src.lwd && i < |src.blocks| ==> src.blocks[i] != []
    ensures !Behind(src)
    ensures dst.NoSpareTail() || WholeAt(src.blocks, n) > 0 ==> !RemoveAborts(src, dst, n) && DstRight(src, dst, n)
  {
    hide Spine, Flat, WholeAt, RunEnd, FirstEmpty;
    SpineLen(src.mem, src.chains, src.blocks);
    SpineLen(dst.mem, dst.chains, dst.blocks);
    NonEmpty(src.blocks);
    var bs, i := src.blocks, WholeAt(src.blocks, n);
    WholeBefore(bs, n, src.lwd);
    if src.lwd > 0 { FlatAt(bs[..src.lwd], 0); }
    if i > 0 {
      FlatAt(bs[..i], 0);
      MovedFine(dst.blocks, dst.lwd, dst.VictimAt(), bs[..i]);
    } else {
      NonEmpty(bs[..0]);
      dst.AddWhenRight(Remains(src, n));
    }
  }

  /** How much goes. */
  ghost function Going(src: EvBuffer, n: nat): nat
    reads src
  {
    if n < |src.Contents()| then n else |src.Contents()|
  }

  /**
   * evbuffer_remove_buffer: move the first datlen bytes of src, or all of them, to the end of dst. last_with_datap of
   * src is wrong afterwards exactly when some go, not all, from a single chain with empty ones before it.
   */
  method RemoveBuffer(src: EvBuffer, dst: EvBuffer, datlen: nat, a: Addr) returns (r: int, aborted: bool)
    requires src.Valid() && dst.Valid() && Apart(src, dst)
    requires a !in src.mem && a !in dst.mem
    modifies src, dst
    ensures aborted <==> old(Partial(src, dst, datlen) && RemoveAborts(src, dst, datlen))
    ensures !aborted ==> src.Linked() && dst.Linked() && Apart(src, dst)
    ensures !aborted ==> (src.LwdRight() <==> !old(Partial(src, dst, datlen) && Behind(src)))
    ensures !aborted ==> (dst.LwdRight() <==> old(Partial(src, dst, datlen) ==> DstRight(src, dst, datlen)))
    ensures !aborted ==>
              if datlen == 0 || src == dst then
                r == 0 && dst.Contents() == old(dst.Contents()) && src.Contents() == old(src.Contents())
              else if old(dst.freezeEnd || src.freezeStart) then
                r == -1 && dst.Contents() == old(dst.Contents()) && src.Contents() == old(src.Contents())
              else
                var m := old(Going(src, datlen));
                r == m && dst.Contents() == old(dst.Contents() + src.Contents()[..Going(src, datlen)])
                       && src.Contents() == old(src.Contents()[Going(src, datlen)..])
    ensures old(src.Dense() && dst.Dense()) ==> !aborted && src.Valid() && dst.Valid() && src.Dense() && dst.Dense()
    ensures src.mem.Keys + dst.mem.Keys <= old(src.mem.Keys + dst.mem.Keys) + {a}
    ensures src.freezeStart == old(src.freezeStart) && src.freezeEnd == old(src.freezeEnd)
    ensures dst.freezeStart == old(dst.freezeStart) && dst.freezeEnd == old(dst.freezeEnd)
  {
    hide Spine, Flat, LastData, RemoveAborts, DstRight, Behind, DenseList;
    aborted := false;
    if datlen == 0 || dst == src {
      return 0, false;
    }
    if dst.freezeEnd || src.freezeStart {
      return -1, false;
    }
    if datlen >= src.totalLen {
      r := src.totalLen;
      var _ := AddBuffer(dst, src);
    } else {
      DenseFine(src, dst, datlen);
      r, aborted := RemoveSome(src, dst, datlen, a);
    }
  }

  lemma DenseFine(src: EvBuffer, dst: EvBuffer, n: nat)
    requires src.Valid() && dst.Valid() && Partial(src, dst, n)
    ensures src.Dense() && dst.Dense() ==> !RemoveAborts(src, dst, n) && DstRight(src, dst, n) && !Behind(src)
  {
    hide Spine, Flat, LastData, RemoveAborts, DstRight, Behind;
    if src.Dense() && dst.Dense() {
      DenseWithData(src);
      dst.DenseNoSpareTail();
      GaplessFine(src, dst, n);
    }
  }
}
