/** The evbuffer: a byte queue kept as a linked list of partly filled chains. */
module Evbuffer {
  import opened Bytes
  import opened Seqs
  import opened ChainList

  const CHAIN_MAX_AUTO_SIZE: nat := 4096

  /** Data that does not fit in the last chain, which has some room, would be put behind an empty chain. */
  ghost predicate CloggedAt(bs: seq<Block>, k: nat, room: nat)
  {
    FirstEmpty(bs, k) + 1 < |bs| && (room > 0 || Broken(bs, k))
  }

  /** Whether last_with_datap, at chain k so far, designates the last chain once data is added, that fits in it or not. */
  ghost predicate LandsAt(bs: seq<Block>, k: nat, fits: bool, room: nat)
  {
    if bs == [] || fits then |bs| <= k + 1
    else var v := FirstEmpty(bs, k); v == |bs| || v == k || (v + 1 == |bs| && room > 0)
  }

  class EvBuffer {
    // The chains this buffer owns. A freed chain leaves the map, so following a stale pointer does not verify.
    var mem: Memory
    var first: Ptr
    var last: Ptr
    var lastWithDatap: Slot
    var totalLen: nat
    var freezeStart: bool
    var freezeEnd: bool

    ghost var chains: seq<Addr>
    ghost var blocks: seq<Block>
    ghost var lwd: nat

    /** The list structure: everything but the meaning of last_with_datap. */
    ghost predicate Linked()
      reads this
    {
      && Spine(mem, chains, blocks)
      && first == PtrAt(chains, 0)
      && last == PtrAt(chains, |chains| - 1)
      && lwd <= |chains|
      && (chains == [] <==> lwd == |chains|)
      && lastWithDatap == SlotAt(chains, lwd)
      && totalLen == |Flat(blocks)|
    }

    /** last_with_datap designates the last chain with data, or the first chain when none has any. */
    ghost predicate LwdRight()
      reads this
    {
      LastData(blocks, lwd)
    }

    ghost predicate Valid()
      reads this
    {
      Linked() && LwdRight()
    }

    /** Only a lone chain may be empty. */
    ghost predicate Dense()
      reads this
    {
      DenseList(blocks)
    }

    /** No empty chain follows the one last_with_datap designates. */
    ghost predicate NoSpareTail()
      reads this
    {
      |chains| <= lwd + 1
    }

    lemma DenseNoSpareTail()
      requires Valid()
      ensures Dense() ==> NoSpareTail()
    {
      if !NoSpareTail() {
        assert blocks[lwd + 1] == [];
      }
    }

    /** The bytes the buffer stands for. */
    ghost function Contents(): Block
      reads this
    {
      Flat(blocks)
    }

    constructor ()
      ensures Valid() && NoSpareTail() && Dense() && Contents() == [] && mem == map[] && chains == [] && blocks == []
      ensures !freezeStart && !freezeEnd
    {
      mem := map[];
      first := Null;
      last := Null;
      lastWithDatap := FirstSlot;
      totalLen := 0;
      freezeStart := false;
      freezeEnd := false;
      chains := [];
      blocks := [];
      lwd := 0;
    }

    function Deref(s: Slot): Ptr
      requires s.NextOf? ==> s.chain in mem
      reads this
    {
      if s.FirstSlot? then first else mem[s.chain].next
    }

    /** The first empty chain at or after the last one with data. */
    ghost function VictimAt(): nat
      reads this
    {
      if lwd < |blocks| && blocks[lwd] != [] then lwd + 1 else lwd
    }

    /** The first empty chain that a walk from last_with_datap meets, right or not. */
    ghost function InsertAt(): nat
      reads this
    {
      FirstEmpty(blocks, lwd)
    }

    lemma VictimIs()
      requires Linked() && LwdRight()
      ensures InsertAt() == VictimAt() && !Broken(blocks, lwd)
    {
      SpineLen(mem, chains, blocks);
      LastDataWhole(blocks, lwd);
    }

    method FindVictim() returns (ch: Slot)
      requires Linked()
      ensures InsertAt() <= |chains| && ch == SlotAt(chains, InsertAt())
      ensures ch.NextOf? ==> ch.chain in mem
    {
      hide Spine, Flat, FirstEmpty;
      ghost var v := lwd;
      SpineLen(mem, chains, blocks);
      ch := lastWithDatap;
      if lwd > 0 { SpineAt(mem, chains, blocks, lwd - 1); }
      if lwd < |chains| { SpineAt(mem, chains, blocks, lwd); }
      while Deref(ch) != Null && mem[Deref(ch).addr].off != 0
        invariant lwd <= v <= |chains| && ch == SlotAt(chains, v)
        invariant ch.NextOf? ==> ch.chain in mem
        invariant Deref(ch) == PtrAt(chains, v)
        invariant v < |chains| ==> chains[v] in mem && mem[chains[v]].off == |blocks[v]|
        invariant forall i :: lwd <= i < v ==> blocks[i] != []
        decreases |chains| - v
      {
        SpineAt(mem, chains, blocks, v);
        ch := NextOf(Deref(ch).addr);
        v := v + 1;
        if v < |chains| { SpineAt(mem, chains, blocks, v); }
      }
      FirstEmptyIs(blocks, lwd, v);
    }

    /** evbuffer_chains_all_empty */
    method ChainsAllEmpty(p: Ptr, ghost v: nat) returns (all: bool)
      requires Spine(mem, chains, blocks) && v <= |chains| && p == PtrAt(chains, v)
      ensures all <==> forall i :: v <= i < |blocks| ==> blocks[i] == []
    {
      hide Spine;
      SpineLen(mem, chains, blocks);
      ghost var i := v;
      var chain := p;
      while chain != Null
        invariant v <= i <= |chains| && chain == PtrAt(chains, i)
        invariant forall j :: v <= j < i ==> blocks[j] == []
        decreases |chains| - i
      {
        SpineAt(mem, chains, blocks, i);
        if mem[chain.addr].off != 0 {
          return false;
        }
        chain := mem[chain.addr].next;
        i := i + 1;
      }
      all := true;
    }

    /** Free a run of chains that starts at p, following next pointers. */
    method FreeAllChains(p: Ptr, ghost v: nat)
      requires Spine(mem, chains, blocks)
      requires v <= |chains| && p == PtrAt(chains, v)
      modifies this`mem
      ensures forall a :: a in mem <==> a in chains[..v]
      ensures forall a :: a in mem ==> a in old(mem) && mem[a] == old(mem)[a]
    {
      hide Spine, NoDup;
      ghost var i := v;
      var chain := p;
      SpineLen(mem, chains, blocks);
      SpineNoDup(mem, chains, blocks);
      while chain != Null
        invariant v <= i <= |chains| && chain == PtrAt(chains, i)
        invariant forall a :: a in mem <==> a in chains[..v] || a in chains[i..]
        invariant forall a :: a in mem ==> a in old(mem) && mem[a] == old(mem)[a]
        decreases |chains| - i
      {
        SpineAt(old(mem), chains, blocks, i);
        OneFreed(chains, v, i);
        var next := mem[chain.addr].next;
        mem := mem - {chain.addr};
        chain := next;
        i := i + 1;
      }
    }

    /** evbuffer_free_trailing_empty_chains: cut the list at the first empty chain; return the slot that ends it. */
    method FreeTrailingEmptyChains() returns (ch: Slot)
      requires Valid()
      modifies this`mem, this`first
      ensures VictimAt() <= |chains| == |blocks| && ch == SlotAt(chains, VictimAt())
      ensures Spine(mem, chains[..VictimAt()], blocks[..VictimAt()]) && first == PtrAt(chains[..VictimAt()], 0)
      ensures forall a :: a in mem ==> a in old(mem)
    {
      hide Spine;
      ghost var m, v := mem, VictimAt();
      VictimIs();
      SpineLen(mem, chains, blocks);
      if v > 0 { SpineAt(mem, chains, blocks, v - 1); }
      ch := FindVictim();
      if Deref(ch) != Null {
        FreeAllChains(Deref(ch), v);
        if ch.FirstSlot? {
          first := Null;
          assert mem == map[] && chains[..0] == [] && blocks[..0] == [];
          SpineNone();
        } else {
          assert ch.chain in chains[..v];
          mem := mem[ch.chain := mem[ch.chain].(next := Null)];
          SpineTake(m, chains, blocks, v, mem);
        }
      } else {
        assert chains[..v] == chains && blocks[..v] == blocks;
      }
    }

    /** advance_last_with_data: move last_with_datap on while the next chain has data. */
    method AdvanceLastWithData()
      requires Linked()
      modifies this`lastWithDatap, this`lwd
      ensures Linked()
      ensures lwd == RunEnd(blocks, old(lwd))
    {
      hide Spine, Flat, RunEnd;
      ghost var cs, bs, k0, k := chains, blocks, lwd, lwd;
      SpineLen(mem, cs, bs);
      if k > 0 { SpineAt(mem, cs, bs, k - 1); }
      if Deref(lastWithDatap) == Null {
        RunEndIs(bs, k, k);
        return;
      }
      var m, slot := mem, lastWithDatap;
      var chain := Deref(slot).addr;
      SpineAt(m, cs, bs, k);
      if k + 1 < |cs| { SpineAt(m, cs, bs, k + 1); }
      while m[chain].next != Null && m[m[chain].next.addr].off != 0
        invariant k0 <= k < |cs| && chain == cs[k] && Link(m, cs, bs, k) && slot == SlotAt(cs, k)
        invariant k + 1 < |cs| ==> Link(m, cs, bs, k + 1)
        invariant forall i :: k0 < i <= k ==> bs[i] != []
        decreases |cs| - k
      {
        slot := NextOf(chain);
        chain := m[chain].next.addr;
        k := k + 1;
        if k + 1 < |cs| { SpineAt(m, cs, bs, k + 1); }
      }
      RunEndIs(bs, k0, k);
      lastWithDatap := slot;
      lwd := k;
    }

    /** Link the chain c, allocated at a, after the last chain. */
    method AppendChain(a: Addr, c: Chain)
      requires Linked() && chains != []
      requires a !in mem && c.Ok() && c.next == Null
      modifies this`mem, this`last, this`lastWithDatap, this`totalLen, this`chains, this`blocks, this`lwd
      ensures Linked()
      ensures chains == old(chains) + [a] && blocks == old(blocks) + [c.Data()]
      ensures a in mem && mem[a] == c
      ensures Contents() == old(Contents()) + c.Data()
      ensures lwd == if c.off != 0 then |old(chains)| else old(lwd)
      ensures mem.Keys <= old(mem.Keys) + {a}
      ensures old(last.To? && last.addr in mem) && mem == old(mem[last.addr := mem[last.addr].(next := To(a))])[a := c]
    {
      hide Spine, Flat;
      ghost var m, cs, bs := mem, chains, blocks;
      SpineLen(m, cs, bs);
      SpineAt(m, cs, bs, |cs| - 1);
      mem := mem[last.addr := mem[last.addr].(next := To(a))][a := c];
      if c.off != 0 {
        lastWithDatap := NextOf(last.addr);
        lwd := |cs|;
      }
      last := To(a);
      totalLen := totalLen + c.off;
      assert cs[..|cs|] == cs && bs[..|bs|] == bs;
      FlatRetail(bs, |bs|, c.Data());
      SpineRetail(m, cs, bs, |cs|, a, c, mem);
      chains := cs + [a];
      blocks := bs + [c.Data()];
    }

    /** Free the empty chains from ch on and store the chain c, allocated at a, in their place. */
    method ReplaceTail(ch: Slot, ghost v: nat, a: Addr, c: Chain)
      requires Linked() && lwd <= v < |chains| && ch == SlotAt(chains, v)
      requires forall i :: v <= i < |blocks| ==> blocks[i] == []
      requires a !in mem && c.Ok() && c.next == Null
      modifies this`mem, this`first, this`last, this`totalLen, this`chains, this`blocks
      ensures Linked()
      ensures old(v <= |chains| == |blocks|)
      ensures chains == old(chains)[..v] + [a] && blocks == old(blocks)[..v] + [c.Data()]
      ensures a in mem && mem[a] == c
      ensures Contents() == old(Contents()) + c.Data()
      ensures mem.Keys <= old(mem.Keys) + {a}
      ensures v > 0 ==> old(chains[v - 1] in mem) && old(chains)[v - 1] in mem && mem[old(chains)[v - 1]] == old(mem[chains[v - 1]]).(next := To(a))
    {
      hide Spine, Flat;
      ghost var m, cs, bs := mem, chains, blocks;
      SpineLen(m, cs, bs);
      if v > 0 { SpineAt(m, cs, bs, v - 1); }
      FreeAllChains(Deref(ch), v);
      if ch.FirstSlot? {
        first := To(a);
        mem := mem[a := c];
      } else {
        assert ch.chain in cs[..v];
        mem := mem[ch.chain := mem[ch.chain].(next := To(a))][a := c];
      }
      last := To(a);
      totalLen := totalLen + c.off;
      FlatRetail(bs, v, c.Data());
      SpineRetail(m, cs, bs, v, a, c, mem);
      chains := cs[..v] + [a];
      blocks := bs[..v] + [c.Data()];
    }

    /**
     * evbuffer_chain_insert: add the chain c, allocated at a, to the end; trailing empty chains are freed. The
     * assertion that they are empty fails exactly when one after the first empty chain has data.
     */
    method ChainInsert(a: Addr, c: Chain) returns (aborted: bool)
      requires Linked()
      requires a !in mem && c.Ok() && c.next == Null
      modifies this`mem, this`first, this`last, this`lastWithDatap, this`totalLen, this`chains, this`blocks, this`lwd
      ensures Linked()
      ensures aborted <==> old(Broken(blocks, lwd))
      ensures aborted ==> mem == old(mem) && chains == old(chains) && blocks == old(blocks) && lwd == old(lwd)
      ensures old(InsertAt() <= |chains| == |blocks|)
      ensures !aborted ==>
                && chains == old(chains[..InsertAt()]) + [a]
                && blocks == old(blocks[..InsertAt()]) + [c.Data()]
                && a in mem && mem[a] == c
                && Contents() == old(Contents()) + c.Data()
                && lwd == if old(chains != [] && InsertAt() == |chains|) && c.off != 0 then old(InsertAt()) else old(lwd)
      ensures mem.Keys <= old(mem.Keys) + {a}
    {
      hide Spine, Flat, FirstEmpty;
      SpineLen(mem, chains, blocks);
      if lwd > 0 { SpineAt(mem, chains, blocks, lwd - 1); }
      if Deref(lastWithDatap) == Null {
        assert InsertAt() == 0;
        InsertFirst(a, c);
        return false;
      }
      ghost var v := InsertAt();
      if v > 0 { SpineAt(mem, chains, blocks, v - 1); }
      var ch := FindVictim();
      if Deref(ch) == Null {
        assert chains[..v] == chains && blocks[..v] == blocks;
        AppendChain(a, c);
        return false;
      }
      var empty := ChainsAllEmpty(Deref(ch), v);
      if !empty {
        return true;
      }
      ReplaceTail(ch, v, a, c);
      aborted := false;
    }

    /** The chain c, allocated at a, becomes the only one. */
    method InsertFirst(a: Addr, c: Chain)
      requires Linked() && chains == [] && c.Ok() && c.next == Null
      modifies this`mem, this`first, this`last, this`totalLen, this`chains, this`blocks
      ensures Linked() && chains == old(chains[..0]) + [a] && old(|blocks| == 0) && blocks == old(blocks[..0]) + [c.Data()]
      ensures mem == map[a := c] && Contents() == old(Contents()) + c.Data()
    {
      hide Spine, Flat;
      SpineLen(mem, chains, blocks);
      SpineRetail(mem, chains, blocks, 0, a, c, map[a := c]);
      FlatRetail(blocks, 0, c.Data());
      assert mem == map[] && chains[..0] + [a] == [a] && blocks[..0] + [c.Data()] == [c.Data()];
      mem := mem[a := c];
      first := To(a);
      last := To(a);
      totalLen := totalLen + c.off;
      chains := [a];
      blocks := [c.Data()];
    }

    /** Rewrite the last chain so that it also stores data. */
    method ExtendLast(c: Chain, ghost data: Block)
      requires Linked() && chains != []
      requires last.To? && last.addr in mem && mem[last.addr].Ok()
      requires c.Ok() && c.next == mem[last.addr].next && c.Data() == mem[last.addr].Data() + data
      modifies this`mem, this`blocks, this`totalLen
      ensures Linked() && |blocks| == |old(blocks)| == |chains|
      ensures blocks == old(blocks)[|chains| - 1 := c.Data()]
      ensures Contents() == old(Contents()) + data
      ensures mem == old(mem)[last.addr := c]
    {
      hide Spine, Flat;
      SpineLen(mem, chains, blocks);
      SpineAt(mem, chains, blocks, |chains| - 1);
      SpineSet(mem, chains, blocks, |chains| - 1, c);
      FlatExtendLast(blocks, data);
      totalLen := totalLen + (c.off - mem[last.addr].off);
      mem := mem[last.addr := c];
      blocks := blocks[|chains| - 1 := c.Data()];
    }

    /** The last chain has room for n more bytes, perhaps after realigning. */
    ghost predicate FitsInLast(n: nat)
      reads this
    {
      && last.To?
      && last.addr in mem
      && mem[last.addr].Takes(n)
    }

    /** The room after the bytes of the last chain. */
    ghost function RoomInLast(): nat
      reads this
    {
      if last.To? && last.addr in mem then mem[last.addr].Room() else 0
    }

    /** Data that does not fit in the last chain would be put behind an empty chain. */
    ghost predicate Clogged()
      reads this
    {
      CloggedAt(blocks, lwd, RoomInLast())
    }

    /** Whether last_with_datap designates the last chain once n bytes are added to it. */
    ghost predicate Lands(n: nat)
      reads this
    {
      LandsAt(blocks, lwd, FitsInLast(n), RoomInLast())
    }

    /** What that comes to when last_with_datap is right. */
    lemma AddWhenRight(n: nat)
      requires Valid()
      ensures Clogged() <==> VictimAt() + 1 < |chains| && RoomInLast() > 0
      ensures NoSpareTail() ==> !Clogged() && Lands(n)
      ensures chains != [] && !NoSpareTail() && !Clogged() ==>
                (Lands(n) <==> !FitsInLast(n) && (RoomInLast() > 0 || Contents() == []))
    {
      hide Spine, Flat;
      VictimIs();
      SpineLen(mem, chains, blocks);
      if blocks != [] {
        if blocks[lwd] == [] {
          FlatEmpty(blocks);
        } else {
          HasData(blocks, lwd);
        }
      }
    }

    /** Fill up the last chain with the beginning of data, as much as there is room for. */
    method TopUp(data: Block) returns (remain: nat)
      requires Linked() && chains != [] && !FitsInLast(|data|)
      modifies this`mem, this`blocks, this`totalLen
      ensures Linked() && last.To? && last.addr in mem && mem[last.addr].Ok() && mem.Keys == old(mem.Keys)
      ensures remain == old(RoomInLast()) < |data| && blocks == ToppedUp(old(blocks), data[..remain])
      ensures Contents() == old(Contents()) + data[..remain]
    {
      hide Spine, Flat, LastData;
      SpineLen(mem, chains, blocks);
      SpineAt(mem, chains, blocks, |chains| - 1);
      var c := mem[last.addr];
      remain := c.SpaceLen();
      if remain > 0 {
        ExtendLast(c.Append(data[..remain]), data[..remain]);
      }
      assert data[..0] == [] && Contents() + [] == Contents();
    }

    /** Fill up the last chain and put the rest of data on a new chain. */
    method AddSpilling(data: Block, a: Addr) returns (aborted: bool)
      requires Linked() && chains != [] && !FitsInLast(|data|)
      requires a !in mem
      modifies this`mem, this`first, this`last, this`lastWithDatap, this`totalLen, this`chains, this`blocks, this`lwd
      ensures Linked() && chains != [] && old(RoomInLast()) <= |data|
      ensures aborted <==> old(Clogged())
      ensures Contents() == old(Contents()) + if aborted then data[..old(RoomInLast())] else data
      ensures !aborted ==> (LwdRight() <==> old(Lands(|data|)))
      ensures !aborted && old(NoSpareTail()) ==> NoSpareTail()
      ensures !aborted && old(Dense()) ==> Dense()
      ensures !aborted ==> |chains| <= |old(chains)| + 1
      ensures mem.Keys <= old(mem.Keys) + {a}
    {
      hide Spine, Flat, FirstEmpty, LastData, Broken, ToppedUp, PtrAt, SlotAt;
      SpineLen(mem, chains, blocks);
      ghost var bs := blocks;
      var remain := TopUp(data);
      SpineLen(mem, chains, blocks);
      var toAlloc := |mem[last.addr].buffer|;
      if toAlloc <= CHAIN_MAX_AUTO_SIZE / 2 {
        toAlloc := toAlloc * 2;
      }
      if |data| > toAlloc {
        toAlloc := |data|;
      }
      var tmp := ChainNew(toAlloc);
      Halves(old(Contents()), data, remain);
      Spilled(bs, blocks, lwd, data[..remain], data[remain..]);
      aborted := ChainInsert(a, tmp.Append(data[remain..]));
    }

    /** Copy data into the last chain, realigning it if need be. */
    method AddInLast(data: Block)
      requires Linked() && chains != [] && FitsInLast(|data|)
      modifies this`mem, this`blocks, this`totalLen
      ensures Linked()
      ensures Contents() == old(Contents()) + data
      ensures LwdRight() <==> if data == [] then old(LwdRight()) else NoSpareTail()
      ensures old(Dense()) ==> Dense()
      ensures mem == old(mem[last.addr := mem[last.addr].Grown(data)])
    {
      hide Spine, Flat, LastData;
      SpineLen(mem, chains, blocks);
      SpineAt(mem, chains, blocks, |chains| - 1);
      LastDataTopped(blocks, lwd, data);
      var c := mem[last.addr];
      if c.SpaceLen() >= |data| {
        ExtendLast(c.Append(data), data);
      } else {
        ExtendLast(c.Align().Append(data), data);
      }
    }

    /**
     * evbuffer_add: append data; a is the address malloc would return. It is refused when the end is frozen, and an
     * assertion fails when it does not fit in the last chain and some empty chain would be left behind.
     */
    method Add(data: Block, a: Addr) returns (r: int, aborted: bool)
      requires Linked()
      requires a !in mem
      modifies this
      ensures Linked()
      ensures freezeStart == old(freezeStart) && freezeEnd == old(freezeEnd)
      ensures aborted <==> !freezeEnd && old(chains != [] && !FitsInLast(|data|) && Clogged())
      ensures r == if freezeEnd || aborted then -1 else 0
      ensures old(aborted ==> RoomInLast() <= |data|)
      ensures Contents() == old(Contents()) + if r == 0 then data else if aborted then data[..old(RoomInLast())] else []
      ensures !aborted ==> (LwdRight() <==> if r == -1 || data == [] then old(LwdRight()) else old(Lands(|data|)))
      ensures !aborted && old(NoSpareTail()) ==> NoSpareTail()
      ensures !aborted && old(Dense()) ==> Dense()
      ensures !aborted ==> |chains| <= |old(chains)| + 1
      ensures freezeEnd ==> mem == old(mem) && chains == old(chains) && blocks == old(blocks)
      ensures mem.Keys <= old(mem.Keys) + {a}
      ensures old(FitsInLast(|data|)) && r == 0 ==> chains == old(chains) && mem == old(mem[last.addr := mem[last.addr].Grown(data)])
      ensures old(chains) == [] && r == 0 ==>
                && chains == [a] && mem.Keys == {a} && mem[a].Ok() && mem[a].Data() == data && mem[a].misalign == 0
                && MIN_BUFFER_SIZE <= |mem[a].buffer| + CHAIN_HEADER_SIZE
    {
      hide Spine, Flat, FirstEmpty, LastData, Broken, PtrAt, SlotAt;
      aborted := false;
      if freezeEnd {
        assert Contents() + [] == Contents();
        return -1, false;
      }
      EndOf(chains);
      SpineLen(mem, chains, blocks);
      if last == Null {
        NothingBroken(lwd);
        AddFirst(data, a);
        return 0, false;
      }
      SpineAt(mem, chains, blocks, |chains| - 1);
      var c := mem[last.addr];
      if c.SpaceLen() >= |data| || c.ShouldRealign(|data|) {
        AddInLast(data);
      } else {
        aborted := AddSpilling(data, a);
      }
      r := if aborted then -1 else 0;
    }

    /** data goes on a new chain, the only one. */
    method AddFirst(data: Block, a: Addr)
      requires Linked() && chains == []
      modifies this`mem, this`first, this`last, this`totalLen, this`chains, this`blocks
      ensures Valid() && NoSpareTail() && Dense() && Contents() == old(Contents()) + data
      ensures chains == [a] && mem.Keys == {a} && mem[a].Ok() && mem[a].Data() == data && mem[a].misalign == 0
      ensures MIN_BUFFER_SIZE <= |mem[a].buffer| + CHAIN_HEADER_SIZE
    {
      hide Spine, Flat;
      var c := ChainNew(|data|);
      InsertFirst(a, c);
      AddInLast(data);
    }

    /** Rewrite the first chain so that it stores data in front of its bytes. */
    method ExtendFirst(c: Chain, ghost data: Block)
      requires Linked() && chains != []
      requires first.To? && first.addr in mem && mem[first.addr].Ok()
      requires c.Ok() && c.next == mem[first.addr].next && c.Data() == data + mem[first.addr].Data()
      modifies this`mem, this`blocks, this`totalLen
      ensures Linked() && |blocks| == |old(blocks)| == |chains|
      ensures blocks == old(blocks)[0 := c.Data()]
      ensures Contents() == data + old(Contents())
      ensures mem == old(mem)[first.addr := c]
    {
      hide Spine;
      SpineLen(mem, chains, blocks);
      SpineAt(mem, chains, blocks, 0);
      SpineSet(mem, chains, blocks, 0, c);
      assert blocks[0 := c.Data()][1..] == blocks[1..];
      totalLen := totalLen + (c.off - mem[first.addr].off);
      mem := mem[first.addr := c];
      blocks := blocks[0 := c.Data()];
    }

    /** Put the chain c, allocated at a, in front of the list. */
    method PushFirst(a: Addr, c: Chain)
      requires Valid() && chains != [] && lwd < |blocks| && blocks[lwd] != []
      requires a !in mem && c.Ok() && c.next == first
      modifies this`mem, this`first, this`lastWithDatap, this`totalLen, this`chains, this`blocks, this`lwd
      ensures Valid() && chains == [a] + old(chains) && blocks == [c.Data()] + old(blocks)
      ensures lwd == old(lwd) + 1
      ensures Contents() == c.Data() + old(Contents())
      ensures mem.Keys <= old(mem.Keys) + {a}
    {
      hide Spine;
      SpineLen(mem, chains, blocks);
      SpinePush(mem, chains, blocks, a, c);
      first := To(a);
      if lastWithDatap == FirstSlot {
        lastWithDatap := NextOf(a);
      }
      mem := mem[a := c];
      totalLen := totalLen + c.off;
      assert ([c.Data()] + blocks)[1..] == blocks;
      chains := [a] + chains;
      blocks := [c.Data()] + blocks;
      lwd := lwd + 1;
    }

    /** The first chain as evbuffer_prepend sees it: an empty chain is empty at its beginning. */
    function FirstForPrepend(): Chain
      requires first.To? && first.addr in mem
      reads this
    {
      var c := mem[first.addr];
      if c.off == 0 then c.(misalign := |c.buffer|) else c
    }

    /** The first chain has room for data before its bytes. */
    method PrependInFirst(data: Block)
      requires Valid() && chains != [] && first.To? && first.addr in mem
      requires |data| <= FirstForPrepend().misalign
      modifies this`mem, this`blocks, this`totalLen
      ensures Valid() && blocks != [] && |old(blocks)| == |blocks| == |chains|
      ensures blocks == old(blocks)[0 := data + old(blocks)[0]]
      ensures Contents() == data + old(Contents())
      ensures mem.Keys == old(mem.Keys)
    {
      hide Spine, Flat;
      SpineLen(mem, chains, blocks);
      SpineAt(mem, chains, blocks, 0);
      ExtendFirst(FirstForPrepend().Prepend(data), data);
    }

    /** Fill the room in the first chain with the end of data and put the beginning on a new first chain. */
    method PrependSpilling(data: Block, a: Addr)
      requires Valid() && chains != [] && first.To? && first.addr in mem && mem[first.addr].Ok()
      requires |data| > FirstForPrepend().misalign
      requires a !in mem
      modifies this`mem, this`first, this`lastWithDatap, this`totalLen, this`chains, this`blocks, this`lwd
      ensures Valid() && chains != []
      ensures Contents() == data + old(Contents())
      ensures old(NoSpareTail()) ==> NoSpareTail()
      ensures old(Dense()) ==> Dense()
      ensures mem.Keys <= old(mem.Keys) + {a}
    {
      hide Spine, Flat;
      SpineLen(mem, chains, blocks);
      SpineAt(mem, chains, blocks, 0);
      var rest := |data| - FirstForPrepend().misalign;
      assert data == data[..rest] + data[rest..];
      PrependInFirst(data[rest..]);
      assert blocks[0] != [];
      var tmp := ChainNew(rest);
      tmp := tmp.(next := first, misalign := |tmp.buffer|).Prepend(data[..rest]);
      PushFirst(a, tmp);
    }

    /** evbuffer_prepend: put data in front; a is the address malloc would return. */
    method Prepend(data: Block, a: Addr) returns (r: int)
      requires Valid()
      requires a !in mem
      modifies this
      ensures Valid()
      ensures freezeStart == old(freezeStart) && freezeEnd == old(freezeEnd)
      ensures r == if freezeStart then -1 else 0
      ensures Contents() == (if r == 0 then data else []) + old(Contents())
      ensures old(NoSpareTail()) ==> NoSpareTail()
      ensures old(Dense()) ==> Dense()
      ensures mem.Keys <= old(mem.Keys) + {a}
    {
      hide Spine, Flat;
      SpineLen(mem, chains, blocks);
      if freezeStart {
        return -1;
      }
      if first == Null {
        var c := ChainNew(|data|);
        NothingBroken(lwd);
        var _ := ChainInsert(a, c);
      }
      SpineAt(mem, chains, blocks, 0);
      if FirstForPrepend().misalign >= |data| {
        PrependInFirst(data);
      } else {
        PrependSpilling(data, a);
      }
      r := 0;
    }

    /** Free every chain: evbuffer_drain of everything. */
    method DrainAll()
      requires Valid()
      modifies this`mem, this`first, this`last, this`lastWithDatap, this`totalLen, this`chains, this`blocks, this`lwd
      ensures Valid() && chains == [] && blocks == [] && mem == map[]
    {
      hide Spine, Flat;
      FreeAllChains(first, 0);
      assert mem == map[];
      ZeroChain();
    }

    /** ZERO_CHAIN: forget a list whose chains are gone. */
    method ZeroChain()
      requires mem == map[]
      modifies this`first, this`last, this`lastWithDatap, this`totalLen, this`chains, this`blocks, this`lwd
      ensures Valid() && chains == [] && blocks == []
    {
      first := Null;
      last := Null;
      lastWithDatap := FirstSlot;
      totalLen := 0;
      chains := [];
      blocks := [];
      lwd := 0;
    }

    /** Free whole chains from the front until fewer than their bytes remain to be drained; the chains cs are left. */
    method DrainChains(len: nat) returns (chain: Ptr, remaining: nat, ghost cs: seq<Addr>, ghost bs: seq<Block>, ghost k: nat)
      requires Valid() && len < totalLen
      modifies this`mem, this`lastWithDatap
      ensures Spine(mem, cs, bs) && |cs| == |bs| && k < |cs| && chain == To(cs[0])
      ensures Suffix(cs, chains) && Suffix(bs, blocks) && |chains| - lwd == |cs| - k
      ensures Suffix(Flat(bs), Contents()) && |Flat(bs)| - remaining == totalLen - len && remaining < |bs[0]|
      ensures lastWithDatap == SlotAt(cs, k)
      ensures mem.Keys <= old(mem.Keys)
    {
      hide Spine, Flat, Suffix;
      cs, bs, k := chains, blocks, lwd;
      SuffixAll(cs);
      SuffixAll(bs);
      SuffixAll(Flat(bs));
      SpineLen(mem, cs, bs);
      NonEmpty(bs);
      SpineAt(mem, cs, bs, 0);
      chain := first;
      remaining := len;
      while remaining >= mem[chain.addr].off
        invariant Spine(mem, cs, bs) && |cs| == |bs| && k < |cs| && chain == To(cs[0]) && Link(mem, cs, bs, 0)
        invariant mem.Keys <= old(mem.Keys)
        invariant Suffix(cs, chains) && Suffix(bs, blocks) && |chains| - lwd == |cs| - k
        invariant Suffix(Flat(bs), Contents()) && |Flat(bs)| - remaining == totalLen - len
        invariant lastWithDatap == SlotAt(cs, k)
        decreases |cs|
      {
        DrainStep(mem, chains, blocks, cs, bs, k, remaining);
        SuffixTrans(Flat(bs[1..]), Flat(bs), Contents());
        var c := mem[chain.addr];
        remaining := remaining - c.off;
        // The last chain with data is never freed here, so the first of the two fix-ups never applies.
        assert Deref(lastWithDatap) != chain;
        if lastWithDatap == NextOf(chain.addr) {
          lastWithDatap := FirstSlot;
        }
        mem := mem - {chain.addr};
        chain := c.next;
        cs, bs, k := cs[1..], bs[1..], k - 1;
        SpineAt(mem, cs, bs, 0);
      }
    }

    /** Take the first n bytes of the first remaining chain and make it the first of the list cs. */
    method DrainInto(chain: Ptr, n: nat, ghost cs: seq<Addr>, ghost bs: seq<Block>, ghost k: nat)
      requires Spine(mem, cs, bs) && |cs| == |bs| && k < |cs| && chain == To(cs[0])
      requires last == To(cs[|cs| - 1]) && lastWithDatap == SlotAt(cs, k)
      requires n < |bs[0]| && |Flat(bs)| == n + totalLen
      requires k > 0 ==> bs[k] != []
      requires forall i :: k < i < |bs| ==> bs[i] == []
      modifies this`mem, this`first, this`chains, this`blocks, this`lwd
      ensures Valid() && chains == cs && lwd == k
      ensures blocks == bs[0 := bs[0][n..]] && Contents() == Flat(bs)[n..]
      ensures mem.Keys == old(mem.Keys)
    {
      hide Spine, Flat;
      SpineAt(mem, cs, bs, 0);
      first := chain;
      var c := mem[chain.addr].Consume(n);
      SpineSet(mem, cs, bs, 0, c);
      ConsumeFlat(bs, n);
      mem := mem[chain.addr := c];
      chains, blocks, lwd := cs, bs[0 := bs[0][n..]], k;
    }

    /** evbuffer_drain: remove the first len bytes, or all of them. */
    method Drain(len: nat) returns (r: int)
      requires Valid()
      modifies this
      ensures Valid()
      ensures freezeStart == old(freezeStart) && freezeEnd == old(freezeEnd)
      ensures r == if freezeStart && old(Contents()) != [] then -1 else 0
      ensures Contents() == if r == -1 then old(Contents())
                            else if len <= |old(Contents())| then old(Contents())[len..] else []
      ensures old(NoSpareTail()) ==> NoSpareTail()
      ensures old(Dense()) ==> Dense()
      ensures mem.Keys <= old(mem.Keys)
    {
      hide Spine;
      if totalLen == 0 {
        return 0;
      }
      if freezeStart {
        return -1;
      }
      if len >= totalLen {
        DrainAll();
      } else {
        SpineLen(mem, chains, blocks);
        var chain, remaining, cs, bs, k := DrainChains(len);
        DrainRest(chains, blocks, lwd, cs, bs, k);
        totalLen := totalLen - len;
        DrainInto(chain, remaining, cs, bs, k);
      }
      r := 0;
    }

    /** evbuffer_copyout: a copy of the first bytes, at most datlen of them. */
    method Copyout(datlen: nat) returns (r: int, data: Block)
      requires Valid()
      ensures r == -1 <==> freezeStart && datlen > 0 && Contents() != []
      ensures r != -1 ==> r == |data| && data == Contents()[..if datlen < totalLen then datlen else totalLen]
      ensures r == -1 ==> data == []
    {
      hide Spine;
      SpineLen(mem, chains, blocks);
      data := [];
      var left: nat := if datlen >= totalLen then totalLen else datlen;
      if left == 0 {
        return 0, [];
      }
      if freezeStart {
        return -1, [];
      }
      var nread := left;
      var chain := first;
      ghost var i := 0;
      SpineAt(mem, chains, blocks, 0);
      while left > 0 && left >= mem[chain.addr].off
        invariant i <= |chains| && chain == PtrAt(chains, i)
        invariant data == Flat(blocks[..i]) && |data| + left == nread
        invariant left > 0 ==> i < |chains|
        invariant i < |chains| ==> Link(mem, chains, blocks, i)
        decreases |chains| - i
      {
        var c := mem[chain.addr];
        data := data + c.Data();
        left := left - c.off;
        chain := c.next;
        TakeOneMore(blocks, i);
        i := i + 1;
        if i < |chains| {
          SpineAt(mem, chains, blocks, i);
        } else {
          assert blocks[..i] == blocks;
        }
      }
      if left > 0 {
        FlatDrop(blocks, i, left);
        data := data + mem[chain.addr].Data()[..left];
      } else {
        FlatSplit(blocks, i);
        assert Contents() == data + Flat(blocks[i..]);
      }
      r := nread;
    }

    /** evbuffer_remove: copy the first bytes out and drain them. */
    method Remove(datlen: nat) returns (r: int, data: Block)
      requires Valid()
      modifies this
      ensures Valid()
      ensures freezeStart == old(freezeStart) && freezeEnd == old(freezeEnd)
      ensures r == -1 <==> freezeStart && datlen > 0 && old(Contents()) != []
      ensures r != -1 ==> r == |data| == if datlen < |old(Contents())| then datlen else |old(Contents())|
      ensures data + Contents() == old(Contents())
      ensures r == -1 ==> data == []
      ensures old(NoSpareTail()) ==> NoSpareTail()
      ensures old(Dense()) ==> Dense()
      ensures mem.Keys <= old(mem.Keys)
    {
      hide Spine, Flat;
      r, data := Copyout(datlen);
      if r > 0 {
        var d := Drain(r);
        if d < 0 {
          assert false;
        }
      }
    }

    /**
     * Copy every chain that fits whole into tmp and free it. The chains cs0 are left to copy from,
     * and the k0-th of them, at lwdAddr, is the last one with data.
     */
    method PullChains(p: Ptr, tmp: Chain, size: nat, lwdAddr: Addr, ghost cs0: seq<Addr>, ghost bs0: seq<Block>, ghost k0: nat)
      returns (chain: Ptr, t: Chain, left: nat, goneLwd: bool, goneLwdp: bool, ghost cs: seq<Addr>, ghost bs: seq<Block>)
      requires Spine(mem, cs0, bs0) && p == PtrAt(cs0, 0) && k0 < |cs0| && lwdAddr == cs0[k0]
      requires lastWithDatap.NextOf?
      requires if k0 > 0 then lastWithDatap.chain == cs0[k0 - 1] else lastWithDatap.chain !in cs0
      requires tmp.Ok() && size <= tmp.SpaceLen()
      modifies this`mem
      ensures Spine(mem, cs, bs) && chain == PtrAt(cs, 0) && |cs| == |bs| <= |cs0| == |bs0|
      ensures Suffix(cs, cs0) && Suffix(bs, bs0)
      ensures t.Ok() && t.Data() + Flat(bs) == tmp.Data() + Flat(bs0) && t.next == tmp.next
      ensures left <= t.SpaceLen() && |tmp.Data()| + size == |t.Data()| + left
      ensures cs != [] ==> left < |bs[0]|
      ensures goneLwd <==> k0 < |cs0| - |cs|
      ensures goneLwdp <==> 0 < k0 <= |cs0| - |cs|
      ensures mem.Keys <= old(mem.Keys)
    {
      hide Spine, NoDup, Flat, Suffix;
      chain, t, left, goneLwd, goneLwdp, cs, bs := p, tmp, size, false, false, cs0, bs0;
      SpineLen(mem, cs, bs);
      SpineNoDup(mem, cs, bs);
      SuffixAll(cs);
      SuffixAll(bs);
      if cs != [] { SpineAt(mem, cs, bs, 0); }
      while chain != Null && left >= mem[chain.addr].off
        invariant Spine(mem, cs, bs) && chain == PtrAt(cs, 0) && |cs| == |bs| <= |cs0| == |bs0|
        invariant Suffix(cs, cs0) && Suffix(bs, bs0)
        invariant cs != [] ==> Link(mem, cs, bs, 0)
        invariant t.Ok() && t.Data() + Flat(bs) == tmp.Data() + Flat(bs0) && t.next == tmp.next
        invariant left <= t.SpaceLen() && |tmp.Data()| + size == |t.Data()| + left
        invariant goneLwd <==> k0 < |cs0| - |cs|
        invariant goneLwdp <==> 0 < k0 <= |cs0| - |cs|
        invariant mem.Keys <= old(mem.Keys)
        decreases |cs|
      {
        PullStep(mem, cs0, bs0, cs, bs, k0, t.Data());
        var c := mem[chain.addr];
        t := t.Append(c.Data());
        left := left - c.off;
        if chain == To(lwdAddr) {
          goneLwd := true;
        }
        if lastWithDatap == NextOf(chain.addr) {
          goneLwdp := true;
        }
        mem := mem - {chain.addr};
        chain := c.next;
        cs, bs := cs[1..], bs[1..];
        if cs != [] { SpineAt(mem, cs, bs, 0); }
      }
    }

    /** Store the filled chain t at address a in front of the chains cs that are left, the k-th being the last with data. */
    method PullFinish(a: Addr, t: Chain, chain: Ptr, left: nat, goneLwd: bool, goneLwdp: bool,
                      ghost cs: seq<Addr>, ghost bs: seq<Block>, ghost k: int)
      requires first == To(a) && Spine(mem, cs, bs) && |cs| == |bs| && chain == PtrAt(cs, 0) && a !in mem
      requires t.Ok() && left <= t.SpaceLen() && t.Data() + Flat(bs) == Contents() && totalLen == |Contents()|
      requires if cs == [] then left == 0 else left < |bs[0]| && last == To(cs[|cs| - 1])
      requires k < |cs| && (goneLwd <==> k < 0) && (k < 0 ==> cs == [])
      requires goneLwdp ==> k <= 0
      requires k >= 0 && !goneLwdp ==> lastWithDatap == SlotAt([a] + cs, k + 1)
      requires k >= 0 ==> bs[k] != [] && forall i :: k < i < |bs| ==> bs[i] == []
      modifies this`mem, this`last, this`lastWithDatap, this`chains, this`blocks, this`lwd
      ensures Valid() && Contents() == old(Contents())
      ensures first.addr in mem && mem[first.addr].Ok() && mem[first.addr].off == |t.Data()| + left
      ensures chains == [a] + cs && lwd == if k < 0 then 0 else k + 1
      ensures |blocks| == |cs| + 1 && |blocks[0]| == |t.Data()| + left
      ensures (forall i :: 0 <= i < |bs| ==> bs[i] != []) ==> forall i :: 0 < i < |blocks| ==> blocks[i] != []
      ensures mem.Keys <= old(mem.Keys) + {a}
    {
      hide Spine, Flat;
      var u := t;
      ghost var rest := bs;
      if chain != Null {
        SpineAt(mem, cs, bs, 0);
        var c := mem[chain.addr];
        u := t.Append(c.Data()[..left]);
        SpineSet(mem, cs, bs, 0, c.Consume(left));
        mem := mem[chain.addr := c.Consume(left)];
        rest := bs[0 := c.Data()[left..]];
      } else {
        last := To(a);
      }
      PullFlat(t.Data(), bs, left, u.Data(), rest);
      u := u.(next := chain);
      SpineLen(mem, cs, rest);
      SpinePush(mem, cs, rest, a, u);
      mem := mem[a := u];
      if goneLwd {
        lastWithDatap := FirstSlot;
      } else if goneLwdp {
        assert chain != Null && mem[chain.addr].off != 0;
        lastWithDatap := NextOf(a);
      }
      lwd := if goneLwd then 0 else k + 1;
      chains := [a] + cs;
      blocks := [u.Data()] + rest;
    }

    /** The first chain has room for want bytes: pull the rest of them into it. */
    method PullupInPlace(want: nat)
      requires Valid() && 0 < want <= totalLen && 0 < lwd && first.To? && first.addr in mem
      requires mem[first.addr].off < want <= |mem[first.addr].buffer| - mem[first.addr].misalign
      modifies this`mem, this`last, this`lastWithDatap, this`chains, this`blocks, this`lwd
      ensures Valid() && Contents() == old(Contents())
      ensures first.addr in mem && mem[first.addr].Ok() && mem[first.addr].off == want
      ensures old(NoSpareTail()) ==> NoSpareTail()
      ensures old(Dense()) ==> Dense()
      ensures mem.Keys <= old(mem.Keys)
    {
      hide Spine, Flat, Suffix;
      SpineLen(mem, chains, blocks);
      SpineNoDup(mem, chains, blocks);
      SpineAt(mem, chains, blocks, 0);
      SpineAt(mem, chains, blocks, lwd - 1);
      var lwdAddr := Deref(lastWithDatap).addr;
      var c := mem[first.addr];
      ghost var cs0, bs0, k0 := chains[1..], blocks[1..], lwd - 1;
      assert bs0[k0] == blocks[lwd];
      SpinePop(mem, chains, blocks);
      HeadFlat(blocks);
      mem := mem - {first.addr};
      var chain, t, left, goneLwd, goneLwdp, cs, bs := PullChains(c.next, c, want - c.off, lwdAddr, cs0, bs0, k0);
      ghost var k := k0 - (|cs0| - |cs|);
      PullRest(cs0, bs0, k0, cs, bs, k, left, t.Data(), Contents());
      PullFinish(first.addr, t, chain, left, goneLwd, goneLwdp, cs, bs, k);
    }

    method PullupNew(want: nat, a: Addr)
      requires Valid() && 0 < want <= totalLen && 0 < lwd
      requires a !in mem
      modifies this`mem, this`first, this`last, this`lastWithDatap, this`chains, this`blocks, this`lwd
      ensures Valid() && Contents() == old(Contents())
      ensures first.To? && first.addr in mem && mem[first.addr].Ok() && mem[first.addr].off == want
      ensures old(NoSpareTail()) ==> NoSpareTail()
      ensures old(Dense()) ==> Dense()
      ensures mem.Keys <= old(mem.Keys) + {a}
    {
      hide Spine, Flat, Suffix;
      SpineLen(mem, chains, blocks);
      SpineAt(mem, chains, blocks, lwd - 1);
      var lwdAddr := Deref(lastWithDatap).addr;
      ghost var cs0, bs0, k0 := chains, blocks, lwd;
      var tmp := ChainNew(want);
      var chain := first;
      first := To(a);
      assert tmp.Data() + Flat(blocks) == Flat(blocks);
      var rest, t, left, goneLwd, goneLwdp, cs, bs := PullChains(chain, tmp, want, lwdAddr, cs0, bs0, k0);
      ghost var k := k0 - (|cs0| - |cs|);
      PullRest(cs0, bs0, k0, cs, bs, k, left, t.Data(), Contents());
      PullFinish(a, t, rest, left, goneLwd, goneLwdp, cs, bs, k);
    }

    /** evbuffer_pullup: make the first size bytes (all of them when size is negative) one block of memory. */
    method Pullup(size: int, a: Addr) returns (r: Ptr)
      requires Valid()
      requires a !in mem
      modifies this
      ensures Valid() && Contents() == old(Contents())
      ensures freezeStart == old(freezeStart) && freezeEnd == old(freezeEnd)
      ensures r == if 0 < (if size < 0 then totalLen else size) <= totalLen then first else Null
      ensures r != Null <==> 0 < (if size < 0 then totalLen else size) <= totalLen
      ensures r != Null ==> r.addr in mem && mem[r.addr].Ok() && mem[r.addr].off >= if size < 0 then totalLen else size
      ensures old(NoSpareTail()) ==> NoSpareTail()
      ensures old(Dense()) ==> Dense()
      ensures mem.Keys <= old(mem.Keys) + {a}
    {
      hide Spine, Flat;
      SpineLen(mem, chains, blocks);
      var want := if size < 0 then totalLen else size;
      if want == 0 || want > totalLen {
        return Null;
      }
      NonEmpty(blocks);
      SpineAt(mem, chains, blocks, 0);
      var c := mem[first.addr];
      if c.off >= want {
        return first;
      }
      OneChainWithData(blocks, lwd);
      if |c.buffer| - c.misalign >= want {
        PullupInPlace(want);
      } else {
        PullupNew(want, a);
      }
      r := first;
    }
  }

  /** The chains but those from v to i, without the i-th. */
  lemma OneFreed(cs: seq<Addr>, v: nat, i: nat)
    requires NoDup(cs) && v <= i < |cs|
    ensures forall a :: a in cs[..v] || a in cs[i + 1..] <==> (a in cs[..v] || a in cs[i..]) && a != cs[i]
    ensures cs[i] in cs[i..]
  {
    assert cs[i..] == [cs[i]] + cs[i + 1..];
  }

  lemma EndOf(cs: seq<Addr>)
    ensures PtrAt(cs, |cs| - 1) == if cs == [] then Null else To(cs[|cs| - 1])
  {
  }

  lemma NothingBroken(k: nat)
    ensures !Broken([], k) && LastData([], k)
  {
  }

  lemma HasData(bs: seq<Block>, k: nat)
    requires k < |bs| && bs[k] != []
    ensures Flat(bs) != []
  {
    FlatAt(bs, k);
  }

  /** More in the last block, if there is more. */
  ghost function ToppedUp(bs: seq<Block>, w: Block): seq<Block>
    requires bs != []
  {
    if w == [] then bs else bs[|bs| - 1 := bs[|bs| - 1] + w]
  }

  lemma Halves(all: Block, data: Block, n: nat)
    requires n <= |data|
    ensures all + data[..n] + data[n..] == all + data
  {
    assert data == data[..n] + data[n..];
  }

  /** A list bs, its last block topped up with w, and then rest put in a block of its own. */
  lemma Spilled(bs: seq<Block>, bs1: seq<Block>, k: nat, w: Block, rest: Block)
    requires k < |bs| && rest != [] && bs1 == ToppedUp(bs, w)
    ensures var n, v, v1 := |bs|, FirstEmpty(bs, k), FirstEmpty(bs1, k);
            && (Broken(bs1, k) <==> v + 1 < n && (w != [] || Broken(bs, k)))
            && k <= v1 <= |bs1| == n
            && (v1 == n <==> v == n || (v + 1 == n && w != []))
            && LastData(bs1[..v1] + [rest], v1)
            && (LastData(bs1[..v1] + [rest], k) <==> v1 == k)
            && (v1 < n ==> v1 == v)
            && (n <= k + 1 ==> v1 == n || v1 == k)
            && (n == 1 || (forall i :: 0 <= i < n ==> bs[i] != []) ==>
                  v1 == 0 || forall i :: 0 <= i < v1 ==> bs1[i] != [])
  {
    if w != [] {
      Topped(bs, k, w);
    }
    Retailed(bs1, k, FirstEmpty(bs1, k), rest);
  }

  /** What is left of the list after the copy loop of evbuffer_pullup has moved the bytes d. */
  lemma PullRest(cs0: seq<Addr>, bs0: seq<Block>, k0: nat, cs: seq<Addr>, bs: seq<Block>, k: int, left: nat, d: Block, all: Block)
    requires |cs0| == |bs0| && |cs| == |bs| && Suffix(cs, cs0) && Suffix(bs, bs0)
    requires k0 < |cs0| && k == k0 - (|cs0| - |cs|)
    requires bs0[k0] != [] && forall i :: k0 < i < |bs0| ==> bs0[i] == []
    requires d + Flat(bs) == all && |d| + left <= |all|
    requires cs != [] ==> left < |bs[0]|
    ensures if cs == [] then left == 0 && k < 0 else k >= 0 && cs[|cs| - 1] == cs0[|cs0| - 1]
    ensures k >= 0 ==> bs[k] != [] && forall i :: k < i < |bs| ==> bs[i] == []
    ensures k > 0 ==> cs[k - 1] == cs0[k0 - 1]
    ensures (forall i :: 0 <= i < |bs0| ==> bs0[i] != []) ==> forall i :: 0 <= i < |bs| ==> bs[i] != []
  {
    var m := |cs0| - |cs|;
    assert forall i :: 0 <= i < |bs| ==> bs[i] == bs0[m + i];
    assert forall i :: 0 <= i < |cs| ==> cs[i] == cs0[m + i];
  }

  /** If the first block is the last one with data, it holds every byte. */
  lemma OneChainWithData(bs: seq<Block>, k: nat)
    requires k < |bs| && forall i :: k < i < |bs| ==> bs[i] == []
    ensures k == 0 ==> Flat(bs) == bs[0]
  {
    FlatLastData(bs, k);
    assert k == 0 ==> bs[k..] == bs;
  }

  lemma NonEmpty(bs: seq<Block>)
    ensures bs == [] ==> Flat(bs) == []
  {
  }

  lemma HeadFlat(bs: seq<Block>)
    requires bs != []
    ensures bs[0] + Flat(bs[1..]) == Flat(bs)
  {
  }

  /** Moving the first n bytes of the first block in front of it leaves the bytes as they are. */
  lemma PullFlat(d: Block, bs: seq<Block>, n: nat, u: Block, rest: seq<Block>)
    requires if bs == [] then u == d && rest == bs
             else n <= |bs[0]| && u == d + bs[0][..n] && rest == bs[0 := bs[0][n..]]
    ensures Flat([u] + rest) == d + Flat(bs)
  {
    assert ([u] + rest)[1..] == rest;
    if bs != [] {
      assert rest[1..] == bs[1..];
    }
  }

  /** One step of the copy loop of evbuffer_pullup. */
  lemma PullStep(mem: Memory, cs0: seq<Addr>, bs0: seq<Block>, cs: seq<Addr>, bs: seq<Block>, k: nat, d: Block)
    requires Spine(mem, cs, bs) && cs != [] && Suffix(cs, cs0) && Suffix(bs, bs0)
    requires k < |cs0| && NoDup(cs0)
    ensures Suffix(cs[1..], cs0) && Suffix(bs[1..], bs0)
    ensures Spine(mem - {cs[0]}, cs[1..], bs[1..])
    ensures cs[0] == cs0[k] <==> k == |cs0| - |cs|
    ensures k > 0 ==> (cs[0] == cs0[k - 1] <==> k - 1 == |cs0| - |cs|)
    ensures cs[0] in cs0
    ensures (d + bs[0]) + Flat(bs[1..]) == d + Flat(bs)
  {
    SpinePop(mem, cs, bs);
    SuffixTail(cs, cs0);
    SuffixTail(bs, bs0);
  }

  lemma TakeOneMore(bs: seq<Block>, i: nat)
    requires i < |bs|
    ensures Flat(bs[..i + 1]) == Flat(bs[..i]) + bs[i]
  {
    FlatSplit(bs[..i + 1], i);
    assert bs[..i + 1][..i] == bs[..i] && bs[..i + 1][i..] == [bs[i]];
    FlatSingle(bs[i]);
  }

  /** One step of the loop of evbuffer_drain. */
  lemma DrainStep(mem: Memory, cs0: seq<Addr>, bs0: seq<Block>, cs: seq<Addr>, bs: seq<Block>, k: nat, left: nat)
    requires Spine(mem, cs, bs) && |cs0| == |bs0| && |cs| == |bs| && k < |cs| && Suffix(cs, cs0) && Suffix(bs, bs0)
    requires forall i :: k + |cs0| - |cs| < i < |bs0| ==> bs0[i] == []
    requires |bs[0]| <= left < |Flat(bs)|
    ensures Spine(mem - {cs[0]}, cs[1..], bs[1..]) && Suffix(cs[1..], cs0) && Suffix(bs[1..], bs0)
    ensures 0 < k && cs[k - 1] in mem && mem[cs[k - 1]].next == To(cs[k]) && cs[k] != cs[0]
    ensures cs[k - 1] == cs[0] <==> k == 1
    ensures Suffix(Flat(bs[1..]), Flat(bs)) && |Flat(bs[1..])| == |Flat(bs)| - |bs[0]|
  {
    SpinePop(mem, cs, bs);
    SuffixTail(cs, cs0);
    SuffixTail(bs, bs0);
    assert forall i :: 0 <= i < |bs| ==> bs[i] == bs0[|bs0| - |bs| + i];
    OneChainWithData(bs, k);
    SpineAt(mem, cs, bs, k - 1);
    SpineNoDup(mem, cs, bs);
  }

  /** What is left of the list after the loop of evbuffer_drain. */
  lemma DrainRest(cs0: seq<Addr>, bs0: seq<Block>, k0: nat, cs: seq<Addr>, bs: seq<Block>, k: nat)
    requires |cs0| == |bs0| && |cs| == |bs| && k < |cs| && Suffix(cs, cs0) && Suffix(bs, bs0)
    requires |cs0| - k0 == |cs| - k
    requires 0 < k0 < |bs0| ==> bs0[k0] != []
    requires forall i :: k0 < i < |bs0| ==> bs0[i] == []
    ensures cs[|cs| - 1] == cs0[|cs0| - 1]
    ensures k > 0 ==> bs[k] != []
    ensures forall i :: k < i < |bs| ==> bs[i] == []
    ensures (forall i :: 0 <= i < |bs0| ==> bs0[i] != []) ==> forall i :: 0 <= i < |bs| ==> bs[i] != []
  {
    assert forall i :: 0 <= i < |bs| ==> bs[i] == bs0[|bs0| - |bs| + i];
    assert cs[|cs| - 1] == cs0[|cs0| - |cs| + (|cs| - 1)];
  }

  lemma ConsumeFlat(bs: seq<Block>, n: nat)
    requires bs != [] && n <= |bs[0]|
    ensures Flat(bs[0 := bs[0][n..]]) == Flat(bs)[n..]
  {
    assert bs[0 := bs[0][n..]][1..] == bs[1..];
  }
}
