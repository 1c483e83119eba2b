/** Chain memory: evbuffer chains as records at addresses, linked by next pointers. */
module ChainList {
  import opened Bytes
  import opened Seqs

  type Addr = nat

  datatype Ptr = Null | To(addr: Addr)

  /** A place that holds a chain pointer: the buffer's first field or some chain's next field. */
  datatype Slot = FirstSlot | NextOf(chain: Addr)

  const MIN_BUFFER_SIZE: nat := 1024
  const CHAIN_HEADER_SIZE: nat := 48
  const MAX_TO_REALIGN_IN_EXPAND: nat := 2048

  datatype Chain = Chain(next: Ptr, buffer: Block, misalign: nat, off: nat)
  {
    predicate Ok()
    {
      0 < |buffer| && misalign + off <= |buffer|
    }

    /** The bytes stored. */
    function Data(): Block
      requires Ok()
    {
      buffer[misalign..misalign + off]
    }

    /** The unused room after the stored bytes. */
    function SpaceLen(): nat
      requires Ok()
    {
      |buffer| - (misalign + off)
    }

    /** The same, of anything. */
    function Room(): nat
    {
      if Ok() then SpaceLen() else 0
    }

    predicate ShouldRealign(datlen: nat)
      requires Ok()
    {
      && |buffer| - off >= datlen
      && off < |buffer| / 2
      && off <= MAX_TO_REALIGN_IN_EXPAND
    }

    /** There is room for n more bytes, perhaps after realigning. */
    predicate Takes(n: nat)
    {
      Ok() && (n <= SpaceLen() || ShouldRealign(n))
    }

    /** memcpy of data over buffer[at..]. */
    function Write(at: nat, data: Block): (c: Chain)
      requires at + |data| <= |buffer|
      ensures |c.buffer| == |buffer| && c.buffer[at..at + |data|] == data
      ensures c.buffer[..at] == buffer[..at] && c.buffer[at + |data|..] == buffer[at + |data|..]
    {
      this.(buffer := buffer[..at] + data + buffer[at + |data|..])
    }

    /** Copy data right after the stored bytes. */
    function Append(data: Block): (c: Chain)
      requires Ok() && |data| <= SpaceLen()
      ensures c.Ok() && c.Data() == Data() + data && c.next == next
      ensures |c.buffer| == |buffer| && c.misalign == misalign && c.off == off + |data|
    {
      Write(misalign + off, data).(off := off + |data|)
    }

    /** memmove the stored bytes to the start of the buffer. */
    function Align(): (c: Chain)
      requires Ok()
      ensures c.Ok() && c.Data() == Data() && c.next == next
      ensures |c.buffer| == |buffer| && c.misalign == 0 && c.off == off
    {
      Write(0, Data()).(misalign := 0)
    }

    /** Copy data after the stored bytes, realigning them if there is no room otherwise. */
    function Grown(data: Block): (c: Chain)
      requires Ok() && |data| <= |buffer| - off
      ensures c.Ok() && c.Data() == Data() + data && |c.buffer| == |buffer| && c.next == next && c.off == off + |data|
    {
      if |data| <= SpaceLen() then Append(data) else Align().Append(data)
    }

    /** Copy data right before the stored bytes. */
    function Prepend(data: Block): (c: Chain)
      requires Ok() && |data| <= misalign
      ensures c.Ok() && c.Data() == data + Data() && c.next == next
      ensures |c.buffer| == |buffer| && c.misalign == misalign - |data| && c.off == off + |data|
    {
      var c := Write(misalign - |data|, data).(misalign := misalign - |data|, off := off + |data|);
      assert c.Data() == c.buffer[misalign - |data|..misalign] + c.buffer[misalign..misalign + off];
      assert c.buffer[misalign..misalign + off] == c.buffer[misalign..][..off] == buffer[misalign..][..off];
      c
    }

    /** Give up the first n stored bytes. */
    function Consume(n: nat): (c: Chain)
      requires Ok() && n <= off
      ensures c.Ok() && c.Data() == Data()[n..] && c.next == next
    {
      this.(misalign := misalign + n, off := off - n)
    }
  }

  /** A new chain with room for at least size bytes: header and buffer share one power-of-two block. */
  method ChainNew(size: nat) returns (c: Chain)
    ensures c.Ok() && c.next == Null && c.misalign == 0 && c.off == 0
    ensures size <= |c.buffer| && MIN_BUFFER_SIZE <= |c.buffer| + CHAIN_HEADER_SIZE
    ensures |c.buffer| + CHAIN_HEADER_SIZE == MIN_BUFFER_SIZE
         || |c.buffer| + CHAIN_HEADER_SIZE < 2 * (size + CHAIN_HEADER_SIZE)
  {
    var toAlloc := MIN_BUFFER_SIZE;
    while toAlloc < size + CHAIN_HEADER_SIZE
      invariant MIN_BUFFER_SIZE <= toAlloc
      invariant toAlloc == MIN_BUFFER_SIZE || toAlloc < 2 * (size + CHAIN_HEADER_SIZE)
      decreases size + CHAIN_HEADER_SIZE - toAlloc
    {
      toAlloc := toAlloc * 2;
    }
    c := Chain(Null, seq(toAlloc - CHAIN_HEADER_SIZE, _ => 0), 0, 0);
  }

  type Memory = map<Addr, Chain>

  ghost function PtrAt(cs: seq<Addr>, i: int): Ptr
  {
    if 0 <= i < |cs| then To(cs[i]) else Null
  }

  lemma PtrIs(cs: seq<Addr>, i: nat)
    requires i <= |cs|
    ensures PtrAt(cs, i) == if i < |cs| then To(cs[i]) else Null
  {
  }

  /** The slot that points at chain i. */
  ghost function SlotAt(cs: seq<Addr>, i: nat): Slot
    requires i <= |cs|
  {
    if i == 0 then FirstSlot else NextOf(cs[i - 1])
  }

  /** Chain i of the list cs is live, holds block i and points at chain i + 1. */
  ghost predicate Link(mem: Memory, cs: seq<Addr>, bs: seq<Block>, i: nat)
    requires i < |cs| == |bs|
  {
    && cs[i] in mem
    && mem[cs[i]].Ok()
    && mem[cs[i]].Data() == bs[i]
    && mem[cs[i]].next == PtrAt(cs, i + 1)
  }

  /** mem consists of exactly the chains cs, linked in that order, and chain i holds block i. */
  ghost predicate Spine(mem: Memory, cs: seq<Addr>, bs: seq<Block>)
  {
    && |cs| == |bs|
    && NoDup(cs)
    && (forall a :: a in mem ==> a in cs)
    && (forall i :: 0 <= i < |cs| ==> Link(mem, cs, bs, i))
  }

  lemma SpineLen(mem: Memory, cs: seq<Addr>, bs: seq<Block>)
    requires Spine(mem, cs, bs)
    ensures |cs| == |bs|
    ensures forall a :: a in mem <==> a in cs
  {
    forall a | a in cs ensures a in mem {
      var i :| 0 <= i < |cs| && cs[i] == a;
      assert Link(mem, cs, bs, i);
    }
  }

  lemma SpineNoDup(mem: Memory, cs: seq<Addr>, bs: seq<Block>)
    requires Spine(mem, cs, bs)
    ensures NoDup(cs)
  {
  }

  lemma SpineAt(mem: Memory, cs: seq<Addr>, bs: seq<Block>, i: nat)
    requires Spine(mem, cs, bs) && i < |cs|
    ensures |cs| == |bs| && cs[i] in mem && mem[cs[i]].Ok() && mem[cs[i]].Data() == bs[i]
    ensures mem[cs[i]].next == PtrAt(cs, i + 1)
    ensures mem[cs[i]].off == |bs[i]|
  {
    assert Link(mem, cs, bs, i);
  }

  /** Cut the list at v and put the one chain a there. */
  lemma SpineRetail(mem: Memory, cs: seq<Addr>, bs: seq<Block>, v: nat, a: Addr, c: Chain, mem': Memory)
    requires Spine(mem, cs, bs)
    requires v <= |cs| && a !in cs && c.Ok() && c.next == Null
    requires forall x :: x in mem' <==> x == a || x in cs[..v]
    requires mem'[a] == c
    requires forall x :: x in cs[..v] && x != cs[v - 1] ==> x in mem && mem'[x] == mem[x]
    requires v > 0 ==> cs[v - 1] in mem && mem'[cs[v - 1]] == mem[cs[v - 1]].(next := To(a))
    ensures Spine(mem', cs[..v] + [a], bs[..v] + [c.Data()])
  {
    var cs', bs' := cs[..v] + [a], bs[..v] + [c.Data()];
    forall i | 0 <= i < |cs'| ensures Link(mem', cs', bs', i) {
      if i < v {
        assert Link(mem, cs, bs, i);
        assert cs[i] in cs[..v];
      }
    }
  }

  /** Replace chain i by c, which has the same successor. */
  lemma SpineSet(mem: Memory, cs: seq<Addr>, bs: seq<Block>, i: nat, c: Chain)
    requires Spine(mem, cs, bs) && i < |cs|
    requires c.Ok() && c.next == PtrAt(cs, i + 1)
    ensures Spine(mem[cs[i] := c], cs, bs[i := c.Data()])
  {
    var mem', bs' := mem[cs[i] := c], bs[i := c.Data()];
    forall j | 0 <= j < |cs| ensures Link(mem', cs, bs', j) {
      assert Link(mem, cs, bs, j);
    }
  }

  /** Put a new chain in front. */
  lemma SpinePush(mem: Memory, cs: seq<Addr>, bs: seq<Block>, a: Addr, c: Chain)
    requires Spine(mem, cs, bs)
    requires a !in cs && c.Ok() && c.next == PtrAt(cs, 0)
    ensures Spine(mem[a := c], [a] + cs, [c.Data()] + bs)
  {
    var mem', cs', bs' := mem[a := c], [a] + cs, [c.Data()] + bs;
    forall i | 0 <= i < |cs'| ensures Link(mem', cs', bs', i) {
      if i > 0 {
        assert Link(mem, cs, bs, i - 1);
      }
    }
  }

  /** Free the first chain. */
  lemma SpinePop(mem: Memory, cs: seq<Addr>, bs: seq<Block>)
    requires Spine(mem, cs, bs) && cs != []
    ensures Spine(mem - {cs[0]}, cs[1..], bs[1..])
  {
    var mem', cs', bs' := mem - {cs[0]}, cs[1..], bs[1..];
    forall i | 0 <= i < |cs'| ensures Link(mem', cs', bs', i) {
      assert Link(mem, cs, bs, i + 1);
    }
  }

  /** Link two lists that share no chain. */
  lemma SpineJoin(m1: Memory, cs1: seq<Addr>, bs1: seq<Block>, m2: Memory, cs2: seq<Addr>, bs2: seq<Block>, m: Memory)
    requires Spine(m1, cs1, bs1) && Spine(m2, cs2, bs2) && cs1 != [] && m1.Keys !! m2.Keys
    requires var l := cs1[|cs1| - 1]; l in m1 && m == m1[l := m1[l].(next := PtrAt(cs2, 0))] + m2
    ensures Spine(m, cs1 + cs2, bs1 + bs2)
  {
    var cs, bs := cs1 + cs2, bs1 + bs2;
    SpineLen(m1, cs1, bs1);
    SpineLen(m2, cs2, bs2);
    forall i, j | 0 <= i < j < |cs| ensures cs[i] != cs[j] {
      if i < |cs1| <= j {
        assert cs1[i] in m1 && cs2[j - |cs1|] in m2;
      }
    }
    forall i | 0 <= i < |cs| ensures Link(m, cs, bs, i) {
      if i < |cs1| {
        assert Link(m1, cs1, bs1, i);
      } else {
        assert Link(m2, cs2, bs2, i - |cs1|);
      }
    }
  }

  /** The first i chains, cut off after the last of them. */
  lemma SpineTake(mem: Memory, cs: seq<Addr>, bs: seq<Block>, i: nat, m: Memory)
    requires Spine(mem, cs, bs) && 0 < i <= |cs|
    requires forall a :: a in m <==> a in cs[..i]
    requires forall a :: a in m && a != cs[i - 1] ==> a in mem && m[a] == mem[a]
    requires cs[i - 1] in mem && m[cs[i - 1]] == mem[cs[i - 1]].(next := Null)
    ensures Spine(m, cs[..i], bs[..i])
  {
    forall j | 0 <= j < i ensures Link(m, cs[..i], bs[..i], j) {
      assert Link(mem, cs, bs, j);
      assert cs[j] in cs[..i];
    }
  }

  /** The chains from i on. */
  lemma SpineSkip(mem: Memory, cs: seq<Addr>, bs: seq<Block>, i: nat, m: Memory)
    requires Spine(mem, cs, bs) && i <= |cs|
    requires forall a :: a in m <==> a in mem && a !in cs[..i]
    requires forall a :: a in m ==> m[a] == mem[a]
    ensures Spine(m, cs[i..], bs[i..])
  {
    forall j | 0 <= j < |cs| - i ensures Link(m, cs[i..], bs[i..], j) {
      assert Link(mem, cs, bs, i + j);
      assert cs[i + j] !in cs[..i];
    }
    forall a | a in m ensures a in cs[i..] {
      var j :| 0 <= j < |cs| && cs[j] == a;
      assert cs[i..][j - i] == a;
    }
  }

  lemma SpineNone()
    ensures Spine(map[], [], [])
  {
  }

  /** Put a new chain c, allocated at a, in the place of chain i. */
  lemma SpineReplace(mem: Memory, cs: seq<Addr>, bs: seq<Block>, i: nat, a: Addr, c: Chain, m: Memory)
    requires Spine(mem, cs, bs) && i < |cs| && a !in mem
    requires c.Ok() && c.Data() == bs[i] && c.next == PtrAt(cs, i + 1)
    requires forall x :: x in m <==> x == a || (x in mem && x != cs[i])
    requires m[a] == c
    requires forall x :: x in m && x != a && (i > 0 ==> x != cs[i - 1]) ==> m[x] == mem[x]
    requires i > 0 ==> cs[i - 1] in m && cs[i - 1] in mem && m[cs[i - 1]] == mem[cs[i - 1]].(next := To(a))
    ensures Spine(m, cs[i := a], bs)
  {
    SpineLen(mem, cs, bs);
    var cs' := cs[i := a];
    forall j, l | 0 <= j < l < |cs'| ensures cs'[j] != cs'[l] {
      assert cs[j] in mem && cs[l] in mem;
    }
    forall j | 0 <= j < |cs| ensures Link(m, cs', bs, j) {
      assert Link(mem, cs, bs, j);
    }
    forall x | x in m ensures x in cs' {
      if x == a {
        assert cs'[i] == a;
      } else {
        var j :| 0 <= j < |cs| && cs[j] == x;
        assert cs'[j] == x;
      }
    }
  }
}
