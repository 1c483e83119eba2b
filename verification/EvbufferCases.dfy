/** Calls on new evbuffers that lead where an evbuffer goes wrong: the conditions of the other modules can be met. */
module EvbufferCases {
  import opened Bytes
  import opened ChainList
  import opened Evbuffer
  import opened EvbufferMove
  import opened EvbufferReserve

  /** All data is in the first of n chains, at 0, which is c and has some room, and there is room in the last one. */
  ghost predicate Spare(b: EvBuffer, c: Chain, n: nat)
    reads b
  {
    && b.Valid() && !b.freezeStart && !b.freezeEnd && |b.chains| == |b.blocks| == n && b.lwd == 0
    && 0 < n && b.chains[0] == 0 && 0 in b.mem && b.mem[0] == c.(next := b.mem[0].next)
    && c.Ok() && c.off > 0 && c.SpaceLen() > 0 && b.Contents() == c.Data() == b.blocks[0]
    && b.last == To(b.chains[n - 1]) && b.chains[n - 1] in b.mem && b.mem[b.chains[n - 1]].Ok() && b.RoomInLast() > 0
    && b.first == To(0) && forall a :: a in b.mem ==> a < n
  }

  lemma OneBlock(b: EvBuffer)
    requires b.Valid() && b.chains == [0]
    ensures 0 in b.mem && b.mem[0].Ok() && b.lwd == 0 && b.blocks == [b.mem[0].Data()] && b.Contents() == b.mem[0].Data()
    ensures b.first == To(0) == b.last
  {
    hide Flat;
    SpineAt(b.mem, b.chains, b.blocks, 0);
    assert b.blocks == [b.mem[0].Data()];
    FlatSingle(b.mem[0].Data());
  }

  /** evbuffer_add of one byte, and then of enough to leave just one byte of room. */
  method OneChain(full: bool) returns (b: EvBuffer)
    ensures fresh(b) && 0 in b.mem && Spare(b, b.mem[0], 1) && |b.mem[0].buffer| >= 976
    ensures b.mem[0].misalign == 0 && (full ==> b.mem[0].SpaceLen() == 1)
  {
    hide Spine, Flat, FirstEmpty, LastData;
    b := new EvBuffer();
    b.AddWhenRight(1);
    var _, _ := b.Add([7], 0);
    OneBlock(b);
    if full {
      var rest := seq(b.mem[0].SpaceLen() - 1, _ => 7);
      b.AddWhenRight(|rest|);
      var _, _ := b.Add(rest, 1);
      OneBlock(b);
    }
  }

  lemma LensAre(vecs: seq<Vec>)
    ensures |vecs| == 0 ==> Lens(vecs) == 0
    ensures |vecs| == 1 ==> Lens(vecs) == vecs[0].len
    ensures |vecs| == 2 ==> Lens(vecs) == vecs[0].len + vecs[1].len
    ensures |vecs| == 3 ==> Lens(vecs) == vecs[0].len + vecs[1].len + vecs[2].len
  {
    if |vecs| > 0 { LensOneMore(vecs, 0); assert vecs[..0] == []; }
    if |vecs| > 1 { LensOneMore(vecs, 1); }
    if |vecs| > 2 { LensOneMore(vecs, 2); }
    assert vecs[..|vecs|] == vecs;
  }

  /** What a vector is offered from. */
  lemma OfferIs(b: EvBuffer, vecs: seq<Vec>, i: nat)
    requires Offered(b.mem, b.chains, FirstSpace(b.mem, b.chains, b.lwd), vecs) && i < |vecs|
    ensures var f := FirstSpace(b.mem, b.chains, b.lwd);
            f + i < |b.chains| && b.chains[f + i] in b.mem && vecs[i].len <= Space(b.mem, b.chains[f + i]) <= |b.mem[b.chains[f + i]].buffer|
  {
    assert OfferAt(b.mem, b.chains, FirstSpace(b.mem, b.chains, b.lwd), vecs, i);
  }

  /** With all data in chain 0 every other chain is empty. */
  lemma FirstHasAll(b: EvBuffer, c: Chain)
    requires b.Valid() && b.lwd == 0 && b.chains != [] && b.chains[0] == 0 && c.Ok() && b.Contents() == c.Data()
    ensures |b.chains| == |b.blocks| && b.blocks[0] == c.Data() && forall i :: 0 < i < |b.blocks| ==> b.blocks[i] == []
    ensures b.last == To(b.chains[|b.chains| - 1]) && b.last.addr in b.mem && b.mem[b.last.addr].Ok() && b.first == To(0)
  {
    hide Flat;
    SpineLen(b.mem, b.chains, b.blocks);
    SpineAt(b.mem, b.chains, b.blocks, |b.chains| - 1);
    OneChainWithData(b.blocks, 0);
  }

  /** evbuffer_reserve_space for more than there is room for: there is a spare chain. */
  method OneSpare(b: EvBuffer) returns (c1: Addr)
    requires 0 in b.mem && Spare(b, b.mem[0], 1) && |b.mem[0].buffer| >= 976
    modifies b
    ensures old(0 in b.mem) && Spare(b, old(b.mem[0]), 2) && c1 == b.chains[1]
    ensures Space(b.mem, c1) + old(b.mem[0].SpaceLen()) >= 976
  {
    hide Spine, Flat, FirstEmpty, LastData, Lens, Offered;
    var c := b.mem[0];
    var r, vecs := ReserveSpace(b, |c.buffer|, 2, 1);
    LensAre(vecs);
    FirstHasAll(b, c);
    if |vecs| > 0 { OfferIs(b, vecs, 0); }
    if |vecs| > 1 { OfferIs(b, vecs, 1); }
    c1 := b.last.addr;
  }

  /** And again: there are two. */
  method TwoSpares(b: EvBuffer, c: Chain, c1: Addr) returns (c2: Addr)
    requires Spare(b, c, 2) && c1 == b.chains[1]
    modifies b
    ensures Spare(b, c, 3) && b.chains[1] == c1 && c2 == b.chains[2] && Space(b.mem, c1) >= old(Space(b.mem, c1))
  {
    hide Spine, Flat, FirstEmpty, LastData, Lens, Offered;
    var want := |c.buffer| + |b.mem[c1].buffer| + 1;
    var r, vecs := ReserveSpace(b, want, 3, 2);
    LensAre(vecs);
    FirstHasAll(b, c);
    assert SizedAt(old(b.mem), b.mem, old(b.chains)[1]);
    if |vecs| > 0 { OfferIs(b, vecs, 0); }
    if |vecs| > 1 { OfferIs(b, vecs, 1); }
    if |vecs| > 2 { OfferIs(b, vecs, 2); }
    c2 := b.last.addr;
  }

  /** A byte added where there is a spare chain goes there, and last_with_datap is wrong. */
  method SpareFilled() returns (b: EvBuffer)
    ensures fresh(b) && b.Linked() && !b.LwdRight()
  {
    hide Spine, Flat, FirstEmpty, LastData;
    b := OneChain(false);
    var _ := OneSpare(b);
    var _, _ := b.Add([8], 2);
  }

  /** With two spare chains, data too large for the last one fails the assertion of evbuffer_chain_insert. */
  method AddAborts() returns (b: EvBuffer, aborted: bool)
    ensures fresh(b) && aborted
  {
    hide Spine, Flat, LastData;
    b := OneChain(false);
    ghost var c := b.mem[0];
    var c1 := OneSpare(b);
    var c2 := TwoSpares(b, b.mem[0], c1);
    var data := seq(|b.mem[c2].buffer| + 1, _ => 8);
    b.AddWhenRight(|data|);
    var r;
    r, aborted := b.Add(data, 3);
  }

  /** With two spare chains, a byte committed to the last one leaves last_with_datap behind. */
  method CommitLeavesBehind() returns (b: EvBuffer, r: int)
    ensures fresh(b) && r == 0 && b.Linked() && !b.LwdRight()
  {
    hide Spine, Flat, FirstEmpty, LastData;
    b := OneChain(false);
    var c1 := OneSpare(b);
    var c2 := TwoSpares(b, b.mem[0], c1);
    r := CommitSpace(b, [Vec(c2, b.mem[c2].misalign + b.mem[c2].off, 1)]);
  }

  /** With two spare chains, room reserved in one vector is in the middle one and cannot be committed. */
  method ReservedAndRefused() returns (b: EvBuffer, n: int, r: int)
    ensures fresh(b) && n == 1 && r == -1
  {
    hide Spine, Flat, FirstEmpty, LastData;
    b := OneChain(true);
    var c1 := OneSpare(b);
    var c2 := TwoSpares(b, b.mem[0], c1);
    assert PassedOver(b, 200);
    var vecs;
    n, vecs := ReserveSpace(b, 200, 1, 3);
    r := CommitSpace(b, vecs);
  }

  /** Two bytes, in the second of two chains. */
  ghost predicate SecondOnly(b: EvBuffer)
    reads b
  {
    && b.Valid() && !b.freezeStart && !b.freezeEnd && |b.chains| == |b.blocks| == 2 && b.lwd == 1
    && b.blocks[0] == [] && |b.blocks[1]| == 2 && forall a :: a in b.mem ==> a < 2
  }

  /** Room reserved twice in a new buffer: two empty chains. */
  method TwoEmpty() returns (b: EvBuffer)
    ensures fresh(b) && b.Valid() && !b.freezeStart && !b.freezeEnd && b.blocks == [[], []] && |b.chains| == 2 && b.lwd == 0
    ensures b.last == To(b.chains[1]) && b.last.addr in b.mem && b.mem[b.last.addr].Ok() && b.RoomInLast() >= 2
    ensures forall a :: a in b.mem ==> a < 2
  {
    hide Spine, Flat, FirstEmpty, LastData, Lens, Offered;
    b := new EvBuffer();
    var _, _ := ReserveSpace(b, 1, 2, 0);
    EmptyAtFirst(b);
    var size := |b.mem[b.first.addr].buffer|;
    ghost var m := b.mem;
    var _, vecs := ReserveSpace(b, size + 2, 2, 1);
    EmptyAtFirst(b);
    LensAre(vecs);
    assert SizedAt(m, b.mem, b.chains[0]);
    if |vecs| > 0 { OfferIs(b, vecs, 0); }
    if |vecs| > 1 { OfferIs(b, vecs, 1); }
    assert b.blocks == [[], []];
  }

  lemma EmptyAtFirst(b: EvBuffer)
    requires b.Valid() && b.chains != [] && b.lwd == 0 && b.Contents() == []
    ensures |b.chains| == |b.blocks| && forall i :: 0 <= i < |b.blocks| ==> b.blocks[i] == []
    ensures b.first == To(b.chains[0]) && b.chains[0] in b.mem && b.mem[b.chains[0]].Ok()
    ensures b.last == To(b.chains[|b.chains| - 1]) && b.last.addr in b.mem && b.mem[b.last.addr].Ok()
  {
    hide Flat;
    SpineLen(b.mem, b.chains, b.blocks);
    SpineAt(b.mem, b.chains, b.blocks, 0);
    SpineAt(b.mem, b.chains, b.blocks, |b.chains| - 1);
    OneChainWithData(b.blocks, 0);
  }

  /** Of the room in two empty chains, only that in the second is used. */
  method BehindEmpty() returns (b: EvBuffer)
    ensures fresh(b) && SecondOnly(b)
  {
    hide Spine, Flat, FirstEmpty;
    b := TwoEmpty();
    SpineLen(b.mem, b.chains, b.blocks);
    var c1 := b.last.addr;
    var v := Vec(c1, b.mem[c1].misalign + b.mem[c1].off, 2);
    ghost var w := VecBytes(b.mem, v);
    var _ := CommitSpace(b, [v]);
    SpineLen(b.mem, b.chains, b.blocks);
    assert b.blocks == [[], [] + w] && |w| == 2;
    assert b.blocks[1] != [];
  }

  lemma SecondOnlyIs(b: EvBuffer)
    requires SecondOnly(b)
    ensures |b.Contents()| == 2 && Behind(b) && WholeAt(b.blocks, 1) == 1 && Flat(b.blocks[..1]) == []
  {
    FlatAt(b.blocks, 1);
    FlatEmpty(b.blocks[..1]);
    assert b.blocks[2..] == [];
  }

  /** One of the two bytes moved to another buffer: last_with_datap is wrong. */
  method RemovedFromBehind() returns (src: EvBuffer, dst: EvBuffer, n: int)
    ensures fresh(src) && fresh(dst) && src != dst && src.Linked() && dst.Valid() && n == 1 && !src.LwdRight()
  {
    hide Spine, Flat, FirstEmpty, WholeAt;
    src := BehindEmpty();
    SecondOnlyIs(src);
    dst := new EvBuffer();
    dst.AddWhenRight(1);
    var aborted;
    n, aborted := RemoveBuffer(src, dst, 1, 2);
  }
}
