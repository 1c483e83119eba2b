/** Searching an evbuffer across chain boundaries and reading lines from it. */
module EvbufferSearch {
  import opened Bytes
  import opened ChainList
  import opened Evbuffer
  import opened Seqs

  const CR: Byte := 13
  const LF: Byte := 10
  const CHUNK_SZ: nat := 128

  /** evbuffer_ptr: a position in the flat contents and the chain and offset it falls on. */
  datatype BufPtr = BufPtr(pos: int, chain: Ptr, posInChain: nat)

  /** Position pos of the flat contents, as offset off of chain i. */
  ghost predicate Denotes(cs: seq<Addr>, bs: seq<Block>, p: BufPtr, i: nat)
  {
    && i <= |cs| == |bs|
    && p.chain == PtrAt(cs, i)
    && p.posInChain <= (if i < |bs| then |bs[i]| else 0)
    && p.pos == |Flat(bs[..i])| + p.posInChain
  }

  /** what occurs in text at position k. */
  predicate OccursAt(text: Block, what: Block, k: int)
  {
    0 <= k <= k + |what| <= |text| && text[k..k + |what|] == what
  }

  /** memchr: the first position from start on that holds b, or |data|. */
  method Memchr(data: Block, start: nat, b: Byte) returns (i: nat)
    requires start <= |data|
    ensures start <= i <= |data| && (i < |data| ==> data[i] == b)
    ensures forall j :: start <= j < i ==> data[j] != b
  {
    i := start;
    while i < |data| && data[i] != b
      invariant start <= i <= |data| && forall j :: start <= j < i ==> data[j] != b
    {
      i := i + 1;
    }
  }

  /** Byte q of block i is byte |Flat(bs[..i])| + q of the contents. */
  lemma FlatIndex(bs: seq<Block>, i: nat, q: nat)
    requires i < |bs| && q < |bs[i]|
    ensures |Flat(bs[..i])| + q < |Flat(bs)| && Flat(bs)[|Flat(bs[..i])| + q] == bs[i][q]
  {
    FlatAt(bs, i);
  }

  /** Bytes [from, to) of what are those of text after position pos. */
  ghost predicate Agree(text: Block, pos: nat, what: Block, from: nat, to: nat)
    requires to <= |what| && pos + to <= |text|
  {
    forall j :: from <= j < to ==> text[pos + j] == what[j]
  }

  lemma AgreeOccurs(text: Block, pos: nat, what: Block)
    requires pos + |what| <= |text|
    ensures Agree(text, pos, what, 0, |what|) <==> OccursAt(text, what, pos)
  {
    var piece := text[pos..pos + |what|];
    assert forall j :: 0 <= j < |what| ==> piece[j] == text[pos + j];
  }

  lemma AgreeJoin(text: Block, pos: nat, what: Block, from: nat, mid: nat, to: nat)
    requires from <= mid <= to <= |what| && pos + |what| <= |text|
    ensures Agree(text, pos, what, from, to) <==> Agree(text, pos, what, from, mid) && Agree(text, pos, what, mid, to)
  {
  }

  /** evbuffer_ptr_memcmp: does what occur at pos? */
  method PtrMatches(buf: EvBuffer, pos: BufPtr, what: Block, ghost i0: nat) returns (equal: bool)
    requires buf.Valid() && Denotes(buf.chains, buf.blocks, pos, i0)
    ensures equal <==> OccursAt(buf.Contents(), what, pos.pos)
  {
    hide Spine, Flat, LastData, Agree;
    if pos.pos + |what| > buf.totalLen {
      return false;
    }
    ghost var cs, bs, text := buf.chains, buf.blocks, buf.Contents();
    var chain := pos.chain;
    var position: nat, done: nat := pos.posInChain, 0;
    ghost var i := i0;
    assert bs[..|bs|] == bs;
    AgreeOccurs(text, pos.pos, what);
    AgreeNone(text, pos.pos, what);
    while done < |what| && chain != Null
      invariant i <= |cs| == |bs| && chain == PtrAt(cs, i) && done <= |what|
      invariant done < |what| ==> Denotes(cs, bs, BufPtr(pos.pos + done, chain, position), i)
      invariant Agree(text, pos.pos, what, 0, done)
      decreases |cs| - i
    {
      SpineAt(buf.mem, cs, bs, i);
      var c := buf.mem[chain.addr];
      var n: nat := if |what| - done + position > c.off then c.off - position else |what| - done;
      CompareBlock(bs, i, position, pos.pos, what, done, n);
      AgreeJoin(text, pos.pos, what, 0, done, done + n);
      AgreeJoin(text, pos.pos, what, 0, done + n, |what|);
      if c.Data()[position..position + n] != what[done..done + n] {
        return false;
      }
      TakeOneMore(bs, i);
      done := done + n;
      position := 0;
      chain := c.next;
      i := i + 1;
    }
    assert done == |what|;
    equal := true;
  }

  lemma AgreeNone(text: Block, pos: nat, what: Block)
    requires pos <= |text|
    ensures Agree(text, pos, what, 0, 0)
  {
  }

  /** memcmp of n bytes of what with block i from offset q on. */
  lemma CompareBlock(bs: seq<Block>, i: nat, q: nat, pos: nat, what: Block, done: nat, n: nat)
    requires i < |bs| && q + n <= |bs[i]| && done + n <= |what| && pos + done == |Flat(bs[..i])| + q
    requires pos + |what| <= |Flat(bs)|
    ensures bs[i][q..q + n] == what[done..done + n] <==> Agree(Flat(bs), pos, what, done, done + n)
  {
    hide Flat;
    var a, b := bs[i][q..q + n], what[done..done + n];
    forall j | 0 <= j < n ensures a[j] == Flat(bs)[pos + (done + j)] && b[j] == what[done + j] {
      FlatIndex(bs, i, q + j);
    }
    if Agree(Flat(bs), pos, what, done, done + n) {
      assert forall j :: 0 <= j < n ==> a[j] == b[j];
    }
    if a == b {
      forall j | done <= j < done + n ensures Flat(bs)[pos + j] == what[j] {
        assert a[j - done] == b[j - done];
      }
    }
  }

  /** what occurs in text at k, at or after start and, if there is an end, before it. */
  ghost predicate Found(text: Block, what: Block, start: int, end: Option<int>, k: int)
  {
    start <= k && OccursAt(text, what, k) && (end.Some? ==> k + |what| <= end.value)
  }

  /** No occurrence begins in [from, to). */
  ghost predicate NoneIn(text: Block, what: Block, from: int, to: int)
  {
    forall k :: from <= k < to ==> !OccursAt(text, what, k)
  }

  ghost function EndPos(end: Option<BufPtr>): Option<int>
  {
    if end.Some? then Some(end.value.pos) else None
  }

  /** The result of a search is the first occurrence in range, or -1 when there is none. */
  ghost predicate FirstFound(text: Block, what: Block, start: int, end: Option<int>, r: int)
  {
    if r == -1 then forall k :: !Found(text, what, start, end, k)
    else Found(text, what, start, end, r) && NoneIn(text, what, start, r)
  }

  /**
   * evbuffer_search_range: the first occurrence of what at or after start and before end.
   * An empty what is found at start, whatever end is.
   */
  method SearchRange(buf: EvBuffer, what: Block, start: BufPtr, end: Option<BufPtr>, ghost i0: nat, ghost e: nat)
    returns (pos: BufPtr, ghost i: nat)
    requires buf.Valid() && Denotes(buf.chains, buf.blocks, start, i0)
    requires end.Some? ==> e < |buf.chains| && Denotes(buf.chains, buf.blocks, end.value, e)
    ensures what == [] ==> pos == start
    ensures what != [] ==> FirstFound(buf.Contents(), what, start.pos, EndPos(end), pos.pos)
    ensures pos.pos >= 0 ==> Denotes(buf.chains, buf.blocks, pos, i)
    ensures what != [] && pos.pos >= 0 ==> i < |buf.chains| && pos.posInChain < |buf.blocks[i]|
  {
    hide Spine, Flat, LastData, OccursAt, NoneIn;
    pos, i := start, i0;
    if what == [] {
      return;
    }
    ghost var cs, bs, text := buf.chains, buf.blocks, buf.Contents();
    SpineLen(buf.mem, cs, bs);
    SpineNoDup(buf.mem, cs, bs);
    NoneInNone(text, what, start.pos);
    assert bs[..|bs|] == bs;
    while pos.chain != Null
      invariant Denotes(cs, bs, pos, i) && start.pos <= pos.pos
      invariant NoneIn(text, what, start.pos, pos.pos)
      decreases |cs| - i, if i < |bs| then |bs[i]| - pos.posInChain else 0
    {
      SpineAt(buf.mem, cs, bs, i);
      var c := buf.mem[pos.chain.addr];
      var p := Memchr(c.Data(), pos.posInChain, what[0]);
      SkipTo(bs, what, i, pos.posInChain, p);
      NoneInJoin(text, what, start.pos, pos.pos, pos.pos + (p - pos.posInChain));
      pos := pos.(pos := pos.pos + (p - pos.posInChain), posInChain := p);
      if p < c.off {
        var equal := PtrMatches(buf, pos, what, i);
        if equal {
          if end.Some? && pos.pos + |what| > end.value.pos {
            NothingInRange(text, what, start.pos, EndPos(end), pos.pos);
            return BufPtr(-1, Null, 0), i;
          }
          return;
        }
        NoneInOneMore(text, what, start.pos, pos.pos);
        pos := pos.(pos := pos.pos + 1, posInChain := pos.posInChain + 1);
        if pos.posInChain == c.off {
          TakeOneMore(bs, i);
          pos := pos.(chain := c.next, posInChain := 0);
          i := i + 1;
        }
      } else {
        TakeOneMore(bs, i);
        if end.Some? && pos.chain == end.value.chain {
          NothingInRange(text, what, start.pos, EndPos(end), pos.pos);
          return BufPtr(-1, Null, 0), i;
        }
        pos := pos.(chain := c.next, posInChain := 0);
        i := i + 1;
      }
    }
    NothingInRange(text, what, start.pos, EndPos(end), pos.pos);
    pos := BufPtr(-1, Null, 0);
  }

  lemma NoneInNone(text: Block, what: Block, from: int)
    ensures NoneIn(text, what, from, from)
  {
  }

  lemma NoneInJoin(text: Block, what: Block, from: int, mid: int, to: int)
    requires NoneIn(text, what, from, mid) && NoneIn(text, what, mid, to)
    ensures NoneIn(text, what, from, to)
  {
  }

  lemma NoneInOneMore(text: Block, what: Block, from: int, k: int)
    requires NoneIn(text, what, from, k) && !OccursAt(text, what, k)
    ensures NoneIn(text, what, from, k + 1)
  {
  }

  lemma OccursStart(text: Block, what: Block, k: int)
    requires what != []
    ensures OccursAt(text, what, k) ==> text[k] == what[0]
  {
    if OccursAt(text, what, k) {
      assert text[k..k + |what|][0] == what[0];
    }
  }

  /** Nothing begins where block i, between offsets q and p, lacks the first byte. */
  lemma SkipTo(bs: seq<Block>, what: Block, i: nat, q: nat, p: nat)
    requires what != [] && i < |bs| && q <= p <= |bs[i]|
    requires forall j :: q <= j < p ==> bs[i][j] != what[0]
    ensures NoneIn(Flat(bs), what, |Flat(bs[..i])| + q, |Flat(bs[..i])| + p)
  {
    var base := |Flat(bs[..i])|;
    forall k | base + q <= k < base + p ensures !OccursAt(Flat(bs), what, k) {
      FlatIndex(bs, i, k - base);
      OccursStart(Flat(bs), what, k);
    }
  }

  /** With nothing before from, and the end of the range or of the text too near, there is nothing in range. */
  lemma NothingInRange(text: Block, what: Block, start: int, end: Option<int>, from: int)
    requires what != [] && NoneIn(text, what, start, from)
    requires from >= |text| || (end.Some? && from + |what| > end.value)
    ensures forall k :: !Found(text, what, start, end, k)
  {
  }

  datatype EolStyle = AnyEol | CrlfStrict | Crlf | LfOnly

  /** The bytes a scan stops at. */
  predicate Stops(lfOnly: bool, b: Byte)
  {
    b == LF || (!lfOnly && b == CR)
  }

  /** find_eol_char: the first CR or LF from start on, or |data|; the data is scanned in chunks. */
  method FindEolChar(data: Block, start: nat) returns (i: nat)
    requires start <= |data|
    ensures start <= i <= |data| && (i < |data| ==> Stops(false, data[i]))
    ensures forall j :: start <= j < i ==> !Stops(false, data[j])
  {
    var s := start;
    while s < |data|
      invariant start <= s && forall j :: start <= j < s && j < |data| ==> !Stops(false, data[j])
    {
      var stop := if s + CHUNK_SZ < |data| then s + CHUNK_SZ else |data|;
      var chunk := data[..stop];
      var cr := Memchr(chunk, s, CR);
      var lf := Memchr(chunk, s, LF);
      assert forall j :: s <= j < stop ==> chunk[j] == data[j];
      if cr < stop {
        return if lf < stop && lf < cr then lf else cr;
      } else if lf < stop {
        return lf;
      }
      s := s + CHUNK_SZ;
    }
    i := |data|;
  }

  /** The first byte from offset start on that a scan stops at, or |data|. */
  method Scan(lfOnly: bool, data: Block, start: nat) returns (i: nat)
    requires start <= |data|
    ensures start <= i <= |data| && (i < |data| ==> Stops(lfOnly, data[i]))
    ensures forall j :: start <= j < i ==> !Stops(lfOnly, data[j])
  {
    if lfOnly {
      i := Memchr(data, start, LF);
    } else {
      i := FindEolChar(data, start);
    }
  }

  /** No byte of text in [from, to) stops a scan. */
  ghost predicate Clear(text: Block, lfOnly: bool, from: int, to: int)
  {
    forall k :: from <= k < to && 0 <= k < |text| ==> !Stops(lfOnly, text[k])
  }

  lemma ClearJoin(text: Block, lfOnly: bool, from: int, mid: int, to: int)
    requires Clear(text, lfOnly, from, mid) && Clear(text, lfOnly, mid, to)
    ensures Clear(text, lfOnly, from, to)
  {
  }

  lemma ClearBlock(bs: seq<Block>, lfOnly: bool, i: nat, q: nat, p: nat)
    requires i < |bs| && q <= p <= |bs[i]| && forall j :: q <= j < p ==> !Stops(lfOnly, bs[i][j])
    ensures Clear(Flat(bs), lfOnly, |Flat(bs[..i])| + q, |Flat(bs[..i])| + p)
    ensures p < |bs[i]| ==> |Flat(bs[..i])| + p < |Flat(bs)| && Flat(bs)[|Flat(bs[..i])| + p] == bs[i][p]
  {
    var base := |Flat(bs[..i])|;
    forall k | base + q <= k < base + p ensures k < |Flat(bs)| && !Stops(lfOnly, Flat(bs)[k]) {
      FlatIndex(bs, i, k - base);
    }
    if p < |bs[i]| {
      FlatIndex(bs, i, p);
    }
  }

  /** evbuffer_find_eol_char and evbuffer_strchr: move it to the next byte the scan stops at, if any. */
  method FindStop(buf: EvBuffer, lfOnly: bool, it: BufPtr, ghost i0: nat) returns (r: BufPtr, found: bool, ghost i: nat)
    requires buf.Valid() && Denotes(buf.chains, buf.blocks, it, i0)
    ensures found ==> Denotes(buf.chains, buf.blocks, r, i) && i < |buf.chains| && r.posInChain < |buf.blocks[i]|
    ensures found ==> it.pos <= r.pos < |buf.Contents()| && Stops(lfOnly, buf.Contents()[r.pos])
    ensures found ==> Clear(buf.Contents(), lfOnly, it.pos, r.pos)
    ensures !found ==> Clear(buf.Contents(), lfOnly, it.pos, |buf.Contents()|)
  {
    hide Spine, Flat, LastData, Clear;
    ghost var cs, bs, text := buf.chains, buf.blocks, buf.Contents();
    r, i := it, i0;
    assert bs[..|bs|] == bs;
    ClearNone(text, lfOnly, it.pos);
    while r.chain != Null
      invariant Denotes(cs, bs, r, i) && it.pos <= r.pos && Clear(text, lfOnly, it.pos, r.pos)
      decreases |cs| - i
    {
      SpineAt(buf.mem, cs, bs, i);
      var c := buf.mem[r.chain.addr];
      var p := Scan(lfOnly, c.Data(), r.posInChain);
      ClearBlock(bs, lfOnly, i, r.posInChain, p);
      ClearJoin(text, lfOnly, it.pos, r.pos, r.pos + (p - r.posInChain));
      r := r.(pos := r.pos + (p - r.posInChain), posInChain := p);
      if p < c.off {
        return r, true, i;
      }
      TakeOneMore(bs, i);
      r := r.(chain := c.next, posInChain := 0);
      i := i + 1;
    }
    found := false;
  }

  lemma ClearNone(text: Block, lfOnly: bool, from: int)
    ensures Clear(text, lfOnly, from, from)
  {
  }

  /** How many CR and LF bytes follow each other in text from k on. */
  function EolSpan(text: Block, k: nat): (n: nat)
    ensures k <= |text| ==> k + n <= |text|
    decreases |text| - k
  {
    if k < |text| && Stops(false, text[k]) then 1 + EolSpan(text, k + 1) else 0
  }

  /** evbuffer_strspn with CR and LF: how many such bytes follow each other from ptr on. */
  method SpanEol(buf: EvBuffer, ptr: BufPtr, ghost i0: nat) returns (count: nat)
    requires buf.Valid() && i0 < |buf.chains| && Denotes(buf.chains, buf.blocks, ptr, i0)
    ensures count == EolSpan(buf.Contents(), ptr.pos)
  {
    hide Spine, Flat, LastData, EolSpan;
    ghost var cs, bs, text := buf.chains, buf.blocks, buf.Contents();
    count := 0;
    var chain := ptr.chain.addr;
    var i: nat := ptr.posInChain;
    ghost var at := i0;
    assert bs[..|bs|] == bs;
    while true
      invariant Denotes(cs, bs, BufPtr(ptr.pos + count, To(chain), i), at) && at < |cs|
      invariant EolSpan(text, ptr.pos) == count + EolSpan(text, ptr.pos + count)
      decreases |cs| - at
    {
      SpineAt(buf.mem, cs, bs, at);
      var c := buf.mem[chain];
      while i < c.off
        invariant Denotes(cs, bs, BufPtr(ptr.pos + count, To(chain), i), at) && i <= c.off
        invariant EolSpan(text, ptr.pos) == count + EolSpan(text, ptr.pos + count)
      {
        FlatIndex(bs, at, i);
        SpanStep(text, ptr.pos + count);
        if !Stops(false, c.Data()[i]) {
          return;
        }
        count := count + 1;
        i := i + 1;
      }
      TakeOneMore(bs, at);
      i := 0;
      if c.next == Null {
        SpanStep(text, ptr.pos + count);
        return;
      }
      chain := c.next.addr;
      at := at + 1;
    }
  }

  lemma SpanStep(text: Block, k: nat)
    ensures EolSpan(text, k) == if k < |text| && Stops(false, text[k]) then 1 + EolSpan(text, k + 1) else 0
  {
  }

  /** evbuffer_ptr_set with EVBUFFER_PTR_ADD: move p on by n bytes; fails at or past the end. */
  method PtrAdd(buf: EvBuffer, p: BufPtr, n: nat, ghost i0: nat) returns (r: BufPtr, ok: bool, ghost i: nat)
    requires buf.Valid() && Denotes(buf.chains, buf.blocks, p, i0)
    ensures ok <==> p.pos + n < |buf.Contents()|
    ensures ok ==> r.pos == p.pos + n && i < |buf.chains| && Denotes(buf.chains, buf.blocks, r, i) && r.posInChain < |buf.blocks[i]|
  {
    hide Spine, Flat, LastData;
    ghost var cs, bs := buf.chains, buf.blocks;
    var chain := p.chain;
    var left: nat, position: nat := n, p.posInChain;
    i := i0;
    assert bs[..|bs|] == bs;
    if i < |cs| { SpineAt(buf.mem, cs, bs, i); }
    while chain != Null && position + left >= buf.mem[chain.addr].off
      invariant Denotes(cs, bs, BufPtr(p.pos + n - left, chain, position), i)
      invariant i < |cs| ==> Link(buf.mem, cs, bs, i)
      decreases |cs| - i
    {
      TakeOneMore(bs, i);
      left := left - (buf.mem[chain.addr].off - position);
      chain := buf.mem[chain.addr].next;
      position := 0;
      i := i + 1;
      if i < |cs| { SpineAt(buf.mem, cs, bs, i); }
    }
    if chain != Null {
      FlatIndex(bs, i, position + left);
      r, ok := BufPtr(p.pos + n, chain, position + left), true;
    } else {
      r, ok := BufPtr(-1, Null, p.posInChain), false;
    }
  }

  /** The length of the line end that begins at k, 0 if none does. */
  function EolLen(text: Block, style: EolStyle, k: nat): nat
  {
    match style
    case AnyEol => EolSpan(text, k)
    case CrlfStrict => if OccursAt(text, [CR, LF], k) then 2 else 0
    case Crlf => if k < |text| && text[k] == LF then 1 else if OccursAt(text, [CR, LF], k) then 2 else 0
    case LfOnly => if k < |text| && text[k] == LF then 1 else 0
  }

  /** r is the first position from start on where a line end begins, or -1 when there is none. */
  ghost predicate FirstEol(text: Block, style: EolStyle, start: nat, r: int)
  {
    if r < 0 then r == -1 && forall k: nat :: start <= k ==> EolLen(text, style, k) == 0
    else start <= r && EolLen(text, style, r) > 0 && forall k: nat :: start <= k < r ==> EolLen(text, style, k) == 0
  }

  /** No line end begins in [from, to). */
  ghost predicate NoEol(text: Block, style: EolStyle, from: nat, to: nat)
  {
    forall k: nat :: from <= k < to ==> EolLen(text, style, k) == 0
  }

  /** A line end begins with a byte that a scan stops at, so none begins past the end of the text. */
  lemma EolStops(text: Block, style: EolStyle, k: nat)
    ensures EolLen(text, style, k) > 0 ==> k < |text| && Stops(style == LfOnly, text[k])
  {
    OccursStart(text, [CR, LF], k);
  }

  lemma ClearNoEol(text: Block, style: EolStyle, from: nat, to: nat)
    requires Clear(text, style == LfOnly, from, to)
    ensures NoEol(text, style, from, to)
  {
    forall k: nat | from <= k < to ensures EolLen(text, style, k) == 0 {
      EolStops(text, style, k);
    }
  }

  lemma NoEolBeyond(text: Block, style: EolStyle, from: nat, to: nat)
    requires NoEol(text, style, from, to) && |text| <= to
    ensures FirstEol(text, style, from, -1)
  {
    forall k: nat | from <= k ensures EolLen(text, style, k) == 0 {
      EolStops(text, style, k);
    }
  }

  lemma NoEolJoin(text: Block, style: EolStyle, from: nat, mid: nat, to: nat)
    requires NoEol(text, style, from, mid) && NoEol(text, style, mid, to)
    ensures NoEol(text, style, from, to)
  {
  }

  lemma NoEolOne(text: Block, style: EolStyle, from: nat, k: nat)
    requires NoEol(text, style, from, k) && EolLen(text, style, k) == 0
    ensures NoEol(text, style, from, k + 1)
  {
  }

  /** The loop for CRLF lines: stop at LF or at CR LF, and pass over a lone CR. */
  method SearchCrlf(buf: EvBuffer, start: BufPtr, ghost i0: nat) returns (it: BufPtr, eolLen: nat)
    requires buf.Valid() && Denotes(buf.chains, buf.blocks, start, i0)
    ensures FirstEol(buf.Contents(), Crlf, start.pos, it.pos)
    ensures eolLen == if it.pos < 0 then 0 else EolLen(buf.Contents(), Crlf, it.pos)
  {
    hide Spine, Flat, LastData, Clear, NoEol, Stops, OccursAt;
    ghost var cs, bs, text := buf.chains, buf.blocks, buf.Contents();
    ghost var i := i0;
    it := start;
    EmptyNoEol(text, Crlf, start.pos);
    while true
      invariant Denotes(cs, bs, it, i) && start.pos <= it.pos && NoEol(text, Crlf, start.pos, it.pos)
      decreases |text| - it.pos
    {
      ghost var from := it.pos;
      var found, ok;
      it, found, i := FindStop(buf, false, it, i);
      if !found {
        ClearNoEol(text, Crlf, from, |text|);
        NoEolJoin(text, Crlf, start.pos, from, |text|);
        NoEolBeyond(text, Crlf, start.pos, |text|);
        return BufPtr(-1, Null, 0), 0;
      }
      ClearNoEol(text, Crlf, from, it.pos);
      NoEolJoin(text, Crlf, start.pos, from, it.pos);
      NoEolFirst(text, Crlf, start.pos, it.pos);
      SpineAt(buf.mem, cs, bs, i);
      FlatIndex(bs, i, it.posInChain);
      if buf.mem[it.chain.addr].Data()[it.posInChain] == LF {
        return it, 1;
      }
      var equal := PtrMatches(buf, it, [CR, LF], i);
      if equal {
        return it, 2;
      }
      NoEolOne(text, Crlf, start.pos, it.pos);
      ghost var at := it.pos;
      it, ok, i := PtrAdd(buf, it, 1, i);
      if !ok {
        NoEolBeyond(text, Crlf, start.pos, at + 1);
        return BufPtr(-1, Null, 0), 0;
      }
    }
  }

  lemma EmptyNoEol(text: Block, style: EolStyle, from: nat)
    ensures NoEol(text, style, from, from)
  {
  }

  lemma NoEolFirst(text: Block, style: EolStyle, from: nat, r: nat)
    requires NoEol(text, style, from, r) && from <= r
    ensures EolLen(text, style, r) > 0 ==> FirstEol(text, style, from, r)
  {
  }

  /** evbuffer_search_eol: the first line end from start on and its length. */
  method SearchEol(buf: EvBuffer, start: BufPtr, style: EolStyle, ghost i0: nat) returns (it: BufPtr, eolLen: nat)
    requires buf.Valid() && Denotes(buf.chains, buf.blocks, start, i0)
    ensures FirstEol(buf.Contents(), style, start.pos, it.pos)
    ensures eolLen == if it.pos < 0 then 0 else EolLen(buf.Contents(), style, it.pos)
  {
    hide Spine, Flat, LastData, Clear, NoEol, NoneIn, EolSpan;
    ghost var text := buf.Contents();
    match style
    case Crlf => it, eolLen := SearchCrlf(buf, start, i0);
    case CrlfStrict =>
      ghost var i;
      it, i := SearchRange(buf, [CR, LF], start, None, i0, 0);
      StrictEol(text, start.pos, it.pos);
      eolLen := if it.pos < 0 then 0 else 2;
    case AnyEol =>
      ghost var i;
      it, i := SearchStop(buf, start, AnyEol, i0);
      eolLen := 0;
      if it.pos >= 0 {
        eolLen := SpanEol(buf, it, i);
      }
    case LfOnly =>
      ghost var i;
      it, i := SearchStop(buf, start, LfOnly, i0);
      eolLen := if it.pos < 0 then 0 else 1;
  }

  /** For the styles whose line ends begin at every byte the scan stops at. */
  method SearchStop(buf: EvBuffer, start: BufPtr, style: EolStyle, ghost i0: nat) returns (it: BufPtr, ghost i: nat)
    requires buf.Valid() && Denotes(buf.chains, buf.blocks, start, i0) && (style == AnyEol || style == LfOnly)
    ensures FirstEol(buf.Contents(), style, start.pos, it.pos)
    ensures it.pos >= 0 ==> i < |buf.chains| && Denotes(buf.chains, buf.blocks, it, i)
  {
    hide Spine, Flat, LastData, Clear, NoEol, EolSpan;
    ghost var text := buf.Contents();
    var found;
    it, found, i := FindStop(buf, style == LfOnly, start, i0);
    if !found {
      ClearNoEol(text, style, start.pos, |text|);
      NoEolBeyond(text, style, start.pos, |text|);
      return BufPtr(-1, Null, 0), 0;
    }
    ClearNoEol(text, style, start.pos, it.pos);
    NoEolFirst(text, style, start.pos, it.pos);
    SpanStep(text, it.pos);
  }

  /** Searching for CR LF finds the first strict line end. */
  lemma StrictEol(text: Block, start: nat, r: int)
    requires FirstFound(text, [CR, LF], start, None, r) && (r >= 0 || r == -1)
    ensures FirstEol(text, CrlfStrict, start, r)
  {
    if r == -1 {
      forall k: nat | start <= k ensures EolLen(text, CrlfStrict, k) == 0 {
        assert !Found(text, [CR, LF], start, None, k);
      }
    }
  }

  /**
   * evbuffer_readln: take the first line out of the buffer, without its line end, which is dropped.
   * None when the buffer is frozen or holds no complete line.
   */
  method Readln(buf: EvBuffer, style: EolStyle) returns (line: Option<Block>)
    requires buf.Valid()
    modifies buf
    ensures buf.Valid()
    ensures line == None ==> buf.Contents() == old(buf.Contents())
    ensures line == None <==> old(buf.freezeStart) || FirstEol(old(buf.Contents()), style, 0, -1)
    ensures line.Some? ==>
              var text, n := old(buf.Contents()), |line.value|;
              && FirstEol(text, style, 0, n)
              && n + EolLen(text, style, n) <= |text|
              && text == line.value + text[n..n + EolLen(text, style, n)] + buf.Contents()
    ensures old(buf.Dense()) ==> buf.Dense()
  {
    hide Spine, Flat, LastData, EolLen;
    if buf.freezeStart {
      return None;
    }
    NonEmpty(buf.blocks[..0]);
    SpineLen(buf.mem, buf.chains, buf.blocks);
    var it, extra := SearchEol(buf, BufPtr(0, buf.first, 0), style, 0);
    if it.pos < 0 {
      return None;
    }
    ghost var text, n := buf.Contents(), it.pos;
    EolFits(text, style, n);
    OnlyOneFirst(text, style, n);
    var r, data := buf.Remove(it.pos);
    var d := buf.Drain(extra);
    line := Some(data);
    SplitThree(text, n, extra, data, buf.Contents());
  }

  /** A line end lies within the text. */
  lemma EolFits(text: Block, style: EolStyle, k: nat)
    ensures EolLen(text, style, k) > 0 ==> k + EolLen(text, style, k) <= |text|
  {
  }

  lemma OnlyOneFirst(text: Block, style: EolStyle, n: nat)
    requires FirstEol(text, style, 0, n)
    ensures !FirstEol(text, style, 0, -1)
  {
  }

  lemma SplitThree(text: Block, n: nat, extra: nat, data: Block, rest: Block)
    requires n + extra <= |text| && data == text[..n] && rest == text[n..][extra..]
    ensures text == data + text[n..n + extra] + rest
  {
    assert text[n..][extra..] == text[n + extra..];
  }
}
