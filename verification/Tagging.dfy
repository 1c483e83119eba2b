/** Tagged records: variable-length tags, integers by nibbles, and the records made of them. */
module Tagging {
  import opened Bytes
  import opened Seqs

  const TWO31 := 0x8000_0000

  /** A number read from the start of some bytes, and how many of them it takes. */
  datatype Parsed = NotThere | Parsed(number: nat, len: nat)

  // ---- Tags: seven bits to a byte, low bits first, the high bit set on all bytes but the last

  function TagBytes(tag: nat): (r: seq<Byte>)
    ensures r != []
  {
    if tag < 128 then [tag] else
      var lower: Byte := 128 + tag % 128;
      [lower] + TagBytes(tag / 128)
  }

  function ReadTag(s: seq<Byte>): (r: Parsed)
    ensures r.Parsed? ==> 0 < r.len <= |s|
  {
    if s == [] then NotThere
    else if s[0] < 128 then Parsed(s[0], 1)
    else match ReadTag(s[1..])
      case NotThere => NotThere
      case Parsed(number, len) => Parsed(s[0] - 128 + 128 * number, len + 1)
  }

  lemma {:induction false} TagRoundTrip(tag: nat, rest: seq<Byte>)
    ensures ReadTag(TagBytes(tag) + rest) == Parsed(tag, |TagBytes(tag)|)
  {
    if tag >= 128 {
      TagRoundTrip(tag / 128, rest);
      assert (TagBytes(tag) + rest)[1..] == TagBytes(tag / 128) + rest;
    }
  }

  function Pow128(i: nat): (p: nat)
    ensures p > 0
  {
    if i == 0 then 1 else 128 * Pow128(i - 1)
  }

  lemma DivTwice(tag: nat, p: nat)
    requires p > 0
    ensures tag / 128 / p == tag / (128 * p)
  {
    var q, r := tag / 128 / p, tag / 128 % p;
    assert tag == 128 * (tag / 128) + tag % 128 && tag / 128 == p * q + r;
    assert 128 * r + tag % 128 < 128 * p;
    assert tag == (128 * p) * q + (128 * r + tag % 128);
    DivIs(tag, 128 * p, q, 128 * r + tag % 128);
  }

  lemma DivIs(a: nat, d: nat, q: nat, r: nat)
    requires d > 0 && r < d && a == d * q + r
    ensures a / d == q
  {
    var q', r' := a / d, a % d;
    assert a == d * q' + r';
    if q > q' {
      AtLeast(d, q, q');
    } else if q < q' {
      AtLeast(d, q', q);
    }
  }

  lemma AtLeast(d: nat, x: nat, y: nat)
    requires x > y
    ensures d * x >= d * y + d
  {
    assert d * x == d * (y + 1) + d * (x - y - 1);
  }

  /** The bytes of a tag: its digits to the base 128, the lowest first, with the high bit set on all but the last. */
  lemma {:induction false} TagByte(tag: nat, i: nat)
    requires i < |TagBytes(tag)|
    ensures TagBytes(tag)[i] == tag / Pow128(i) % 128 + if i + 1 < |TagBytes(tag)| then 128 else 0
  {
    if tag >= 128 && i > 0 {
      TagByte(tag / 128, i - 1);
      DivTwice(tag, Pow128(i - 1));
    }
  }

  /** The low bits come first, against the example in the comment of the original. */
  lemma TagExample()
    ensures TagBytes(0x66) == [0x66] && TagBytes(0x166) == [0xe6, 0x02]
  {
    assert TagBytes(2) == [2];
  }

  lemma TagIsShort(tag: nat)
    requires tag < TWO32
    ensures |TagBytes(tag)| <= 5
  {
    var t1 := tag / 128;
    var t2 := t1 / 128;
    var t3 := t2 / 128;
    var t4 := t3 / 128;
    assert |TagBytes(t4)| == 1;
    assert |TagBytes(t3)| <= 2;
    assert |TagBytes(t2)| <= 3;
    assert |TagBytes(t1)| <= 4;
  }

  /** evtag_encode_tag */
  method EncodeTag(tag: nat) returns (data: seq<Byte>)
    requires tag < TWO32
    ensures data == TagBytes(tag) && |data| <= 5
  {
    TagIsShort(tag);
    data := [];
    var t: nat := tag;
    var more := true;
    while more
      invariant more ==> data + TagBytes(t) == TagBytes(tag)
      invariant !more ==> data == TagBytes(tag)
      decreases more, t
    {
      var lower: Byte := t % 128;
      ghost var t0 := t;
      t := t / 128;
      if t != 0 {
        lower := lower + 128;
      }
      assert TagBytes(t0) == if t == 0 then [lower] else [lower] + TagBytes(t);
      data := data + [lower];
      more := t != 0;
    }
  }

  const MAX_TAG_BYTES := 5

  /**
   * decode_tag_internal; the number keeps 32 bits. Only so many bytes are made contiguous first; past: it has to look at
   * more, and finds those that follow only if they lie in the same chain.
   */
  method DecodeTag(s: seq<Byte>) returns (r: Parsed, past: bool)
    ensures r.Parsed? <==> ReadTag(s).Parsed?
    ensures r.Parsed? ==> r == Parsed(ReadTag(s).number % TWO32, ReadTag(s).len)
    ensures past <==> |s| > MAX_TAG_BYTES && forall i :: 0 <= i < MAX_TAG_BYTES ==> s[i] >= 128
    ensures past && r.Parsed? ==> r.len > MAX_TAG_BYTES
  {
    past := false;
    var number, count, weight := 0, 0, 1;
    assert s[0..] == s;
    while count < |s|
      invariant 0 <= count <= |s| && 0 <= number < TWO32 && weight >= 1
      invariant ReadTag(s).Parsed? <==> ReadTag(s[count..]).Parsed?
      invariant ReadTag(s).Parsed? ==>
        var p := ReadTag(s[count..]);
        ReadTag(s).len == count + p.len && ReadTag(s).number % TWO32 == (number + weight * p.number) % TWO32
      invariant past <==> count > MAX_TAG_BYTES
      invariant forall i :: 0 <= i < count ==> s[i] >= 128
    {
      past := count >= MAX_TAG_BYTES;
      var lower := s[count];
      ghost var rest := s[count..];
      assert rest[0] == lower && rest[1..] == s[count + 1..];
      if lower < 128 {
        return Parsed((number + weight * lower) % TWO32, count + 1), past;
      }
      if ReadTag(rest[1..]).Parsed? { Shift(number, weight, lower - 128, ReadTag(rest[1..]).number); }
      number := (number + weight * (lower - 128)) % TWO32;
      weight := weight * 128;
      count := count + 1;
    }
    assert s[count..] == [];
    r := NotThere;
  }

  lemma Shift(number: int, weight: int, low: int, high: int)
    ensures (number + weight * (low + 128 * high)) % TWO32 == ((number + weight * low) % TWO32 + weight * 128 * high) % TWO32
  {
    assert weight * (low + 128 * high) == weight * low + weight * 128 * high;
    ModAdd(number + weight * low, weight * 128 * high);
  }

  lemma ModAdd(a: int, b: int)
    ensures (a + b) % TWO32 == (a % TWO32 + b) % TWO32
  {
  }

  // ---- Integers: the number of nibbles less one, then the nibbles, low ones first

  type Nibble = n: nat | n < 16

  function Nibbles(n: nat): (r: seq<Nibble>)
    ensures r != []
  {
    if n < 16 then [n] else
      var low: Nibble := n % 16;
      [low] + Nibbles(n / 16)
  }

  function ValueOf(r: seq<Nibble>): nat
  {
    if r == [] then 0 else r[0] + 16 * ValueOf(r[1..])
  }

  lemma {:induction false} NibblesValue(n: nat)
    ensures ValueOf(Nibbles(n)) == n
  {
    if n < 16 {
      assert Nibbles(n)[1..] == [];
    } else {
      NibblesValue(n / 16);
    }
  }

  function Pow16(k: nat): (p: nat)
    ensures p > 0
  {
    if k == 0 then 1 else 16 * Pow16(k - 1)
  }

  /** A number has k nibbles or fewer exactly when it is below the k-th power of 16. */
  lemma {:induction false} NibblesCount(n: nat, k: nat)
    requires k > 0
    ensures |Nibbles(n)| <= k <==> n < Pow16(k)
  {
    if k == 1 {
      assert Pow16(1) == 16;
    } else if n >= 16 {
      NibblesCount(n / 16, k - 1);
    }
  }

  /** Nibble j of some bytes: the high half of a byte comes first. */
  function Nib(s: seq<Byte>, j: nat): Nibble
    requires j / 2 < |s|
  {
    if j % 2 == 1 then s[j / 2] % 16 else s[j / 2] / 16
  }

  /** s starts with the nibbles r: their number less one, then they themselves. */
  ghost predicate Holds(s: seq<Byte>, r: seq<Nibble>)
  {
    && r != [] && |r| / 2 < |s| && Nib(s, 0) == |r| - 1
    && forall j :: 1 <= j <= |r| ==> Nib(s, j) == r[j - 1]
  }

  /** The encoding of a number: as many bytes as its nibbles take, the last half byte zero if it is not needed. */
  ghost predicate Encodes(s: seq<Byte>, n: nat)
  {
    var k := |Nibbles(n)|;
    |s| == k / 2 + 1 && Holds(s, Nibbles(n)) && (k % 2 == 0 ==> Nib(s, k + 1) == 0)
  }

  /** The number that nibbles j to m stand for. */
  function Read(s: seq<Byte>, j: nat, m: nat): nat
    requires m / 2 < |s|
    decreases m + 1 - j
  {
    if j > m then 0 else Nib(s, j) + 16 * Read(s, j + 1, m)
  }

  /** DECODE_INT_INTERNAL at the start of s. */
  function ReadInt(s: seq<Byte>, maxNibbles: nat): (r: Parsed)
    ensures r.Parsed? ==> 0 < r.len <= |s|
  {
    if s == [] then NotThere
    else
      var m := s[0] / 16 + 1;
      if m > maxNibbles || m / 2 + 1 > |s| then NotThere else Parsed(Read(s, 1, m), m / 2 + 1)
  }

  lemma {:induction false} ReadIs(s: seq<Byte>, j: nat, r: seq<Nibble>)
    requires Holds(s, r) && 1 <= j <= |r| + 1
    ensures Read(s, j, |r|) == ValueOf(r[j - 1..])
    decreases |r| + 1 - j
  {
    if j <= |r| {
      ReadIs(s, j + 1, r);
      assert r[j - 1..][1..] == r[j..];
    }
  }

  /** What was encoded is read back, whatever follows, if it has no more nibbles than are allowed. */
  lemma IntRoundTrip(s: seq<Byte>, n: nat, rest: seq<Byte>, maxNibbles: nat)
    requires Encodes(s, n)
    ensures ReadInt(s + rest, maxNibbles) == if |Nibbles(n)| <= maxNibbles then Parsed(n, |s|) else NotThere
  {
    var r := Nibbles(n);
    var t := s + rest;
    assert Nib(s, 0) == Nib(t, 0);
    forall j | 1 <= j <= |r| ensures Nib(t, j) == r[j - 1] { assert Nib(s, j) == r[j - 1]; }
    assert Holds(t, r);
    ReadIs(t, 1, r);
    assert r[0..] == r;
    NibblesValue(n);
  }

  /** An encoding is determined by its number. */
  lemma EncodesOne(s: seq<Byte>, t: seq<Byte>, n: nat)
    requires Encodes(s, n) && Encodes(t, n)
    ensures s == t
  {
    var k := |Nibbles(n)|;
    forall i | 0 <= i < |s| ensures s[i] == t[i] {
      assert Nib(s, 2 * i) == Nib(t, 2 * i);
      assert 2 * i + 1 <= k ==> Nib(s, 2 * i + 1) == Nibbles(n)[2 * i] && Nib(t, 2 * i + 1) == Nibbles(n)[2 * i];
      assert Nib(s, 2 * i + 1) == Nib(t, 2 * i + 1);
    }
  }

  /** The first bytes of the encoding of a number: the count in the high half of the first, then the lowest nibble first. */
  lemma EncodedBytes(s: seq<Byte>, n: nat)
    requires Encodes(s, n)
    ensures s[0] == (|Nibbles(n)| - 1) * 16 + n % 16
    ensures |s| > 1 ==> s[1] == n / 16 % 16 * 16 + n / 256 % 16
  {
    assert Nib(s, 1) == Nibbles(n)[0] == n % 16;
    if |s| > 1 {
      assert n >= 16 && Nib(s, 2) == Nibbles(n)[1] == Nibbles(n / 16)[0];
      if n >= 256 {
        assert Nib(s, 3) == Nibbles(n)[2] == Nibbles(n / 16)[1] == Nibbles(n / 16 / 16)[0];
      }
    }
  }

  /** The value of byte b with half j of the bytes set to x. */
  function SetHalf(b: Byte, j: nat, x: Nibble): Byte
  {
    if j % 2 == 1 then b / 16 * 16 + x else b % 16 + x * 16
  }

  lemma SetNib(s: seq<Byte>, j: nat, x: Nibble)
    requires j / 2 < |s|
    ensures var t := s[j / 2 := SetHalf(s[j / 2], j, x)];
            Nib(t, j) == x && forall i :: 0 <= i / 2 < |s| && i >= 0 && i != j ==> Nib(t, i) == Nib(s, i)
  {
    var t := s[j / 2 := SetHalf(s[j / 2], j, x)];
    forall i | 0 <= i / 2 < |s| && i >= 0 && i != j ensures Nib(t, i) == Nib(s, i) {
      if i / 2 == j / 2 { assert i % 2 != j % 2; }
    }
  }

  /** ENCODE_INT_INTERNAL, for an integer type of size bytes. */
  method EncodeInt(number: nat, size: nat) returns (out: seq<Byte>)
    requires |Nibbles(number)| <= 2 * size && 0 < size <= 8
    ensures Encodes(out, number)
  {
    var data: seq<Byte> := seq(size + 1, _ => 0);
    var off: nat, nibbles := 1, 0;
    var n: nat := number;
    ghost var r := Nibbles(number);
    while n != 0
      invariant |data| == size + 1 && 1 <= off && off - 1 <= |r|
      invariant n == 0 || (off - 1 < |r| && Nibbles(n) == r[off - 1..])
      invariant n == 0 ==> off - 1 == |r| || (off == 1 && number == 0)
      invariant forall j :: 1 <= j < off ==> Nib(data, j) == r[j - 1]
      invariant forall j :: (j == 0 || off <= j < 2 * |data|) && j / 2 < |data| ==> Nib(data, j) == 0
      decreases n
    {
      SetNib(data, off, n % 16);
      assert Nibbles(n)[0] == n % 16 && (n >= 16 ==> Nibbles(n)[1..] == Nibbles(n / 16));
      assert r[off - 1..][0] == r[off - 1] && r[off - 1..][1..] == r[off..];
      data := data[off / 2 := SetHalf(data[off / 2], off, n % 16)];
      n := n / 16;
      off := off + 1;
    }
    if off > 2 {
      nibbles := off - 2;
    }
    SetNib(data, 0, nibbles);
    data := data[0 := SetHalf(data[0], 0, nibbles)];
    out := data[..(off + 1) / 2];
    assert forall j :: 0 <= j / 2 < |out| && j >= 0 ==> Nib(out, j) == Nib(data, j);
  }

  /** DECODE_INT_INTERNAL */
  method DecodeInt(s: seq<Byte>, maxNibbles: nat) returns (r: Parsed)
    ensures r == ReadInt(s, maxNibbles)
  {
    if |s| == 0 {
      return NotThere;
    }
    var nibbles: nat := s[0] / 16 + 1;
    if nibbles > maxNibbles || nibbles / 2 + 1 > |s| {
      return NotThere;
    }
    var len := nibbles / 2 + 1;
    var number: nat := 0;
    ghost var m := nibbles;
    while nibbles > 0
      invariant 0 <= nibbles <= m && number == Read(s, nibbles + 1, m)
    {
      number := number * 16 + Nib(s, nibbles);
      nibbles := nibbles - 1;
    }
    r := Parsed(number, len);
  }

  /** The widths: 8 nibbles for a 32-bit integer and 16 for a 64-bit one are enough, and no more than enough. */
  lemma Widths(n: nat)
    ensures |Nibbles(n)| <= 8 <==> n < TWO32
    ensures |Nibbles(n)| <= 16 <==> n < TWO64
  {
    NibblesCount(n, 8);
    NibblesCount(n, 16);
    assert Pow16(4) == 0x1_0000;
    assert Pow16(8) == TWO32;
    assert Pow16(12) == 0x1_0000_0000_0000;
    assert Pow16(16) == TWO64;
  }

  // ---- Records

  datatype Record = Record(tag: nat, payload: seq<Byte>)

  /** The bytes b are the record: its tag, the length of its payload, the payload. */
  ghost predicate Marshalled(b: seq<Byte>, r: Record)
  {
    exists l :: Encodes(l, |r.payload|) && b == TagBytes(r.tag) + l + r.payload
  }

  /** evtag_marshal */
  method Marshal(tag: nat, payload: seq<Byte>) returns (b: seq<Byte>)
    requires tag < TWO32 && |payload| < TWO32
    ensures Marshalled(b, Record(tag, payload))
  {
    var t := EncodeTag(tag);
    Widths(|payload|);
    var l := EncodeInt(|payload|, 4);
    b := t + l + payload;
  }

  /** The tag and the length at the start of some bytes, and where the payload begins. */
  datatype Header = NoTag | NoLength(afterTag: nat) | Header(tag: nat, len: nat, at: nat)

  function ReadHeader(s: seq<Byte>): (h: Header)
    ensures h.Header? ==> h.at <= |s|
    ensures h.NoLength? ==> h.afterTag <= |s|
  {
    match ReadTag(s)
    case NotThere => NoTag
    case Parsed(tag, n) =>
      match ReadInt(s[n..], 8)
      case NotThere => NoLength(n)
      case Parsed(len, m) => Header(tag % TWO32, len, n + m)
  }

  lemma HeaderRoundTrip(b: seq<Byte>, r: Record, rest: seq<Byte>)
    requires Marshalled(b, r) && r.tag < TWO32 && |r.payload| < TWO32
    ensures |b| >= |r.payload| && ReadHeader(b + rest) == Header(r.tag, |r.payload|, |b| - |r.payload|)
    ensures b[|b| - |r.payload|..] == r.payload
  {
    var l :| Encodes(l, |r.payload|) && b == TagBytes(r.tag) + l + r.payload;
    var t := TagBytes(r.tag);
    assert b + rest == t + (l + r.payload + rest);
    TagRoundTrip(r.tag, l + r.payload + rest);
    assert (b + rest)[|t|..] == l + (r.payload + rest);
    Widths(|r.payload|);
    IntRoundTrip(l, |r.payload|, r.payload + rest, 8);
  }

  /** evtag_unmarshal_header: what is left of the buffer, and the length as an int, -1 on failure. */
  method UnmarshalHeader(s: seq<Byte>) returns (len: int, tag: nat, left: seq<Byte>)
    ensures var h := ReadHeader(s);
            match h
            case NoTag => len == -1 && left == s
            case NoLength(n) => len == -1 && left == s[n..]
            case Header(t, l, at) =>
              && left == s[at..] && tag == t && l < TWO32
              && len == (if |s| - at < l then -1 else if l < TWO31 then l else l - TWO32)
  {
    left := s;
    tag := 0;
    var t, _ := DecodeTag(s);
    if t.NotThere? {
      return -1, tag, left;
    }
    tag := t.number;
    left := s[t.len..];
    var l := DecodeInt(left, 8);
    if l.NotThere? {
      return -1, tag, left;
    }
    left := left[l.len..];
    assert left == s[t.len + l.len..];
    ReadIntFits(s[t.len..]);
    if |left| < l.number {
      return -1, tag, left;
    }
    len := if l.number < TWO31 then l.number else l.number - TWO32;
  }

  lemma ReadIntFits(s: seq<Byte>)
    ensures ReadInt(s, 8).Parsed? ==> ReadInt(s, 8).number < TWO32
  {
    if ReadInt(s, 8).Parsed? {
      ReadBound(s, 1, s[0] / 16 + 1);
      Pow16Grows(s[0] / 16 + 1, 8);
      assert Pow16(4) == 0x1_0000;
      assert Pow16(8) == TWO32;
    }
  }

  lemma {:induction false} ReadBound(s: seq<Byte>, j: nat, m: nat)
    requires m / 2 < |s| && j <= m + 1
    ensures Read(s, j, m) < Pow16(m + 1 - j)
    decreases m + 1 - j
  {
    if j <= m { ReadBound(s, j + 1, m); }
  }

  lemma {:induction false} Pow16Grows(a: nat, b: nat)
    requires a <= b
    ensures Pow16(a) <= Pow16(b)
  {
    if a < b { Pow16Grows(a, b - 1); }
  }

  /** The record is there, and its length, as an int, is negative but not the -1 of a failure. */
  ghost predicate Beyond(s: seq<Byte>)
  {
    var h := ReadHeader(s);
    h.Header? && TWO31 <= h.len < TWO32 - 1 && h.len <= |s| - h.at
  }

  /** evtag_unmarshal; beyond: the original goes on and asks for a copy of 2^64 + r bytes. */
  method Unmarshal(s: seq<Byte>) returns (r: int, tag: nat, payload: seq<Byte>, left: seq<Byte>, beyond: bool)
    ensures beyond <==> Beyond(s)
    ensures !beyond ==>
              match ReadHeader(s)
              case Header(t, l, at) =>
                if l <= |s| - at && l < TWO31 then r == l && tag == t && payload == s[at..at + l] && left == s[at + l..]
                else r == -1 && left == s[at..]
              case _ => r == -1
  {
    payload, beyond := [], false;
    r, tag, left := UnmarshalHeader(s);
    if r == -1 {
      return;
    }
    if r < 0 {
      beyond := true;
      return;
    }
    ghost var at := ReadHeader(s).at;
    payload := left[..r];
    left := left[r..];
    assert payload == s[at..at + r] && left == s[at + r..];
  }

  /** evtag_peek_length: the length of the whole record, as 32 bits. */
  method PeekLength(s: seq<Byte>) returns (r: int, len: nat)
    ensures r == (if ReadHeader(s).Header? then 0 else -1)
    ensures r == 0 ==> len == (ReadHeader(s).at + ReadHeader(s).len) % TWO32
  {
    len := 0;
    var t, _ := DecodeTag(s);
    if t.NotThere? {
      return -1, 0;
    }
    var l := DecodeInt(s[t.len..], 8);
    if l.NotThere? {
      return -1, 0;
    }
    len := (l.number + t.len + l.len) % TWO32;
    r := 0;
  }

  /** evtag_consume: a length that is negative as an int, but not -1, drains everything. */
  method Consume(s: seq<Byte>) returns (r: int, left: seq<Byte>)
    ensures match ReadHeader(s)
            case Header(t, l, at) =>
              if l > |s| - at || l == TWO32 - 1 then r == -1 && left == s[at..]
              else r == 0 && left == if l < TWO31 then s[at + l..] else []
            case _ => r == -1
  {
    var len, _, rest := UnmarshalHeader(s);
    left := rest;
    if len == -1 {
      return -1, left;
    }
    ghost var at := ReadHeader(s).at;
    // evbuffer_drain takes a size_t, of which a negative number is a very large one.
    left := if len < 0 then [] else left[len..];
    assert len >= 0 ==> left == s[at + len..];
    r := 0;
  }

  /**
   * What evtag_peek_length announces is what evtag_consume removes, unless a length from 2^31 on is followed by more, or
   * the record has 2^32 bytes or more.
   */
  method PeekThenConsume(s: seq<Byte>) returns (peek: int, len: nat, r: int, left: seq<Byte>)
    ensures r == 0 ==> peek == 0
    ensures r == 0 ==> var h := ReadHeader(s);
                       && h.Header?
                       && (|s| == len + |left| <==> h.at + h.len < TWO32 && (h.len < TWO31 || h.at + h.len == |s|))
  {
    peek, len := PeekLength(s);
    r, left := Consume(s);
  }

  // ---- Many records

  /** The bytes are the records, one after the other. */
  ghost predicate Stream(b: seq<Byte>, rs: seq<Record>)
    decreases |rs|
  {
    if rs == [] then b == []
    else exists k :: 0 <= k <= |b| && Marshalled(b[..k], rs[0]) && Stream(b[k..], rs[1..])
  }

  lemma {:induction false} StreamMore(b: seq<Byte>, rs: seq<Record>, c: seq<Byte>, r: Record)
    requires Stream(b, rs) && Marshalled(c, r)
    ensures Stream(b + c, rs + [r])
    decreases |rs|
  {
    hide Marshalled;
    if rs == [] {
      assert b + c == c && (b + c)[..|c|] == c && (b + c)[|c|..] == [] && (rs + [r])[1..] == [];
      assert Stream((b + c)[|c|..], (rs + [r])[1..]);
    } else {
      var k :| 0 <= k <= |b| && Marshalled(b[..k], rs[0]) && Stream(b[k..], rs[1..]);
      StreamMore(b[k..], rs[1..], c, r);
      assert (b + c)[..k] == b[..k] && (b + c)[k..] == b[k..] + c && (rs + [r])[1..] == rs[1..] + [r];
      assert Stream((b + c)[k..], (rs + [r])[1..]);
    }
  }

  predicate Sendable(rs: seq<Record>)
  {
    forall i :: 0 <= i < |rs| ==> rs[i].tag < TWO32 && |rs[i].payload| < TWO31
  }

  method MarshalAll(rs: seq<Record>) returns (b: seq<Byte>)
    requires Sendable(rs)
    ensures Stream(b, rs)
  {
    b := [];
    var i := 0;
    while i < |rs|
      invariant 0 <= i <= |rs| && Stream(b, rs[..i])
    {
      var c := Marshal(rs[i].tag, rs[i].payload);
      StreamMore(b, rs[..i], c, rs[i]);
      assert rs[..i] + [rs[i]] == rs[..i + 1];
      b := b + c;
      i := i + 1;
    }
    assert rs[..i] == rs;
  }

  lemma StreamHead(c: seq<Byte>, rs: seq<Record>, trailing: seq<Byte>) returns (k: nat)
    requires rs != [] && Stream(c, rs) && Sendable(rs)
    ensures k <= |c| && Stream(c[k..], rs[1..])
    ensures var l := |rs[0].payload|;
            && l <= k && ReadHeader(c + trailing) == Header(rs[0].tag, l, k - l)
            && (c + trailing)[k - l..k] == rs[0].payload && (c + trailing)[k..] == c[k..] + trailing
  {
    hide Marshalled, ReadHeader, Stream;
    k := StreamSplit(c, rs);
    RecordReads(c, k, rs[0], trailing);
  }

  lemma StreamSplit(c: seq<Byte>, rs: seq<Record>) returns (k: nat)
    requires rs != [] && Stream(c, rs)
    ensures k <= |c| && Marshalled(c[..k], rs[0]) && Stream(c[k..], rs[1..])
  {
    hide Marshalled;
    k :| 0 <= k <= |c| && Marshalled(c[..k], rs[0]) && Stream(c[k..], rs[1..]);
  }

  lemma RecordReads(c: seq<Byte>, k: nat, r: Record, trailing: seq<Byte>)
    requires k <= |c| && Marshalled(c[..k], r) && r.tag < TWO32 && |r.payload| < TWO31
    ensures var s, l := c + trailing, |r.payload|;
            && l <= k && ReadHeader(s) == Header(r.tag, l, k - l)
            && s[k - l..k] == r.payload && s[k..] == c[k..] + trailing
  {
    hide Marshalled, ReadHeader;
    var b := c[..k];
    HeaderRoundTrip(b, r, c[k..] + trailing);
    assert c + trailing == b + (c[k..] + trailing);
    assert (c + trailing)[k - |r.payload|..k] == b[k - |r.payload|..];
  }

  /** Records marshalled into a buffer come out in order and unchanged, and what follows them stays. */
  method UnmarshalAll(s: seq<Byte>, ghost b: seq<Byte>, ghost trailing: seq<Byte>, n: nat, ghost rs: seq<Record>)
    returns (out: seq<Record>, left: seq<Byte>)
    requires s == b + trailing && Stream(b, rs) && Sendable(rs) && n == |rs|
    ensures out == rs && left == trailing
  {
    hide Stream, ReadHeader;
    out, left := [], s;
    ghost var c, todo := b, rs;
    while |out| < n
      invariant |out| + |todo| == n && out + todo == rs && left == c + trailing && Stream(c, todo) && Sendable(todo)
    {
      ghost var k := StreamHead(c, todo, trailing);
      OneOver(out, todo);
      var r, tag, payload, rest, _ := Unmarshal(left);
      out, left, c, todo := out + [Record(tag, payload)], rest, c[k..], todo[1..];
    }
    StreamNone(c);
    assert out == rs;
  }

  lemma OneOver(done: seq<Record>, todo: seq<Record>)
    requires todo != []
    ensures done + [Record(todo[0].tag, todo[0].payload)] + todo[1..] == done + todo
  {
    assert todo == [todo[0]] + todo[1..];
  }

  lemma StreamNone(c: seq<Byte>)
    requires Stream(c, [])
    ensures c == []
  {
  }
}
