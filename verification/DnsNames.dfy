/** Names in DNS messages: length-prefixed labels, ended by a zero, with pointers to earlier names. */
module DnsNames {
  import opened Bytes

  const MAX_LABELS := 128
  const DOT: Byte := '.' as int

  type Name = seq<Byte>

  // ---- What the bytes at a position mean

  /** Where a pointer at p points: the low 14 bits of two bytes, the high one first. */
  function Target(b: seq<Byte>, p: nat): nat
    requires p + 1 < |b|
  {
    b[p] as nat % 64 * 256 + b[p + 1] as nat
  }

  /** A label, or a pointer, lies at p in full. */
  predicate CanStep(b: seq<Byte>, p: nat)
  {
    p < |b| && b[p] != 0 && (if b[p] < 64 then p + 1 + b[p] <= |b| else p + 1 < |b|)
  }

  function Next(b: seq<Byte>, p: nat): nat
    requires CanStep(b, p)
  {
    if b[p] < 64 then p + 1 + b[p] else Target(b, p)
  }

  /** Reading at p ends after exactly n labels and pointers, and the labels are ls. */
  ghost predicate Reads(b: seq<Byte>, p: nat, ls: seq<Name>, n: nat)
    decreases n
  {
    if n == 0 then p < |b| && b[p] == 0 && ls == []
    else
      && CanStep(b, p)
      && if b[p] < 64 then ls != [] && ls[0] == b[p + 1..p + 1 + b[p]] && Reads(b, Next(b, p), ls[1..], n - 1)
         else Reads(b, Next(b, p), ls, n - 1)
  }

  /** The bytes at p spell the labels ls. */
  ghost predicate Spells(b: seq<Byte>, p: nat, ls: seq<Name>)
  {
    exists n :: Reads(b, p, ls, n)
  }

  /** Bytes mean one thing. */
  lemma {:induction false} ReadsUnique(b: seq<Byte>, p: nat, ls: seq<Name>, n: nat, ls': seq<Name>, n': nat)
    requires Reads(b, p, ls, n) && Reads(b, p, ls', n')
    ensures n == n' && ls == ls'
    decreases n
  {
    if n > 0 && n' > 0 {
      if b[p] < 64 {
        ReadsUnique(b, Next(b, p), ls[1..], n - 1, ls'[1..], n' - 1);
        assert ls == [ls[0]] + ls[1..] && ls' == [ls'[0]] + ls'[1..];
      } else {
        ReadsUnique(b, Next(b, p), ls, n - 1, ls', n' - 1);
      }
    }
  }

  /** Bytes appended to a message do not change what it says. */
  lemma {:induction false} ReadsMore(b: seq<Byte>, c: seq<Byte>, p: nat, ls: seq<Name>, n: nat)
    requires Reads(b, p, ls, n) && b <= c
    ensures Reads(c, p, ls, n)
    decreases n
  {
    if n > 0 {
      assert Next(c, p) == Next(b, p);
      if b[p] < 64 {
        assert b[p + 1..p + 1 + b[p]] == c[p + 1..p + 1 + c[p]];
        ReadsMore(b, c, Next(b, p), ls[1..], n - 1);
      } else {
        ReadsMore(b, c, Next(b, p), ls, n - 1);
      }
    }
  }

  lemma SpellsMore(b: seq<Byte>, c: seq<Byte>, p: nat, ls: seq<Name>)
    requires Spells(b, p, ls) && b <= c
    ensures Spells(c, p, ls)
  {
    var n :| Reads(b, p, ls, n);
    ReadsMore(b, c, p, ls, n);
  }

  // ---- A name that ends takes fewer steps than the message has bytes

  /** The positions the reading visits. */
  ghost function Visited(b: seq<Byte>, p: nat, n: nat): set<nat>
    decreases n
  {
    {p} + if n == 0 || !CanStep(b, p) then {} else Visited(b, Next(b, p), n - 1)
  }

  /** From each visited position the reading ends too, in fewer steps the later it is visited. */
  lemma {:induction false} VisitedEnds(b: seq<Byte>, p: nat, ls: seq<Name>, n: nat, q: nat)
    requires Reads(b, p, ls, n) && q in Visited(b, p, n)
    ensures q < |b| && exists k: nat, ms :: k <= n && Reads(b, q, ms, k)
    decreases n
  {
    if q == p {
      assert Reads(b, q, ls, n);
    } else {
      VisitedEnds(b, Next(b, p), if b[p] < 64 then ls[1..] else ls, n - 1, q);
    }
  }

  /** So no position is visited twice. */
  lemma {:induction false} VisitedCount(b: seq<Byte>, p: nat, ls: seq<Name>, n: nat)
    requires Reads(b, p, ls, n)
    ensures |Visited(b, p, n)| == n + 1
    decreases n
  {
    if n > 0 {
      var ms := if b[p] < 64 then ls[1..] else ls;
      VisitedCount(b, Next(b, p), ms, n - 1);
      if p in Visited(b, Next(b, p), n - 1) {
        VisitedEnds(b, Next(b, p), ms, n - 1, p);
        var k: nat, ms' :| k <= n - 1 && Reads(b, p, ms', k);
        ReadsUnique(b, p, ls, n, ms', k);
      }
    }
  }

  lemma {:induction false} SmallSet(s: set<nat>, m: nat)
    requires forall x :: x in s ==> x < m
    ensures |s| <= m
  {
    if m > 0 {
      SmallSet(s - {m - 1}, m - 1);
    } else {
      assert s == {};
    }
  }

  lemma StepsBounded(b: seq<Byte>, p: nat, ls: seq<Name>, n: nat)
    requires Reads(b, p, ls, n)
    ensures n < |b|
  {
    forall q | q in Visited(b, p, n) ensures q < |b| { VisitedEnds(b, p, ls, n, q); }
    VisitedCount(b, p, ls, n);
    SmallSet(Visited(b, p, n), |b|);
  }

  // ---- Names as text

  /** The index of the first dot, or the length. */
  function Dot(name: Name): (d: nat)
    ensures d <= |name| && (d < |name| ==> name[d] == DOT)
  {
    if name == [] || name[0] == DOT then 0 else 1 + Dot(name[1..])
  }

  /** The labels of a name; there is always one, and any of them may be empty. */
  function Split(name: Name): (ls: seq<Name>)
    ensures ls != []
    decreases |name|
  {
    var d := Dot(name);
    if d == |name| then [name] else [name[..d]] + Split(name[d + 1..])
  }

  function Join(ls: seq<Name>): Name
  {
    if ls == [] then [] else if |ls| == 1 then ls[0] else ls[0] + [DOT] + Join(ls[1..])
  }

  /** The labels before the first empty one: that is where a reader stops. */
  function UpToEmpty(ls: seq<Name>): seq<Name>
  {
    if ls == [] || ls[0] == [] then [] else [ls[0]] + UpToEmpty(ls[1..])
  }

  /** What a message says that name was written into. */
  function Said(name: Name): seq<Name>
  {
    UpToEmpty(Split(name))
  }

  ghost predicate NoEmpty(ls: seq<Name>)
  {
    forall i :: 0 <= i < |ls| ==> ls[i] != []
  }

  /** "ab.c" has the labels "ab" and "c". */
  lemma SplitExample()
    ensures Split([97, 98, 46, 99]) == [[97, 98], [99]]
  {
    var name: Name := [97, 98, 46, 99];
    assert Dot(name[2..]) == 0 && Dot(name[1..]) == 1 by { assert name[1..][1..] == name[2..]; }
    assert Dot(name) == 2 && name[..2] == [97, 98] && name[3..] == [99];
    assert Split([99]) == [[99]] by { assert [99][1..] == [] && Dot([99]) == 1; }
  }

  /** Labels contain no dots: with JoinSplit, that is all there is to say about Split. */
  lemma {:induction false} SplitNoDots(name: Name, i: nat)
    requires i < |Split(name)|
    ensures DOT !in Split(name)[i]
    decreases |name|
  {
    var d := Dot(name);
    DotIsFirst(name);
    if d == |name| {
      assert name[..d] == name;
    } else if i > 0 {
      SplitNoDots(name[d + 1..], i - 1);
    }
  }

  lemma {:induction false} DotIsFirst(name: Name)
    ensures DOT !in name[..Dot(name)]
  {
    if name != [] && name[0] != DOT {
      DotIsFirst(name[1..]);
      assert name[..Dot(name)] == [name[0]] + name[1..][..Dot(name[1..])];
    }
  }

  lemma NoneEmpty()
    ensures NoEmpty([])
  {
  }

  lemma JoinCons(l: Name, ls: seq<Name>)
    requires ls != []
    ensures Join([l] + ls) == l + [DOT] + Join(ls)
  {
    assert ([l] + ls)[1..] == ls;
  }

  lemma {:induction false} JoinSplit(name: Name)
    ensures Join(Split(name)) == name
    decreases |name|
  {
    var d := Dot(name);
    assert Join([name]) == name;
    hide Join;
    if d < |name| {
      var rest := Split(name[d + 1..]);
      JoinSplit(name[d + 1..]);
      JoinCons(name[..d], rest);
      assert name == name[..d] + [DOT] + name[d + 1..];
    }
  }

  lemma {:induction false} UpToEmptyIs(ls: seq<Name>)
    ensures var us := UpToEmpty(ls);
            us <= ls && NoEmpty(us) && (us == ls <==> NoEmpty(ls)) && (|us| < |ls| ==> ls[|us|] == [])
  {
    if ls != [] && ls[0] != [] {
      UpToEmptyIs(ls[1..]);
      assert ls == [ls[0]] + ls[1..];
    }
  }

  lemma {:induction false} JoinShorter(ls: seq<Name>, k: nat)
    requires k < |ls|
    ensures |Join(ls[..k])| <= |Join(ls)| && (|ls| > 1 ==> |Join(ls[..k])| < |Join(ls)|)
  {
    if k > 0 {
      JoinShorter(ls[1..], k - 1);
      assert ls[..k][1..] == ls[1..][..k - 1];
    }
  }

  /** The text read back is the text written exactly when no label is empty, or the name is. */
  lemma TextRoundTrip(name: Name)
    ensures Join(Said(name)) == name <==> name == [] || NoEmpty(Split(name))
  {
    var ls := Split(name);
    JoinSplit(name);
    UpToEmptyIs(ls);
    if !NoEmpty(ls) {
      var us := UpToEmpty(ls);
      assert us == ls[..|us|];
      JoinShorter(ls, |us|);
      if |ls| == 1 {
        assert ls[0] == [] && us == [] && name == [];
      }
    }
  }

  // ---- Reading

  /** Where the next field begins: after the zero, or after the first pointer. */
  function After(b: seq<Byte>, p: nat): nat
    decreases |b| - p
  {
    if p >= |b| || b[p] == 0 then p + 1
    else if b[p] >= 64 then p + 2
    else After(b, p + 1 + b[p])
  }

  lemma {:induction false} JoinMore(ls: seq<Name>, l: Name)
    requires NoEmpty(ls)
    ensures Join(ls + [l]) == if ls == [] then l else Join(ls) + [DOT] + l
    ensures Join(ls) == [] <==> ls == []
    ensures l != [] ==> NoEmpty(ls + [l])
  {
    if |ls| > 0 {
      JoinMore(ls[1..], l);
      assert (ls + [l])[1..] == ls[1..] + [l];
    }
  }

  lemma AfterAt(b: seq<Byte>, p: nat)
    ensures After(b, p) == if p >= |b| || b[p] == 0 then p + 1 else if b[p] >= 64 then p + 2 else After(b, p + 1 + b[p])
  {
  }

  /** Reading at idx comes to j after k steps, with the labels done read. */
  ghost predicate Led(b: seq<Byte>, idx: nat, j: nat, done: seq<Name>, k: nat)
  {
    && (forall ls, n: nat :: Reads(b, j, ls, n) ==> Reads(b, idx, done + ls, n + k))
    && (forall ls, n: nat :: Reads(b, idx, ls, n) ==> n >= k && done <= ls && Reads(b, j, ls[|done|..], n - k))
  }

  lemma LedStart(b: seq<Byte>, idx: nat)
    ensures Led(b, idx, idx, [], 0)
  {
    assert forall ls: seq<Name> :: [] + ls == ls && ls[0..] == ls;
  }

  lemma LedLabel(b: seq<Byte>, idx: nat, j: nat, done: seq<Name>, k: nat)
    requires Led(b, idx, j, done, k) && j < |b| && 0 < b[j] < 64 && j + 1 + b[j] <= |b|
    ensures Led(b, idx, j + 1 + b[j], done + [b[j + 1..j + 1 + b[j]]], k + 1)
  {
    var l, q := b[j + 1..j + 1 + b[j]], Next(b, j);
    forall ls, n: nat | Reads(b, q, ls, n) ensures Reads(b, idx, done + [l] + ls, n + (k + 1)) {
      assert ([l] + ls)[1..] == ls;
      assert Reads(b, j, [l] + ls, n + 1);
      assert done + [l] + ls == done + ([l] + ls);
    }
    forall ls, n: nat | Reads(b, idx, ls, n)
      ensures n >= k + 1 && done + [l] <= ls && Reads(b, q, ls[|done + [l]|..], n - (k + 1))
    {
      var rest := ls[|done|..];
      assert Reads(b, j, rest, n - k) && ls == done + rest;
      assert rest == [l] + rest[1..] && rest[1..] == ls[|done + [l]|..];
    }
  }

  lemma LedPointer(b: seq<Byte>, idx: nat, j: nat, done: seq<Name>, k: nat)
    requires Led(b, idx, j, done, k) && j + 1 < |b| && b[j] >= 64
    ensures Led(b, idx, Target(b, j), done, k + 1)
  {
    var q := Target(b, j);
    forall ls, n: nat | Reads(b, q, ls, n) ensures Reads(b, idx, done + ls, n + (k + 1)) {
      assert Reads(b, j, ls, n + 1);
    }
    forall ls, n: nat | Reads(b, idx, ls, n)
      ensures n >= k + 1 && done <= ls && Reads(b, q, ls[|done|..], n - (k + 1))
    {
      assert Reads(b, j, ls[|done|..], n - k);
    }
  }

  /** Nothing is spelled at j, or too much: reading at idx fails. */
  lemma LedNowhere(b: seq<Byte>, idx: nat, j: nat, done: seq<Name>, k: nat)
    requires Led(b, idx, j, done, k)
    requires j >= |b| || (b[j] >= 64 && j + 1 >= |b|) || (0 < b[j] < 64 && j + 1 + b[j] > |b|)
    ensures forall ls :: !Spells(b, idx, ls)
  {
    forall ls, n: nat ensures !Reads(b, idx, ls, n) {
    }
  }

  lemma LedTooLong(b: seq<Byte>, idx: nat, j: nat, done: seq<Name>, k: nat, outLen: nat)
    requires Led(b, idx, j, done, k) && NoEmpty(done) && j < |b| && 0 < b[j] < 64
    requires |Join(done)| + (if done == [] then 0 else 1) + b[j] >= outLen
    ensures forall ls :: Spells(b, idx, ls) ==> |Join(ls)| >= outLen
  {
    forall ls | Spells(b, idx, ls) ensures |Join(ls)| >= outLen {
      var n: nat :| Reads(b, idx, ls, n);
      assert Reads(b, j, ls[|done|..], n - k);
      var l := b[j + 1..j + 1 + b[j]];
      assert ls[|done|] == l && done + [l] == ls[..|done| + 1];
      JoinMore(done, l);
      JoinPrefix(ls, |done| + 1);
    }
  }

  /** More pointers than bytes: reading at idx never ends. */
  lemma LedLoop(b: seq<Byte>, idx: nat, j: nat, done: seq<Name>, k: nat)
    requires Led(b, idx, j, done, k) && k >= |b|
    ensures forall ls :: !Spells(b, idx, ls)
  {
    forall ls, n: nat ensures !Reads(b, idx, ls, n) {
      if Reads(b, idx, ls, n) {
        StepsBounded(b, idx, ls, n);
        assert false;
      }
    }
  }

  lemma LedEnd(b: seq<Byte>, idx: nat, j: nat, done: seq<Name>, k: nat)
    requires Led(b, idx, j, done, k) && j < |b| && b[j] == 0
    ensures forall ls :: Spells(b, idx, ls) <==> ls == done
  {
    assert Reads(b, j, [], 0) && done + [] == done;
    assert Reads(b, idx, done, k);
    forall ls | Spells(b, idx, ls) ensures ls == done {
      var n: nat :| Reads(b, idx, ls, n);
      ReadsUnique(b, idx, ls, n, done, k);
    }
  }

  lemma JoinPrefix(ls: seq<Name>, k: nat)
    requires k <= |ls|
    ensures |Join(ls[..k])| <= |Join(ls)|
  {
    if k < |ls| { JoinShorter(ls, k); } else { assert ls[..k] == ls; }
  }

  /**
   * name_parse. It succeeds exactly when the bytes spell some labels whose text, with its terminating zero, fits;
   * the bound on the number of pointers never turns away a name that ends.
   */
  method NameParse(packet: seq<Byte>, idx: nat, outLen: nat) returns (ok: bool, name: Name, idx': nat)
    ensures ok <==> exists ls :: Spells(packet, idx, ls) && |Join(ls)| < outLen
    ensures forall ls :: ok && Spells(packet, idx, ls) ==> name == Join(ls)
    ensures ok ==> idx' == After(packet, idx)
  {
    hide *;
    var length := |packet|;
    var nameEnd := -1;
    var j: nat, ptrCount := idx, 0;
    name, idx', ok := [], idx, false;
    ghost var done: seq<Name>, k: nat := [], 0;   // the labels read, and the steps taken
    LedStart(packet, idx);
    NoneEmpty();
    JoinMore(done, []);
    while true
      invariant 0 <= ptrCount <= k && ptrCount <= length
      invariant NoEmpty(done) && name == Join(done) && (name == [] <==> done == []) && (done != [] ==> |name| < outLen)
      invariant Led(packet, idx, j, done, k)
      invariant if nameEnd < 0 then After(packet, idx) == After(packet, j) else After(packet, idx) == nameEnd
      decreases length - ptrCount, length - j
    {
      if j >= length {
        LedNowhere(packet, idx, j, done, k);
        return;
      }
      AfterAt(packet, j);
      var labelLen := packet[j];
      if labelLen == 0 {
        break;
      }
      if labelLen >= 64 {
        if j + 1 >= length {
          LedNowhere(packet, idx, j, done, k);
          return;
        }
        if nameEnd < 0 {
          nameEnd := j + 2;
        }
        LedPointer(packet, idx, j, done, k);
        j := Target(packet, j);
        k := k + 1;
        if j >= length {
          LedNowhere(packet, idx, j, done, k);
          return;
        }
        ptrCount := ptrCount + 1;
        if ptrCount > length {
          LedLoop(packet, idx, j, done, k);
          return;
        }
        continue;
      }
      if name != [] {
        if |name| + 1 >= outLen {
          LedTooLong(packet, idx, j, done, k, outLen);
          return;
        }
        name := name + [DOT];
      }
      if |name| + labelLen >= outLen {
        LedTooLong(packet, idx, j, done, k, outLen);
        return;
      }
      if j + 1 + labelLen > length {
        // The original copies what follows the packet, and gives up at the next turn.
        LedNowhere(packet, idx, j, done, k);
        return;
      }
      LedLabel(packet, idx, j, done, k);
      var text := packet[j + 1..j + 1 + labelLen];
      JoinMore(done, text);
      JoinMore(done + [text], []);
      name := name + text;
      done, k := done + [text], k + 1;
      j := j + 1 + labelLen;
    }
    LedEnd(packet, idx, j, done, k);
    if |name| >= outLen {
      return;
    }
    idx' := if nameEnd < 0 then j + 1 else nameEnd;
    ok := true;
  }

  // ---- Writing

  /** The part of a name from k on is written at j, as far as every longer message is concerned. */
  ghost predicate Continues(b: seq<Byte>, p: nat, name: Name, rest: Name)
  {
    forall c :: b <= c && Spells(c, |b|, Said(rest)) ==> Spells(c, p, Said(name))
  }

  lemma ContinuesSelf(b: seq<Byte>, rest: Name)
    ensures Continues(b, |b|, rest, rest)
  {
  }

  lemma SpellsLabel(c: seq<Byte>, p: nat, l: Name, ls: seq<Name>)
    requires 0 < |l| < 64 && p + 1 + |l| <= |c| && c[p] == |l| && c[p + 1..p + 1 + |l|] == l
    requires Spells(c, p + 1 + |l|, ls)
    ensures Spells(c, p, [l] + ls)
  {
    var n: nat :| Reads(c, p + 1 + |l|, ls, n);
    assert ([l] + ls)[1..] == ls;
    assert Reads(c, p, [l] + ls, n + 1);
  }

  lemma SpellsEnd(c: seq<Byte>, p: nat)
    requires p < |c| && c[p] == 0
    ensures Spells(c, p, [])
  {
    assert Reads(c, p, [], 0);
  }

  /** A label on the wire. */
  function LabelBytes(l: Name): (r: seq<Byte>)
    requires |l| < 64
    ensures |r| == 1 + |l|
  {
    var x: Byte := |l|;
    [x] + l
  }

  lemma BytesBehind(b: seq<Byte>, l: Name, c: seq<Byte>)
    requires |l| < 64 && b + LabelBytes(l) <= c
    ensures b <= c && |b| + 1 + |l| <= |c| && c[|b|] == |l| && c[|b| + 1..|b| + 1 + |l|] == l
  {
    var e := b + LabelBytes(l);
    assert c[|b|] == e[|b|];
    forall i | 0 <= i < |l| ensures c[|b| + 1..|b| + 1 + |l|][i] == l[i] {
      assert e[|b| + 1 + i] == l[i];
    }
  }

  /** In a message that goes on with the rest of a name, its first label behind b spells all of it. */
  lemma LabelInFront(b: seq<Byte>, l: Name, next: seq<Name>, c: seq<Byte>)
    requires |l| < 64 && b + LabelBytes(l) <= c && Spells(c, |b + LabelBytes(l)|, next)
    ensures b <= c && Spells(c, |b|, if l == [] then [] else [l] + next)
  {
    hide Spells;
    BytesBehind(b, l, c);
    if l == [] {
      SpellsEnd(c, |b|);
    } else {
      SpellsLabel(c, |b|, l, next);
    }
  }

  /** A label written behind b takes the name to what follows its first dot. */
  lemma ContinuesLabel(b: seq<Byte>, p: nat, name: Name, rest: Name)
    requires Continues(b, p, name, rest)
    requires var d := Dot(rest); d < |rest| && d < 64
    ensures var d := Dot(rest); Continues(b + LabelBytes(rest[..d]), p, name, rest[d + 1..])
  {
    hide Dot, Said, Spells, LabelBytes;
    var d := Dot(rest);
    var l, rest' := rest[..d], rest[d + 1..];
    SaidStep(rest);
    var e := b + LabelBytes(l);
    forall c | e <= c && Spells(c, |e|, Said(rest')) ensures Spells(c, p, Said(name)) {
      LabelInFront(b, l, Said(rest'), c);
    }
  }

  lemma SaidStep(name: Name)
    ensures var d := Dot(name);
            Said(name) == if d == 0 then [] else [name[..d]] + if d == |name| then [] else Said(name[d + 1..])
  {
    hide *;
    var d := Dot(name);
    SplitStep(name);
    SaidIs(name);
    if d == |name| {
      assert name[..d] == name && [name] + [] == [name];
      UpToEmptyCons(name, []);
    } else {
      var rest := name[d + 1..];
      SaidIs(rest);
      UpToEmptyCons(name[..d], Split(rest));
    }
  }

  lemma SaidIs(name: Name)
    ensures Said(name) == UpToEmpty(Split(name))
  {
  }

  lemma SplitStep(name: Name)
    ensures var d := Dot(name); Split(name) == if d == |name| then [name] else [name[..d]] + Split(name[d + 1..])
  {
    hide Dot;
  }

  lemma UpToEmptyCons(l: Name, ls: seq<Name>)
    ensures UpToEmpty([l] + ls) == if l == [] then [] else [l] + UpToEmpty(ls)
    ensures UpToEmpty([]) == []
  {
    assert ([l] + ls)[1..] == ls;
  }

  /** The bytes of a pointer to pos, with both high bits set; it points back to pos only if pos has 14 bits. */
  function Pointer(pos: nat): (r: seq<Byte>)
    ensures |r| == 2 && r[0] >= 64 && Target(r, 0) == pos % 0x4000
    ensures Target(r, 0) == pos <==> pos < 0x4000
  {
    assert pos % 0x4000 == pos / 256 % 64 * 256 + pos % 256;
    [192 + pos / 256 % 64, pos % 256]
  }

  /** A pointer is two bytes, the high one first, and the position is in the low fourteen bits. */
  lemma TargetBits(b: seq<Byte>, p: nat)
    requires p + 1 < |b|
    ensures Target(b, p) == (b[p] as nat * 256 + b[p + 1] as nat) % 0x4000
  {
    LowBits(b[p] as nat, b[p + 1] as nat);
  }

  lemma LowBits(x: nat, y: nat)
    requires y < 256
    ensures (x * 256 + y) % 0x4000 == x % 64 * 256 + y
  {
    var q, r := x / 64, x % 64 * 256 + y;
    assert x * 256 + y == 0x4000 * q + r && r < 0x4000;
  }

  /** Both high bits are set. */
  lemma PointerBits(pos: nat)
    ensures Pointer(pos)[0] as nat * 256 + Pointer(pos)[1] as nat == 0xc000 + pos % 0x4000
  {
    LowBits(pos / 256, pos % 256);
  }

  /** A pointer behind b to where rest is spelled. */
  lemma PointerSpells(b: seq<Byte>, rest: Name, pos: nat, c: seq<Byte>)
    requires Spells(b, pos, Said(rest)) && pos < 0x4000 && b + Pointer(pos) <= c
    ensures b <= c && Spells(c, |b|, Said(rest))
  {
    hide Said, Pointer;
    var e := b + Pointer(pos);
    assert c[|b|] == e[|b|] == Pointer(pos)[0] && c[|b| + 1] == e[|b| + 1] == Pointer(pos)[1];
    assert Target(c, |b|) == Target(Pointer(pos), 0);
    SpellsMore(b, c, pos, Said(rest));
    var n: nat :| Reads(c, pos, Said(rest), n);
    assert Reads(c, |b|, Said(rest), n + 1);
  }

  /** The last label behind b, and the zero. */
  lemma LastSpells(b: seq<Byte>, rest: Name, c: seq<Byte>)
    requires Dot(rest) == |rest| && 0 < |rest| < 64
    requires b + LabelBytes(rest) <= c && |b + LabelBytes(rest)| < |c| && c[|b + LabelBytes(rest)|] == 0
    ensures b <= c && Spells(c, |b|, Said(rest))
  {
    hide Dot, Said, Spells, LabelBytes;
    LastSaid(rest);
    SpellsEnd(c, |b + LabelBytes(rest)|);
    LabelInFront(b, rest, [], c);
  }

  lemma LastSaid(rest: Name)
    requires Dot(rest) == |rest|
    ensures Said(rest) == if rest == [] then [] else [rest] + []
  {
    hide Dot, Said;
    SaidStep(rest);
    assert rest[..|rest|] == rest;
  }

  /** Reading at p comes to the end of b without a pointer and without an end. */
  ghost predicate Passes(b: seq<Byte>, p: nat)
  {
    forall c :: b <= c ==> After(c, p) == After(c, |b|)
  }

  lemma PassesLabel(b: seq<Byte>, p: nat, l: Name)
    requires Passes(b, p) && 0 < |l| < 64
    ensures Passes(b + LabelBytes(l), p)
  {
    hide After, LabelBytes;
    var e := b + LabelBytes(l);
    forall c | e <= c ensures After(c, p) == After(c, |e|) {
      BytesBehind(b, l, c);
      AfterAt(c, |b|);
    }
  }

  /** Reading at p ends within b, whatever follows. */
  ghost predicate Ended(b: seq<Byte>, p: nat)
  {
    forall c :: b <= c ==> After(c, p) <= |b|
  }

  /** An empty label is an end. */
  lemma EndedAt(b: seq<Byte>, p: nat)
    requires Passes(b, p)
    ensures Ended(b + LabelBytes([]), p)
  {
    hide After, LabelBytes;
    var e := b + LabelBytes([]);
    forall c | e <= c ensures After(c, p) <= |e| {
      BytesBehind(b, [], c);
      AfterAt(c, |b|);
    }
  }

  lemma EndedMore(b: seq<Byte>, p: nat, c: seq<Byte>)
    requires Ended(b, p) && b <= c
    ensures Ended(c, p)
  {
    hide After;
    forall d | c <= d ensures After(d, p) <= |c| {
      assert b <= d;
    }
  }

  // ---- The encoder

  datatype Entry = Entry(name: Name, pos: nat)

  /** Every entry of the table is spelled where the table says. */
  ghost predicate Sound(labels: seq<Entry>, b: seq<Byte>)
  {
    forall i :: 0 <= i < |labels| ==> Spells(b, labels[i].pos, Said(labels[i].name))
  }

  /** Every entry is an end of the name that is longer than rest, and is spelled as soon as rest is written behind b. */
  ghost predicate Begun(labels: seq<Entry>, b: seq<Byte>, rest: Name)
  {
    forall i :: 0 <= i < |labels| ==> |labels[i].name| > |rest| && Continues(b, labels[i].pos, labels[i].name, rest)
  }

  /** The labels with one more, if there is place. */
  function Noted(labels: seq<Entry>, name: Name, pos: nat): seq<Entry>
  {
    if |labels| == MAX_LABELS then labels else labels + [Entry(name, pos)]
  }

  class LabelTable {
    var labels: seq<Entry>

    constructor ()
      ensures labels == []
    {
      labels := [];
    }

    /** dnslabel_table_get_pos */
    method GetPos(name: Name) returns (r: int, ghost i: nat)
      ensures r >= 0 ==> i < |labels| && labels[i] == Entry(name, r)
      ensures r < 0 ==> r == -1 && forall a :: 0 <= a < |labels| ==> labels[a].name != name
    {
      i := 0;
      var k := 0;
      while k < |labels|
        invariant 0 <= k <= |labels| && forall a :: 0 <= a < k ==> labels[a].name != name
      {
        if labels[k].name == name {
          return labels[k].pos, k;
        }
        k := k + 1;
      }
      r := -1;
    }

    /** dnslabel_table_add: a full table stays as it is. */
    method Add(name: Name, pos: nat)
      modifies this
      ensures labels == Noted(old(labels), name, pos)
    {
      if |labels| != MAX_LABELS {
        labels := labels + [Entry(name, pos)];
      }
    }
  }

  /** The length byte and the bytes of a label, at buf[j]. */
  method PutLabel(buf: array<Byte>, j: nat, l: Name)
    requires |l| < 64 && j + 1 + |l| <= buf.Length
    modifies buf
    ensures buf[..j + 1 + |l|] == old(buf[..j]) + LabelBytes(l)
    ensures buf[j + |l|] == if l == [] then 0 else l[|l| - 1]
  {
    buf[j] := |l|;
    var i := 0;
    while i < |l|
      invariant 0 <= i <= |l| && buf[..j] == old(buf[..j]) && buf[j] == |l|
      invariant forall a :: 0 <= a < i ==> buf[j + 1 + a] == l[a]
    {
      buf[j + 1 + i] := l[i];
      i := i + 1;
    }
    forall a | 0 <= a < j + 1 + |l| ensures buf[a] == (old(buf[..j]) + LabelBytes(l))[a] {
      if a < j { assert buf[..j][a] == old(buf[..j])[a]; }
    }
  }

  lemma BegunLabel(labels: seq<Entry>, b: seq<Byte>, rest: Name)
    requires Begun(labels, b, rest)
    requires var d := Dot(rest); d < |rest| && d < 64
    ensures var d := Dot(rest);
            Begun(labels + [Entry(rest, |b|)], b + LabelBytes(rest[..d]), rest[d + 1..])
            && Begun(labels, b + LabelBytes(rest[..d]), rest[d + 1..])
  {
    var d := Dot(rest);
    var c, rest' := b + LabelBytes(rest[..d]), rest[d + 1..];
    ContinuesSelf(b, rest);
    forall p, name | Continues(b, p, name, rest) ensures Continues(c, p, name, rest') {
      hide *;
      ContinuesLabel(b, p, name, rest);
    }
    BegunNext(labels, b, rest, c, rest');
  }

  lemma BegunNext(labels: seq<Entry>, b: seq<Byte>, rest: Name, c: seq<Byte>, rest': Name)
    requires Begun(labels, b, rest) && |rest'| < |rest| && Continues(b, |b|, rest, rest)
    requires forall p, name :: Continues(b, p, name, rest) ==> Continues(c, p, name, rest')
    ensures Begun(labels + [Entry(rest, |b|)], c, rest') && Begun(labels, c, rest')
  {
    hide Continues;
  }

  lemma BegunDone(labels: seq<Entry>, b: seq<Byte>, rest: Name, c: seq<Byte>)
    requires Begun(labels, b, rest) && b <= c && Spells(c, |b|, Said(rest))
    ensures Sound(labels, c)
  {
    hide Spells, Said;
  }

  lemma SoundMore(labels: seq<Entry>, b: seq<Byte>, c: seq<Byte>)
    requires Sound(labels, b) && b <= c
    ensures Sound(labels, c)
  {
    hide Spells, Said;
    forall i | 0 <= i < |labels| ensures Spells(c, labels[i].pos, Said(labels[i].name)) {
      SpellsMore(b, c, labels[i].pos, Said(labels[i].name));
    }
  }

  /** No label but the last is empty. */
  ghost predicate NoEmptyInside(name: Name)
    decreases |name|
  {
    var d := Dot(name);
    d == |name| || (d > 0 && NoEmptyInside(name[d + 1..]))
  }

  /** No label is longer than 63 bytes. */
  ghost predicate ShortLabels(name: Name)
    decreases |name|
  {
    var d := Dot(name);
    d < 64 && (d < |name| ==> ShortLabels(name[d + 1..]))
  }

  /** The part of name before rest has been written from j0 on, up to the end of b. */
  ghost predicate Writing(b0: seq<Byte>, b: seq<Byte>, name: Name, rest: Name, added: seq<Entry>)
  {
    && b0 <= b && Continues(b, |b0|, name, rest) && Begun(added, b, rest)
    && (|| (Passes(b, |b0|) && (NoEmptyInside(name) <==> NoEmptyInside(rest)))
        || (Ended(b, |b0|) && !NoEmptyInside(name)))
    && (ShortLabels(name) <==> ShortLabels(rest)) && (LastLabel(name) == LastLabel(rest))
  }

  /** The label after the last dot. */
  ghost function LastLabel(name: Name): Name
    decreases |name|
  {
    var d := Dot(name);
    if d == |name| then name else LastLabel(name[d + 1..])
  }

  /** Neither the name nor what follows any of its dots is in the table. */
  ghost predicate NoneKnown(known: seq<Entry>, name: Name)
    decreases |name|
  {
    && (forall i :: 0 <= i < |known| ==> known[i].name != name)
    && (Dot(name) < |name| ==> NoneKnown(known, name[Dot(name) + 1..]))
  }

  /** The length of what comes before the first end that is in the table. */
  ghost function LeadLen(known: seq<Entry>, name: Name): (n: nat)
    ensures n <= |name|
    decreases |name|
  {
    if IsKnown(known, name) || Dot(name) == |name| then 0 else Dot(name) + 1 + LeadLen(known, name[Dot(name) + 1..])
  }

  /** No label that comes before it is longer than 63 bytes. */
  ghost predicate ShortLead(known: seq<Entry>, name: Name)
    decreases |name|
  {
    IsKnown(known, name) || (Dot(name) < 64 && (Dot(name) < |name| ==> ShortLead(known, name[Dot(name) + 1..])))
  }

  predicate IsKnown(known: seq<Entry>, name: Name)
  {
    exists i :: 0 <= i < |known| && known[i].name == name
  }

  /** One label. */
  lemma LeadStep(known: seq<Entry>, name: Name)
    ensures IsKnown(known, name) ==> !NoneKnown(known, name) && LeadLen(known, name) == 0 && ShortLead(known, name)
    ensures !IsKnown(known, name) && Dot(name) == |name| ==>
              NoneKnown(known, name) && (ShortLead(known, name) <==> Dot(name) < 64)
    ensures !IsKnown(known, name) && Dot(name) < |name| ==>
              var rest := name[Dot(name) + 1..];
              && (NoneKnown(known, name) <==> NoneKnown(known, rest))
              && LeadLen(known, name) == Dot(name) + 1 + LeadLen(known, rest)
              && (ShortLead(known, name) <==> Dot(name) < 64 && ShortLead(known, rest))
  {
    hide Dot;
  }

  lemma {:induction false} LeadPlain(known: seq<Entry>, name: Name)
    ensures ShortLabels(name) ==> ShortLead(known, name)
    ensures NoneKnown(known, name) ==> (ShortLead(known, name) <==> ShortLabels(name))
    decreases |name|
  {
    hide Dot;
    if Dot(name) < |name| { LeadPlain(known, name[Dot(name) + 1..]); }
  }

  lemma {:induction false} NoneKnownNone(name: Name)
    ensures NoneKnown([], name)
    decreases |name|
  {
    if Dot(name) < |name| { NoneKnownNone(name[Dot(name) + 1..]); }
  }

  lemma WritingStart(b: seq<Byte>, name: Name)
    ensures Writing(b, b, name, name, [])
  {
    hide Continues, Passes, Ended, NoEmptyInside, ShortLabels, LastLabel;
    ContinuesSelf(b, name);
    PassesSelf(b);
  }

  lemma PassesSelf(b: seq<Byte>)
    ensures Passes(b, |b|)
  {
  }

  lemma WritingLabel(b0: seq<Byte>, b: seq<Byte>, name: Name, rest: Name, added: seq<Entry>, l: Name, rest': Name)
    requires Writing(b0, b, name, rest, added) && Dot(rest) < |rest| && Dot(rest) < 64
    requires l == rest[..Dot(rest)] && rest' == rest[Dot(rest) + 1..]
    ensures Writing(b0, b + LabelBytes(l), name, rest', added)
    ensures Writing(b0, b + LabelBytes(l), name, rest', added + [Entry(rest, |b|)])
  {
    LabelsStep(rest);
    hide Dot, Continues, Passes, Ended, LabelBytes, NoEmptyInside, ShortLabels, Begun, LastLabel;
    ContinuesLabel(b, |b0|, name, rest);
    BegunLabel(added, b, rest);
    if Passes(b, |b0|) {
      if l == [] { EndedAt(b, |b0|); } else { PassesLabel(b, |b0|, l); }
    }
    if Ended(b, |b0|) {
      EndedMore(b, |b0|, b + LabelBytes(l));
    }
  }

  lemma ShortSoFar(b0: seq<Byte>, b: seq<Byte>, name: Name, rest: Name, added: seq<Entry>)
    requires Writing(b0, b, name, rest, added)
    ensures Dot(rest) > 63 ==> !ShortLabels(name)
    ensures Dot(rest) == |rest| < 64 ==> ShortLabels(name)
    ensures Dot(rest) == |rest| ==> LastLabel(name) == rest
  {
    hide Dot, Continues, Passes, Ended, Begun;
  }

  lemma LabelsStep(rest: Name)
    requires Dot(rest) < |rest|
    ensures NoEmptyInside(rest) <==> Dot(rest) > 0 && NoEmptyInside(rest[Dot(rest) + 1..])
    ensures ShortLabels(rest) <==> Dot(rest) < 64 && ShortLabels(rest[Dot(rest) + 1..])
    ensures LastLabel(rest) == LastLabel(rest[Dot(rest) + 1..])
  {
    hide Dot;
  }

  /** When rest is spelled behind b, so are the name and everything in the table. */
  lemma WritingDone(b0: seq<Byte>, b: seq<Byte>, name: Name, rest: Name, added: seq<Entry>, known: seq<Entry>, c: seq<Byte>)
    requires Writing(b0, b, name, rest, added) && Sound(known, b0)
    requires b <= c && |b| < |c| && Spells(c, |b|, Said(rest)) && After(c, |b|) == |c|
    ensures b0 <= c && Spells(c, |b0|, Said(name)) && Sound(known + added, c)
    ensures After(c, |b0|) <= |c| && (NoEmptyInside(name) ==> After(c, |b0|) == |c|)
    ensures NoEmptyInside(rest) ==> (After(c, |b0|) == |c| <==> NoEmptyInside(name))
  {
    BegunDone(added, b, rest, c);
    hide Spells, Said, After, NoEmptyInside, ShortLabels, Begun, LastLabel;
    SoundMore(known, b0, c);
  }

  /** The last label and the zero, at buf[j]; over: there is no place for the zero before bufLen. */
  method PutLast(buf: array<Byte>, bufLen: nat, j: nat, l: Name) returns (r: nat, over: bool)
    requires |l| < 64 && j + 1 + |l| <= bufLen <= buf.Length && Dot(l) == |l| && 0 !in l
    modifies buf
    ensures over <==> l != [] && j + 1 + |l| == bufLen
    ensures !over ==> j < r <= bufLen && r == j + 1 + |l| + if l == [] then 0 else 1
    ensures !over ==> var b, c := old(buf[..j]), buf[..r];
                      b <= c && Spells(c, |b|, Said(l)) && After(c, |b|) == |c|
  {
    hide Spells, Said, Dot, After;
    ghost var b := buf[..j];
    PutLabel(buf, j, l);
    r, over := j + 1 + |l|, false;
    ghost var e := buf[..r];
    assert e == b + LabelBytes(l);
    if buf[r - 1] != 0 {
      if r == bufLen {
        // The original writes the zero there.
        return r, true;
      }
      buf[r] := 0;
      r := r + 1;
      assert buf[..r - 1] == e;
      LastSpells(b, l, buf[..r]);
      BytesBehind(b, l, buf[..r]);
      AfterAt(buf[..r], j);
      AfterAt(buf[..r], r - 1);
    } else {
      LastSaid(l);
      SpellsEnd(e, j);
      AfterAt(e, j);
    }
  }

  /** A pointer, at buf[j], to where the rest of a name was written. */
  method PutPointer(buf: array<Byte>, j: nat, pos: nat, ghost rest: Name) returns (r: nat)
    requires j + 2 <= buf.Length && pos < 0x4000 && Spells(buf[..j], pos, Said(rest))
    modifies buf
    ensures r == j + 2
    ensures var b, c := old(buf[..j]), buf[..r];
            b <= c && Spells(c, |b|, Said(rest)) && After(c, |b|) == |c|
  {
    hide Spells, Said, After, Pointer;
    ghost var b := buf[..j];
    buf[j], buf[j + 1] := Pointer(pos)[0], Pointer(pos)[1];
    r := j + 2;
    assert buf[..r] == b + Pointer(pos);
    PointerSpells(b, rest, pos, buf[..r]);
    AfterAt(buf[..r], j);
  }

  /** What the table says of the rest of a name was there before the name was begun. */
  lemma KnownEntry(b0: seq<Byte>, b: seq<Byte>, name: Name, rest: Name, added: seq<Entry>, known: seq<Entry>, i: nat)
    requires Writing(b0, b, name, rest, added) && Sound(known, b0) && i < |known + added| && (known + added)[i].name == rest
    ensures (known + added)[i].pos < |b0| && Spells(b, (known + added)[i].pos, Said(rest))
  {
    SoundMore(known, b0, b);
    hide Continues;
    assert i < |known|;
    var n: nat :| Reads(b0, known[i].pos, Said(rest), n);
  }

  /** The table holds what it knew before this name was begun, and the ends of the name added since. */
  ghost predicate Holds(table: LabelTable?, known: seq<Entry>, added: seq<Entry>)
    reads table
  {
    if table == null then known == added == [] else table.labels == known + added
  }

  /** One label of the name, and its entry in the table. */
  method WriteLabel(buf: array<Byte>, j: nat, rest: Name, table: LabelTable?,
                    ghost b0: seq<Byte>, ghost name: Name, ghost known: seq<Entry>, ghost added: seq<Entry>)
    returns (ghost added': seq<Entry>)
    requires Dot(rest) < |rest| && Dot(rest) < 64 && j + 1 + Dot(rest) <= buf.Length
    requires Writing(b0, buf[..j], name, rest, added) && Holds(table, known, added)
    modifies buf, table
    ensures Writing(b0, buf[..j + 1 + Dot(rest)], name, rest[Dot(rest) + 1..], added') && Holds(table, known, added')
    ensures table != null ==> table.labels == Noted(old(table.labels), rest, j)
  {
    hide Dot, LabelBytes, Writing;
    var l := rest[..Dot(rest)];
    WritingLabel(b0, buf[..j], name, rest, added, l, rest[Dot(rest) + 1..]);
    added' := added;
    if table != null {
      if |table.labels| != MAX_LABELS { added' := added + [Entry(rest, j)]; }
      table.Add(rest, j);
      assert table.labels == known + added';
    }
    PutLabel(buf, j, l);
  }

  /** From the end of b0 on, c spells the name up to its first empty label and no more; all in the table is spelled. */
  ghost predicate Written(b0: seq<Byte>, c: seq<Byte>, name: Name, table: LabelTable?)
    reads table
  {
    && b0 <= c && Spells(c, |b0|, Said(name))
    && After(c, |b0|) <= |c| && (NoEmptyInside(name) ==> After(c, |b0|) == |c|)
    && (table == null ==> (After(c, |b0|) == |c| <==> NoEmptyInside(name)))
    && (table != null ==> Sound(table.labels, c))
  }

  /** The last label of the name. */
  method WriteLast(buf: array<Byte>, bufLen: nat, j: nat, rest: Name, table: LabelTable?,
                   ghost b0: seq<Byte>, ghost name: Name, ghost known: seq<Entry>, ghost added: seq<Entry>)
    returns (r: nat, over: bool)
    requires Dot(rest) == |rest| < 64 && j + 1 + |rest| <= bufLen <= buf.Length && 0 !in rest && Sound(known, b0)
    requires Writing(b0, buf[..j], name, rest, added) && Holds(table, known, added)
    modifies buf, table
    ensures over <==> rest != [] && j + 1 + |rest| == bufLen
    ensures !over ==> r == j + 1 + |rest| + if rest == [] then 0 else 1
    ensures !over ==> j < r <= bufLen && Written(b0, buf[..r], name, table)
    ensures table != null ==> table.labels == Noted(old(table.labels), rest, j)
  {
    hide Dot, Writing, Spells, Said, NoEmptyInside, After, Sound;
    ghost var b := buf[..j];
    if table != null {
      table.Add(rest, j);
    }
    r, over := PutLast(buf, bufLen, j, rest);
    if !over {
      OneLabel(rest);
      WritingDone(b0, b, name, rest, added, known, buf[..r]);
      SoundAlso(known + added, rest, j, buf[..r]);
    }
  }

  lemma OneLabel(rest: Name)
    requires Dot(rest) == |rest|
    ensures NoEmptyInside(rest)
  {
  }

  /** The rest of the name is in the table already. */
  method WriteRef(buf: array<Byte>, j: nat, rest: Name, table: LabelTable, pos: nat, ghost at: nat,
                  ghost b0: seq<Byte>, ghost name: Name, ghost known: seq<Entry>, ghost added: seq<Entry>)
    returns (r: nat)
    requires j + 2 <= buf.Length && |b0| <= 0x4000 && Sound(known, b0)
    requires at < |table.labels| && table.labels[at] == Entry(rest, pos)
    requires Writing(b0, buf[..j], name, rest, added) && Holds(table, known, added)
    modifies buf
    ensures r == j + 2 && Written(b0, buf[..r], name, table)
  {
    hide Writing, Spells, Said, NoEmptyInside, After, Sound;
    ghost var b := buf[..j];
    KnownEntry(b0, b, name, rest, added, known, at);
    r := PutPointer(buf, j, pos, rest);
    WritingDone(b0, b, name, rest, added, known, buf[..r]);
  }

  /** The name can be written out in full, but for the final zero, from j0 on. */
  ghost predicate Fits(name: Name, j0: nat, bufLen: nat)
  {
    |name| <= 255 && ShortLabels(name) && j0 + |name| + 1 <= bufLen
  }

  /** So that it can be, but there is no place for the final zero, and one is needed. */
  ghost predicate Overruns(name: Name, j0: nat, bufLen: nat)
  {
    Fits(name, j0, bufLen) && LastLabel(name) != [] && j0 + |name| + 1 == bufLen
  }

  /**
   * When writing the name succeeds, and with which r, and when it goes over, with the entries known in the table: written
   * out if it shares no end with any of them, and else up to the first end that it shares.
   */
  ghost predicate Told(known: seq<Entry>, name: Name, j0: nat, bufLen: nat, r: int, over: bool)
  {
    && (if r < 0 then r == -1 || r == -2 else !over && j0 < r <= bufLen)
    && (|name| > 255 ==> r == -2)
    && (r == -1 ==> !ShortLead(known, name))
    && (|name| <= 255 && !ShortLead(known, name) && j0 + |name| + 1 <= bufLen ==> r == -1)
    && (over <==> NoneKnown(known, name) && Overruns(name, j0, bufLen))
    && if NoneKnown(known, name) then
         && (r >= 0 || over <==> Fits(name, j0, bufLen))
         && (r >= 0 ==> r == j0 + |name| + 1 + if LastLabel(name) == [] then 0 else 1)
       else
         var at := j0 + LeadLen(known, name);
         && (r >= 0 <==> |name| <= 255 && ShortLead(known, name) && at + 2 <= bufLen)
         && (r >= 0 ==> r == at + 2)
  }

  /** Writing the name has come to rest, at j. */
  ghost predicate Come(known: seq<Entry>, name: Name, j0: nat, rest: Name, j: nat)
  {
    && |name| <= 255 && j + |rest| == j0 + |name| && j0 <= j
    && (NoneKnown(known, name) <==> NoneKnown(known, rest))
    && LeadLen(known, name) == j - j0 + LeadLen(known, rest)
    && (ShortLead(known, name) <==> ShortLead(known, rest))
  }

  lemma ComeOn(known: seq<Entry>, name: Name, j0: nat, rest: Name, j: nat)
    requires Come(known, name, j0, rest, j) && !IsKnown(known, rest) && Dot(rest) < |rest| && Dot(rest) < 64
    ensures Come(known, name, j0, rest[Dot(rest) + 1..], j + 1 + Dot(rest))
  {
    hide Dot, NoneKnown, LeadLen, ShortLead, IsKnown;
    LeadStep(known, rest);
  }

  /** A pointer, at j, if there is place for it. */
  lemma ToldRef(known: seq<Entry>, name: Name, j0: nat, bufLen: nat, rest: Name, j: nat)
    requires Come(known, name, j0, rest, j) && IsKnown(known, rest)
    ensures Told(known, name, j0, bufLen, if j + 2 > bufLen then -2 else j + 2, false)
  {
    hide Dot, NoneKnown, LeadLen, ShortLead, IsKnown;
    LeadStep(known, rest);
  }

  /** A label that is too long, or that there is no place for, at j. */
  lemma ToldRefused(known: seq<Entry>, name: Name, j0: nat, bufLen: nat, rest: Name, j: nat)
    requires Come(known, name, j0, rest, j) && !IsKnown(known, rest)
    ensures Dot(rest) > 63 ==> Told(known, name, j0, bufLen, -1, false)
    ensures Dot(rest) <= 63 && j + Dot(rest) + 1 > bufLen ==> Told(known, name, j0, bufLen, -2, false)
  {
    hide Dot, NoneKnown, LeadLen, ShortLead, IsKnown, ShortLabels, LastLabel;
    LeadStep(known, rest);
    LeadPlain(known, name);
  }

  /** The last label. */
  lemma ToldLast(known: seq<Entry>, name: Name, j0: nat, bufLen: nat, rest: Name, j: nat, r: nat, over: bool)
    requires Come(known, name, j0, rest, j) && !IsKnown(known, rest) && Dot(rest) == |rest| < 64
    requires LastLabel(name) == rest && j + |rest| + 1 <= bufLen
    requires (over <==> rest != [] && j + 1 + |rest| == bufLen) && (!over ==> j0 < r <= bufLen)
    requires !over ==> r == j + 1 + |rest| + if rest == [] then 0 else 1
    ensures Told(known, name, j0, bufLen, if over then -2 else r, over)
  {
    hide Dot, NoneKnown, LeadLen, ShortLead, IsKnown, ShortLabels, LastLabel;
    LeadStep(known, rest);
    LeadPlain(known, name);
  }

  /** The entries of the table when the name has been written from j on. */
  ghost function Entered(labels: seq<Entry>, name: Name, j: nat): seq<Entry>
    decreases |name|
  {
    if IsKnown(labels, name) then labels
    else if Dot(name) == |name| then Noted(labels, name, j)
    else Entered(Noted(labels, name, j), name[Dot(name) + 1..], j + 1 + Dot(name))
  }

  lemma EnteredStep(labels: seq<Entry>, name: Name, j: nat)
    ensures IsKnown(labels, name) ==> Entered(labels, name, j) == labels
    ensures !IsKnown(labels, name) ==>
              Entered(labels, name, j) == if Dot(name) == |name| then Noted(labels, name, j)
                else Entered(Noted(labels, name, j), name[Dot(name) + 1..], j + 1 + Dot(name))
  {
    hide Dot;
  }

  /** The entries of a table, none if there is none. */
  ghost function EntriesOf(table: LabelTable?): seq<Entry>
    reads table
  {
    if table == null then [] else table.labels
  }

  /**
   * dnsname_to_labels: from buf[j] on, the message spells the name up to its first empty label, and it still spells
   * every name in the table. It is said exactly when it succeeds, where it ends, what is in the table then, and exactly
   * when (over) the final zero has no place before bufLen, which the original does not look at.
   */
  method ToLabels(buf: array<Byte>, bufLen: nat, j0: nat, name: Name, table: LabelTable?) returns (r: int, over: bool)
    requires j0 <= bufLen <= buf.Length && 0 !in name
    requires table != null ==> j0 <= 0x4000 && Sound(table.labels, buf[..j0])
    modifies buf, table
    ensures r >= 0 ==> j0 < r <= bufLen && Written(old(buf[..j0]), buf[..r], name, table)
    ensures r >= 0 && table != null ==> table.labels == Entered(old(table.labels), name, j0)
    ensures Told(old(EntriesOf(table)), name, j0, bufLen, r, over)
  {
    if |name| > 255 {
      return -2, false;
    }
    r, over := WriteName(buf, bufLen, j0, name, table);
    assert r >= 0 ==> j0 < r <= bufLen;
  }

  /** Its loop over the labels. */
  method WriteName(buf: array<Byte>, bufLen: nat, j0: nat, name: Name, table: LabelTable?) returns (r: int, over: bool)
    requires j0 <= bufLen <= buf.Length && 0 !in name && |name| <= 255
    requires table != null ==> j0 <= 0x4000 && Sound(table.labels, buf[..j0])
    modifies buf, table
    ensures r >= 0 ==> r <= bufLen && Written(old(buf[..j0]), buf[..r], name, table)
    ensures r >= 0 && table != null ==> table.labels == Entered(old(table.labels), name, j0)
    ensures Told(old(EntriesOf(table)), name, j0, bufLen, r, over)
  {
    hide *;
    over := false;
    ghost var b0, known := buf[..j0], EntriesOf(table);
    ghost var added: seq<Entry> := [];
    var rest, j := name, j0;
    WritingStart(b0, name);
    HoldsStart(table, b0);
    ComeStart(known, name, j0);
    while true
      invariant j + |rest| == j0 + |name| && j0 <= j <= bufLen && 0 !in rest && !over
      invariant Writing(b0, buf[..j], name, rest, added) && Holds(table, known, added)
      invariant Come(known, name, j0, rest, j)
      invariant table != null ==> Entered(table.labels, rest, j) == Entered(known, name, j0)
      decreases |rest|
    {
      if table != null {
        EnteredStep(table.labels, rest, j);
        var ref, at := table.GetPos(rest);
        if ref >= 0 {
          EntryKnown(table, b0, buf[..j], name, rest, known, added, at);
          ToldRef(known, name, j0, bufLen, rest, j);
          if j + 2 > bufLen {
            return -2, false;
          }
          r := WriteRef(buf, j, rest, table, ref, at, b0, name, known, added);
          return;
        }
      }
      EntryUnknown(table, rest, known, added);
      var d := Dot(rest);
      ShortSoFar(b0, buf[..j], name, rest, added);
      ToldRefused(known, name, j0, bufLen, rest, j);
      if d > 63 {
        return -1, false;
      }
      if j + d + 1 > bufLen {
        return -2, false;
      }
      if d == |rest| {
        r, over := WriteLast(buf, bufLen, j, rest, table, b0, name, known, added);
        ToldLast(known, name, j0, bufLen, rest, j, r, over);
        if over {
          r := -2;
        }
        return;
      }
      ComeOn(known, name, j0, rest, j);
      added := WriteLabel(buf, j, rest, table, b0, name, known, added);
      j := j + 1 + d;
      rest := rest[d + 1..];
    }
  }

  lemma ComeStart(known: seq<Entry>, name: Name, j0: nat)
    requires |name| <= 255
    ensures Come(known, name, j0, name, j0)
  {
  }

  /** What is found in the table was there before the name was begun. */
  lemma EntryKnown(table: LabelTable, b0: seq<Byte>, b: seq<Byte>, name: Name, rest: Name, known: seq<Entry>, added: seq<Entry>, at: nat)
    requires Writing(b0, b, name, rest, added) && Holds(table, known, added)
    requires at < |table.labels| && table.labels[at].name == rest
    ensures IsKnown(known, rest) && IsKnown(table.labels, rest)
  {
    hide Continues, Passes, Ended, NoEmptyInside, ShortLabels, LastLabel;
    assert at < |known|;
  }

  /** What is not found was not there. */
  lemma EntryUnknown(table: LabelTable?, rest: Name, known: seq<Entry>, added: seq<Entry>)
    requires Holds(table, known, added)
    requires table != null ==> forall a :: 0 <= a < |table.labels| ==> table.labels[a].name != rest
    ensures !IsKnown(known, rest) && (table != null ==> !IsKnown(table.labels, rest))
  {
    if table != null {
      forall i | 0 <= i < |known| ensures known[i].name != rest { assert (known + added)[i] == known[i]; }
    }
  }

  /** One letter, and room for it and its length only. */
  method ZeroWithoutPlace() returns (over: bool)
    ensures over
  {
    var buf := new Byte[2];
    var name: Name := [97];
    assert Dot(name) == 1 && LastLabel(name) == name && ShortLabels(name);
    NoneKnownNone(name);
    var r;
    r, over := ToLabels(buf, 2, 0, name, null);
  }

  const HEADER_LEN := 12

  /** evdns_request_len */
  function RequestLen(nameLen: nat): nat
  {
    96 + nameLen + 2 + 4
  }

  /** In a request of that length there is place for the zero, and only a name that is not one is refused. */
  lemma RequestHasRoom(name: Name, r: int, over: bool)
    requires Told([], name, HEADER_LEN, RequestLen(|name|), r, over)
    ensures !over && (r >= 0 <==> |name| <= 255 && ShortLabels(name)) && (r >= 0 ==> r + 4 <= RequestLen(|name|))
  {
    NoneKnownNone(name);
  }

  lemma SoundAlso(labels: seq<Entry>, name: Name, pos: nat, b: seq<Byte>)
    requires Sound(labels, b) && Spells(b, pos, Said(name))
    ensures Sound(labels + [Entry(name, pos)], b)
  {
  }

  lemma HoldsStart(table: LabelTable?, b: seq<Byte>)
    ensures Holds(table, EntriesOf(table), []) && (table == null ==> Sound([], b))
    ensures EntriesOf(table) == if table == null then [] else table.labels
  {
  }

  lemma NothingKnown(b: seq<Byte>)
    ensures Sound([], b)
  {
  }

  // ---- A message with many names

  /** In b the name lies from p to q, and a reader ends there unless the name has an empty label inside. */
  ghost predicate Lies(b: seq<Byte>, name: Name, p: nat, q: nat)
  {
    && |name| <= 255 && Spells(b, p, Said(name))
    && After(b, p) <= q <= |b| && (NoEmptyInside(name) ==> After(b, p) == q)
  }

  lemma LiesMore(b: seq<Byte>, c: seq<Byte>, name: Name, p: nat, q: nat)
    requires Lies(b, name, p, q) && b <= c
    ensures Lies(c, name, p, q)
  {
    hide Spells, Said, After, NoEmptyInside;
    SpellsMore(b, c, p, Said(name));
    AfterMore(b, c, p);
  }

  lemma {:induction false} AfterMore(b: seq<Byte>, c: seq<Byte>, p: nat)
    requires b <= c && After(b, p) <= |b|
    ensures After(c, p) == After(b, p)
    decreases |b| - p
  {
    if p < |b| && 0 < b[p] < 64 {
      AfterMore(b, c, p + 1 + b[p]);
    }
  }

  /** Each name lies from its start to its end. */
  ghost predicate AllLie(b: seq<Byte>, names: seq<Name>, starts: seq<nat>, ends: seq<nat>)
  {
    |names| == |starts| == |ends| && forall i :: 0 <= i < |names| ==> Lies(b, names[i], starts[i], ends[i])
  }

  lemma AllLieMore(b: seq<Byte>, c: seq<Byte>, names: seq<Name>, starts: seq<nat>, ends: seq<nat>)
    requires AllLie(b, names, starts, ends) && b <= c
    ensures AllLie(c, names, starts, ends)
  {
    hide Lies;
    forall i | 0 <= i < |names| ensures Lies(c, names[i], starts[i], ends[i]) {
      LiesMore(b, c, names[i], starts[i], ends[i]);
    }
  }

  /** The fields after a name, at buf[j]. */
  method PutBytes(buf: array<Byte>, j: nat, bytes: seq<Byte>)
    requires j + |bytes| <= buf.Length
    modifies buf
    ensures buf[..j + |bytes|] == old(buf[..j]) + bytes
  {
    var i := 0;
    while i < |bytes|
      invariant 0 <= i <= |bytes| && buf[..j + i] == old(buf[..j]) + bytes[..i]
    {
      buf[j + i] := bytes[i];
      i := i + 1;
    }
    assert bytes[..i] == bytes;
  }

  /** What is in the table once names have been written from starts on. */
  ghost function EnteredAll(names: seq<Name>, starts: seq<nat>): seq<Entry>
    requires |names| == |starts|
  {
    if names == [] then []
    else
      var n := |names| - 1;
      Entered(EnteredAll(names[..n], starts[..n]), names[n], starts[n])
  }

  lemma EnteredOneMore(names: seq<Name>, starts: seq<nat>, name: Name, start: nat)
    requires |names| == |starts|
    ensures EnteredAll(names + [name], starts + [start]) == Entered(EnteredAll(names, starts), name, start)
  {
    assert (names + [name])[..|names|] == names && (starts + [start])[..|starts|] == starts;
  }

  /** The i-th name, begun at its start, shares no end with the names before it, and its zero has no place. */
  ghost predicate OverAt(names: seq<Name>, starts: seq<nat>, i: nat, bufLen: nat)
    requires i < |starts| <= |names|
  {
    NoneKnown(EnteredAll(names[..i], starts[..i]), names[i]) && Overruns(names[i], starts[i], bufLen)
  }

  /**
   * A message as a server writes it: names, each with the fields that follow it, and one table for all of them. over:
   * exactly the last name begun ends so that its final zero has no place before bufLen.
   */
  method WriteAll(buf: array<Byte>, bufLen: nat, j0: nat, names: seq<Name>, fields: seq<seq<Byte>>)
    returns (r: int, starts: seq<nat>, ends: seq<nat>, over: bool)
    requires j0 <= bufLen <= buf.Length && bufLen <= 0x4000 && |names| == |fields|
    requires forall i :: 0 <= i < |names| ==> 0 !in names[i]
    modifies buf
    ensures r >= 0 ==> !over && j0 <= r <= bufLen && AllLie(buf[..r], names, starts, ends)
    ensures |ends| <= |starts| <= |names| && |starts| <= |ends| + 1
    ensures over ==> |starts| > 0
    ensures forall i :: 0 <= i < |starts| ==> (OverAt(names, starts, i, bufLen) <==> over && i == |starts| - 1)
    ensures InPlace(starts, ends, fields, j0)
    ensures r >= 0 ==> FieldsLie(buf[..r], ends, fields) && r == Behind(ends, fields, j0)
    ensures r < 0 && |starts| == |ends| ==> Behind(ends, fields, j0) > bufLen
  {
    hide Spells, Said, After, Sound, NoEmptyInside, AllLie, Lies, Told, EnteredAll, Entered, OverAt, FieldsLie, InPlace, Behind;
    var table := new LabelTable();
    NothingKnown(buf[..j0]);
    FieldsNone(buf[..j0], fields, j0);
    r, starts, ends, over := j0, [], [], false;
    NoneLie(buf[..j0]);
    var i := 0;
    assert names[..0] == [];
    EnteredNone();
    while i < |names|
      invariant 0 <= i <= |names| && j0 <= r <= bufLen && fresh(table) && !over && |starts| == |ends| == i
      invariant AllLie(buf[..r], names[..i], starts, ends) && Sound(table.labels, buf[..r])
      invariant table.labels == EnteredAll(names[..i], starts)
      invariant forall k :: 0 <= k < i ==> !OverAt(names, starts, k, bufLen)
      invariant InPlace(starts, ends, fields, j0)
      invariant FieldsLie(buf[..r], ends, fields) && r == Behind(ends, fields, j0)
    {
      ghost var b, before := buf[..r], starts;
      var start: nat := r;
      starts := starts + [start];
      r, over := ToLabels(buf, bufLen, start, names[i], table);
      OverIs(before, names, start, bufLen, r, over);
      InPlaceMore(before, ends, fields, j0, r);
      if over || r < 0 {
        return;
      }
      OneMoreLies(b, buf[..r], names[..i], before, ends, names[i]);
      EnteredOneMore(names[..i], before, names[i], start);
      assert names[..i] + [names[i]] == names[..i + 1];
      ghost var before' := ends;
      ends := ends + [r];
      if r + |fields[i]| > bufLen {
        r := -2;
        return;
      }
      ghost var c := buf[..r];
      PutBytes(buf, r, fields[i]);
      AllLieMore(c, c + fields[i], names[..i + 1], starts, ends);
      FieldsMore(b, c, before', fields);
      SoundMore(table.labels, c, c + fields[i]);
      r := r + |fields[i]|;
      i := i + 1;
    }
    assert names[..i] == names;
  }

  /** The fields lie behind the names. */
  ghost predicate FieldsLie(b: seq<Byte>, ends: seq<nat>, fields: seq<seq<Byte>>)
    requires |ends| <= |fields|
  {
    forall i :: 0 <= i < |ends| ==> ends[i] + |fields[i]| <= |b| && b[ends[i]..ends[i] + |fields[i]|] == fields[i]
  }

  /** Where the next name begins: behind the last field. */
  function Behind(ends: seq<nat>, fields: seq<seq<Byte>>, j0: nat): nat
    requires |ends| <= |fields|
  {
    if ends == [] then j0 else ends[|ends| - 1] + |fields[|ends| - 1]|
  }

  /** Each name begins where the field of the one before it ends. */
  ghost predicate InPlace(starts: seq<nat>, ends: seq<nat>, fields: seq<seq<Byte>>, j0: nat)
    requires |starts| <= |ends| + 1 && |ends| <= |fields|
  {
    forall i :: 0 <= i < |starts| ==> starts[i] == Behind(ends[..i], fields, j0)
  }

  lemma InPlaceMore(starts: seq<nat>, ends: seq<nat>, fields: seq<seq<Byte>>, j0: nat, e: int)
    requires |starts| == |ends| < |fields| && InPlace(starts, ends, fields, j0)
    ensures InPlace(starts + [Behind(ends, fields, j0)], ends, fields, j0)
    ensures e >= 0 ==> InPlace(starts + [Behind(ends, fields, j0)], ends + [e], fields, j0)
    ensures e >= 0 ==> Behind(ends + [e], fields, j0) == e + |fields[|ends|]|
  {
    hide Behind;
    assert ends[..|ends|] == ends;
    if e >= 0 {
      assert forall i :: 0 <= i <= |ends| ==> (ends + [e])[..i] == ends[..i];
      assert Behind(ends + [e], fields, j0) == e + |fields[|ends|]| by { BehindOne(ends, fields, j0, e); }
    }
  }

  lemma BehindOne(ends: seq<nat>, fields: seq<seq<Byte>>, j0: nat, e: nat)
    requires |ends| < |fields|
    ensures Behind(ends + [e], fields, j0) == e + |fields[|ends|]|
  {
  }

  lemma FieldsNone(b: seq<Byte>, fields: seq<seq<Byte>>, j0: nat)
    ensures FieldsLie(b, [], fields) && InPlace([], [], fields, j0) && Behind([], fields, j0) == j0
  {
  }

  lemma FieldsMore(b: seq<Byte>, c: seq<Byte>, ends: seq<nat>, fields: seq<seq<Byte>>)
    requires |ends| < |fields| && FieldsLie(b, ends, fields) && b <= c
    ensures FieldsLie(c + fields[|ends|], ends + [|c|], fields)
  {
    var d := c + fields[|ends|];
    forall i | 0 <= i < |ends| ensures ends[i] + |fields[i]| <= |d| && d[ends[i]..ends[i] + |fields[i]|] == fields[i] {
      assert d[..|b|] == b;
      assert d[ends[i]..ends[i] + |fields[i]|] == d[..|b|][ends[i]..ends[i] + |fields[i]|];
    }
  }

  lemma EnteredNone()
    ensures EnteredAll([], []) == []
  {
  }

  /** Whether the next name goes over, and that nothing changes for those before it. */
  lemma OverIs(starts: seq<nat>, names: seq<Name>, start: nat, bufLen: nat, r: int, over: bool)
    requires |starts| < |names| && Told(EnteredAll(names[..|starts|], starts), names[|starts|], start, bufLen, r, over)
    ensures OverAt(names, starts + [start], |starts|, bufLen) <==> over
    ensures forall k :: 0 <= k < |starts| ==> (OverAt(names, starts + [start], k, bufLen) <==> OverAt(names, starts, k, bufLen))
    ensures over ==> r < 0
    ensures r >= 0 ==> |names[|starts|]| <= 255
  {
    hide NoneKnown, EnteredAll, Overruns, ShortLead, LeadLen;
    var more := starts + [start];
    assert more[..|starts|] == starts;
    forall k | 0 <= k < |starts| ensures more[..k] == starts[..k] && more[k] == starts[k] {
    }
  }

  lemma NoneLie(b: seq<Byte>)
    ensures AllLie(b, [], [], [])
  {
  }

  lemma OneMoreLies(b: seq<Byte>, c: seq<Byte>, names: seq<Name>, starts: seq<nat>, ends: seq<nat>, name: Name)
    requires AllLie(b, names, starts, ends) && b <= c && |name| <= 255 && Spells(c, |b|, Said(name))
    requires After(c, |b|) <= |c| && (NoEmptyInside(name) ==> After(c, |b|) == |c|)
    ensures AllLie(c, names + [name], starts + [|b|], ends + [|c|])
  {
    hide Lies, Spells, Said, After, NoEmptyInside;
    AllLieMore(b, c, names, starts, ends);
    LiesIs(c, name, |b|, |c|);
  }

  lemma LiesIs(c: seq<Byte>, name: Name, p: nat, q: nat)
    requires |name| <= 255 && Spells(c, p, Said(name)) && After(c, p) <= q <= |c| && (NoEmptyInside(name) ==> After(c, p) == q)
    ensures Lies(c, name, p, q)
  {
  }

  /** Parsed at each start, it gives each name back, up to its first empty label, and the offset after it. */
  method ReadAll(packet: seq<Byte>, ghost names: seq<Name>, starts: seq<nat>, ghost ends: seq<nat>)
    returns (ok: bool, texts: seq<Name>, nexts: seq<nat>)
    requires AllLie(packet, names, starts, ends)
    ensures ok && |nexts| == |texts| == |names|
    ensures forall i :: 0 <= i < |names| ==> texts[i] == Join(Said(names[i]))
    ensures forall i :: 0 <= i < |names| ==> nexts[i] <= ends[i] && (NoEmptyInside(names[i]) ==> nexts[i] == ends[i])
  {
    hide Spells, Said, After, Join, NoEmptyInside;
    ok, texts, nexts := true, [], [];
    while |texts| < |starts|
      invariant ok && |texts| == |nexts| <= |starts|
      invariant forall i :: 0 <= i < |texts| ==> texts[i] == Join(Said(names[i]))
      invariant forall i :: 0 <= i < |texts| ==> nexts[i] <= ends[i] && (NoEmptyInside(names[i]) ==> nexts[i] == ends[i])
    {
      var i := |texts|;
      assert Lies(packet, names[i], starts[i], ends[i]);
      SaidFits(names[i]);
      var one, text, next := NameParse(packet, starts[i], 256);
      ok, texts, nexts := ok && one, texts + [text], nexts + [next];
    }
  }

  lemma SaidFits(name: Name)
    ensures |Join(Said(name))| <= |name|
  {
    JoinSplit(name);
    UpToEmptyIs(Split(name));
    var k := |Said(name)|;
    assert Said(name) == Split(name)[..k];
    JoinPrefix(Split(name), k);
  }
}
