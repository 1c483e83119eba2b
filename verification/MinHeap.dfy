/** The min-heap of timeouts: events ordered by expiry time, each knowing its index in the heap. */
module MinHeap {
  import opened Seqs

  /** A user's event, or the event that stands in the heap for a common-timeout list. */
  datatype Ev = User(id: nat) | Proxy(list: nat)

  /** Microseconds. */
  type Time = int

  /** ev_timeout of an event. */
  function When(key: map<Ev, Time>, e: Ev): Time
  {
    if e in key then key[e] else 0
  }

  function Parent(i: nat): nat
  {
    if i == 0 then 0 else (i - 1) / 2
  }

  /** The keys with those of the events in s moved to earlier times. */
  function Earlier(key: map<Ev, Time>, s: set<Ev>, off: Time): map<Ev, Time>
  {
    map e | e in key :: if e in s then key[e] - off else key[e]
  }

  /** Entry i is not earlier than its parent. */
  ghost predicate Above(q: seq<Ev>, key: map<Ev, Time>, i: nat)
    requires i < |q|
  {
    When(key, q[Parent(i)]) <= When(key, q[i])
  }

  ghost predicate Ordered(q: seq<Ev>, key: map<Ev, Time>)
  {
    forall i :: 0 < i < |q| ==> Above(q, key, i)
  }

  /** Entry h may be earlier than its parent; everything else is in order, also with h left out. */
  ghost predicate OrderedButUp(q: seq<Ev>, key: map<Ev, Time>, h: nat)
  {
    && h < |q|
    && (forall i :: 0 < i < |q| && i != h ==> Above(q, key, i))
    && (h > 0 && 2 * h + 1 < |q| ==> When(key, q[Parent(h)]) <= When(key, q[2 * h + 1]))
    && (h > 0 && 2 * h + 2 < |q| ==> When(key, q[Parent(h)]) <= When(key, q[2 * h + 2]))
  }

  /** Entry h may be later than its children; everything else is in order, also with h left out. */
  ghost predicate OrderedButDown(q: seq<Ev>, key: map<Ev, Time>, h: nat)
  {
    && h < |q|
    && (forall i :: 0 < i < |q| && Parent(i) != h ==> Above(q, key, i))
    && (h > 0 && 2 * h + 1 < |q| ==> When(key, q[Parent(h)]) <= When(key, q[2 * h + 1]))
    && (h > 0 && 2 * h + 2 < |q| ==> When(key, q[Parent(h)]) <= When(key, q[2 * h + 2]))
  }

  /** The root of an ordered heap is the earliest. */
  lemma {:induction false} RootIsFirst(q: seq<Ev>, key: map<Ev, Time>, i: nat)
    requires Ordered(q, key) && i < |q|
    ensures When(key, q[0]) <= When(key, q[i])
  {
    if i > 0 {
      assert Above(q, key, i);
      RootIsFirst(q, key, Parent(i));
    }
  }

  /** Every entry but h knows its index. */
  ghost predicate Indexed(q: seq<Ev>, idx: map<Ev, int>, h: int)
  {
    && NoDup(q)
    && (forall i :: 0 <= i < |q| && i != h ==> q[i] in idx && idx[q[i]] == i)
  }

  /** What is not an entry has no index. */
  ghost predicate OthersOut(q: seq<Ev>, idx: map<Ev, int>)
  {
    forall e :: e in idx && e !in q ==> idx[e] == -1
  }

  /** Only the indices of events in q have changed. */
  ghost predicate SameOutside(q: seq<Ev>, before: map<Ev, int>, after: map<Ev, int>)
  {
    before.Keys == after.Keys && forall e :: e in before && e !in q ==> after[e] == before[e]
  }

  ghost predicate SameEvents(q: seq<Ev>, r: seq<Ev>)
  {
    forall e :: e in q <==> e in r
  }

  function Swap(q: seq<Ev>, i: nat, j: nat): seq<Ev>
    requires i < |q| && j < |q|
  {
    q[i := q[j]][j := q[i]]
  }

  /** The array a with e written over entry h. */
  ghost function Filled(a: seq<Ev>, n: nat, h: nat, e: Ev): (r: seq<Ev>)
    requires h < n <= |a|
    ensures |r| == n
  {
    a[..n][h := e]
  }

  /** With e in the hole h, the first n entries of a are the events of q0, and those outside the hole are indexed. */
  ghost predicate Hole(a: seq<Ev>, n: nat, h: nat, e: Ev, ix: map<Ev, int>, q0: seq<Ev>, idx0: map<Ev, int>)
  {
    && h < n <= |a|
    && Indexed(Filled(a, n, h, e), ix, h)
    && SameEvents(Filled(a, n, h, e), q0)
    && SameOutside(q0, idx0, ix)
  }

  lemma HoleStart(a: seq<Ev>, n: nat, h: nat, e: Ev, ix: map<Ev, int>)
    requires h < n <= |a| && Indexed(Filled(a, n, h, e), ix, h)
    ensures Hole(a, n, h, e, ix, Filled(a, n, h, e), ix)
  {
  }

  /** Copying entry c into the hole moves the hole to c. */
  lemma HoleMove(a: seq<Ev>, n: nat, h: nat, c: nat, e: Ev, ix: map<Ev, int>, q0: seq<Ev>, idx0: map<Ev, int>)
    requires Hole(a, n, h, e, ix, q0, idx0) && c < n && c != h
    ensures Hole(a[h := a[c]], n, c, e, ix[a[c] := h], q0, idx0)
    ensures Filled(a[h := a[c]], n, c, e) == Swap(Filled(a, n, h, e), h, c)
  {
    var q := Filled(a, n, h, e);
    var s := Filled(a[h := a[c]], n, c, e);
    assert s == Swap(q, h, c);
    assert q[c] in q;
    forall x ensures x in s <==> x in q {
      if x in q {
        var k :| 0 <= k < |q| && q[k] == x;
        assert s[if k == h then c else if k == c then h else k] == x;
      }
    }
  }

  lemma HoleDone(a: seq<Ev>, n: nat, h: nat, e: Ev, ix: map<Ev, int>, q0: seq<Ev>, idx0: map<Ev, int>)
    requires Hole(a, n, h, e, ix, q0, idx0) && e in idx0
    ensures a[h := e][..n] == Filled(a, n, h, e)
    ensures Indexed(a[h := e][..n], ix[e := h], -1) && SameEvents(a[h := e][..n], q0)
    ensures SameOutside(a[h := e][..n], idx0, ix[e := h])
  {
    assert a[h := e][..n] == Filled(a, n, h, e);
    assert a[h := e][..n][h] == e;
  }

  lemma SwapUp(q: seq<Ev>, key: map<Ev, Time>, h: nat)
    requires OrderedButUp(q, key, h) && h > 0 && When(key, q[h]) < When(key, q[Parent(h)])
    ensures OrderedButUp(Swap(q, h, Parent(h)), key, Parent(h))
  {
    var s := Swap(q, h, Parent(h));
    forall i | 0 < i < |s| && i != Parent(h) ensures Above(s, key, i) {
      if i != h {
        assert Above(q, key, i);
      }
    }
    if Parent(h) > 0 {
      assert Above(q, key, Parent(h));
      if 2 * Parent(h) + 1 < |q| && 2 * Parent(h) + 1 != h { assert Above(q, key, 2 * Parent(h) + 1); }
      if 2 * Parent(h) + 2 < |q| && 2 * Parent(h) + 2 != h { assert Above(q, key, 2 * Parent(h) + 2); }
    }
  }

  lemma SwapDown(q: seq<Ev>, key: map<Ev, Time>, h: nat, c: nat)
    requires OrderedButDown(q, key, h) && (h > 0 ==> Above(q, key, h))
    requires (c == 2 * h + 1 || c == 2 * h + 2) && c < |q|
    requires When(key, q[c]) < When(key, q[h])
    requires 2 * h + 1 < |q| ==> When(key, q[c]) <= When(key, q[2 * h + 1])
    requires 2 * h + 2 < |q| ==> When(key, q[c]) <= When(key, q[2 * h + 2])
    ensures OrderedButDown(Swap(q, h, c), key, c) && Above(Swap(q, h, c), key, c)
  {
    var s := Swap(q, h, c);
    forall i | 0 < i < |s| && Parent(i) != c ensures Above(s, key, i) {
      if i != h && Parent(i) != h {
        assert Above(q, key, i);
      }
    }
    if 2 * c + 1 < |q| { assert Above(q, key, 2 * c + 1); }
    if 2 * c + 2 < |q| { assert Above(q, key, 2 * c + 2); }
  }

  class TimeHeap {
    var p: seq<Ev>          // the array; only the first n entries count
    var n: nat
    var idx: map<Ev, int>   // min_heap_idx of every event set up, -1 outside the heap
    var key: map<Ev, Time>  // ev_timeout of every event

    ghost predicate Valid()
      reads this
    {
      n <= |p| && Ordered(p[..n], key) && Indexed(p[..n], idx, -1) && OthersOut(p[..n], idx)
    }

    /** The events in the heap. */
    ghost function Elems(): set<Ev>
      reads this
    {
      if n <= |p| then set e | e in p[..n] else {}
    }

    constructor ()
      ensures Valid() && Elems() == {} && idx == map[] && key == map[]
    {
      p, n, idx, key := [], 0, map[], map[];
    }

    /** min_heap_top and min_heap_empty: an event no later than any other, if there is one. */
    method Top() returns (found: bool, e: Ev)
      requires Valid()
      ensures found <==> Elems() != {}
      ensures found ==> e in Elems() && forall x :: x in Elems() ==> When(key, e) <= When(key, x)
    {
      found, e := n > 0, User(0);
      assert n == 0 ==> Elems() == {};
      if n > 0 {
        e := p[0];
        assert e == p[..n][0] && e in Elems();
        forall x | x in p[..n] ensures When(key, e) <= When(key, x) {
          var i :| 0 <= i < n && p[..n][i] == x;
          RootIsFirst(p[..n], key, i);
        }
      }
    }

    /** min_heap_shift_up_: e belongs at the hole h or above it. */
    method ShiftUp(h0: nat, e: Ev)
      requires h0 < n <= |p| && e in idx
      requires OrderedButUp(Filled(p, n, h0, e), key, h0) && Indexed(Filled(p, n, h0, e), idx, h0)
      modifies this`p, this`idx
      ensures |p| == |old(p)| && Ordered(p[..n], key) && Indexed(p[..n], idx, -1)
      ensures SameEvents(p[..n], old(Filled(p, n, h0, e))) && SameOutside(p[..n], old(idx), idx)
    {
      ghost var q0, idx0 := Filled(p, n, h0, e), idx;
      assert Hole(p, n, h0, e, idx, q0, idx0);
      hide Ordered, OrderedButUp, Indexed, Hole, SameEvents, SameOutside;
      var h: nat := h0;
      var a, ix := p, idx;
      while h > 0 && When(key, a[Parent(h)]) > When(key, e)
        invariant |a| == |old(p)| && h < n && Hole(a, n, h, e, ix, q0, idx0) && OrderedButUp(Filled(a, n, h, e), key, h)
      {
        var parent := Parent(h);
        SwapUp(Filled(a, n, h, e), key, h);
        HoleMove(a, n, h, parent, e, ix, q0, idx0);
        a, ix := a[h := a[parent]], ix[a[parent] := h];
        h := parent;
      }
      UpDone(Filled(a, n, h, e), key, h);
      HoleDone(a, n, h, e, ix, q0, idx0);
      p, idx := a[h := e], ix[e := h];
    }

    /** min_heap_shift_down_: e belongs at the hole h or below it. */
    method ShiftDown(h0: nat, e: Ev)
      requires h0 < n < |p| && e in idx
      requires OrderedButDown(Filled(p, n, h0, e), key, h0) && (h0 > 0 ==> Above(Filled(p, n, h0, e), key, h0))
      requires Indexed(Filled(p, n, h0, e), idx, h0)
      modifies this`p, this`idx
      ensures |p| == |old(p)| && Ordered(p[..n], key) && Indexed(p[..n], idx, -1)
      ensures SameEvents(p[..n], old(Filled(p, n, h0, e))) && SameOutside(p[..n], old(idx), idx)
    {
      hide *;
      ghost var q0, idx0 := Filled(p, n, h0, e), idx;
      HoleStart(p, n, h0, e, idx);
      var h: nat := h0;
      var minChild := 2 * (h + 1);
      var a, ix := p, idx;
      while minChild <= n
        invariant |a| == |old(p)| && h < n && minChild == 2 * (h + 1) && Hole(a, n, h, e, ix, q0, idx0)
        invariant OrderedButDown(Filled(a, n, h, e), key, h) && (h > 0 ==> Above(Filled(a, n, h, e), key, h))
        decreases n - h
      {
        if minChild == n || When(key, a[minChild]) > When(key, a[minChild - 1]) {
          minChild := minChild - 1;
        }
        if !(When(key, e) > When(key, a[minChild])) {
          break;
        }
        HoleMove(a, n, h, minChild, e, ix, q0, idx0);
        DownStep(a, n, h, minChild, e, key);
        a, ix := a[h := a[minChild]], ix[a[minChild] := h];
        h := minChild;
        minChild := 2 * (h + 1);
      }
      DownStop(a, n, h, e, key);
      HoleDone(a, n, h, e, ix, q0, idx0);
      p, idx := a[h := e], ix[e := h];
    }

    /** min_heap_elem_init: a new event is outside the heap. */
    method Init(e: Ev)
      requires Valid() && e !in idx && e !in key && idx.Keys == key.Keys
      modifies this`idx, this`key
      ensures Valid() && Elems() == old(Elems()) && idx.Keys == key.Keys == old(key.Keys) + {e}
      ensures key == old(key)[e := 0]
    {
      assert e !in p[..n];
      SetKey(e, 0);
      idx := idx[e := -1];
    }

    /** Store to ev_timeout of an event outside the heap. */
    method SetKey(e: Ev, t: Time)
      requires Valid() && e !in Elems()
      modifies this`key
      ensures Valid() && Elems() == old(Elems()) && key == old(key)[e := t]
    {
      ghost var q, was := p[..n], key;
      key := key[e := t];
      forall i | 0 < i < |q| ensures Above(q, key, i) {
        assert Above(q, was, i) && q[i] in q && q[Parent(i)] in q;
      }
    }

    /** Subtract off from ev_timeout of every entry, one array slot after the other. */
    method SubtractAll(off: Time)
      requires Valid() && idx.Keys == key.Keys
      modifies this`key
      ensures Valid() && Elems() == old(Elems()) && key == Earlier(old(key), Elems(), off) && key.Keys == old(key.Keys)
    {
      hide Ordered, Indexed, Earlier, First;
      ghost var was, q := key, p[..n];
      EarlierNone(was, q, off);
      var i := 0;
      while i < n
        invariant i <= n && key == Earlier(was, First(q, i), off) && key.Keys == was.Keys
      {
        assert q[i] == p[i];
        EarlierNext(was, q, idx, i, off);
        key := key[p[i] := key[p[i]] - off];
        i := i + 1;
      }
      OrderedEarlier(q, was, idx, off);
    }

    /** min_heap_reserve: make the array at least size entries long. */
    method Reserve(size: nat)
      requires n <= |p|
      modifies this`p
      ensures |p| >= size && n <= |p| && p[..n] == old(p[..n])
    {
      if |p| < size {
        var a := if |p| > 0 then |p| * 2 else 8;
        if a < size {
          a := size;
        }
        ghost var q := p[..n];
        p := p + seq(a - |p|, _ => User(0));
        assert p[..n] == q;
      }
    }

    /** min_heap_push. */
    method Push(e: Ev)
      requires Valid() && e in idx && e !in Elems()
      modifies this`p, this`n, this`idx
      ensures Valid() && Elems() == old(Elems()) + {e} && idx.Keys == old(idx.Keys)
    {
      hide Ordered, OrderedButUp, Indexed;
      Reserve(n + 1);
      ghost var q := p[..n];
      n := n + 1;
      assert p[..n][n - 1 := e] == q + [e];
      PushSpot(q, key, idx, e);
      ShiftUp(n - 1, e);
      assert forall x :: x in p[..n] <==> x in q + [e];
    }

    /** min_heap_erase: -1 when e is not in the heap. */
    method Erase(e: Ev) returns (r: int)
      requires Valid() && e in idx
      modifies this`p, this`n, this`idx
      ensures Valid() && idx.Keys == old(idx.Keys)
      ensures r == if e in old(Elems()) then 0 else -1
      ensures Elems() == old(Elems()) - {e}
    {
      hide Ordered, OrderedButUp, OrderedButDown, Indexed, When;
      ghost var q := p[..n];
      IndexSays(q, idx, e);
      if idx[e] == -1 {
        return -1;
      }
      var h := idx[e];
      n := n - 1;
      var last := p[n];
      assert q[n] == last && q[h] == e && p[..n] == q[..n] && (h > 0 ==> q[Parent(h)] == p[Parent(h)]);
      if h == n {
        // The hole is past the end: shifting down from it only writes the entry back.
        EraseLast(q, key, idx);
        assert !(h > 0 && When(key, p[Parent(h)]) > When(key, last));
      } else {
        EraseOrder(q, key, h);
        EraseSpot(q, idx, h);
        if h > 0 && When(key, p[Parent(h)]) > When(key, last) {
          ShiftUp(h, last);
        } else {
          ShiftDown(h, last);
        }
      }
      IndexOther(p[..n], idx, e, -1);
      idx := idx[e := -1];
      r := 0;
    }
  }

  lemma IndexOther(q: seq<Ev>, idx: map<Ev, int>, e: Ev, k: int)
    requires Indexed(q, idx, -1) && e !in q
    ensures Indexed(q, idx[e := k], -1)
  {
  }

  /** Only entries have an index. */
  lemma IndexSays(q: seq<Ev>, idx: map<Ev, int>, e: Ev)
    requires Indexed(q, idx, -1) && OthersOut(q, idx) && e in idx
    ensures e in q <==> idx[e] != -1
    ensures e in q ==> 0 <= idx[e] < |q| && q[idx[e]] == e
  {
  }

  /** A new last entry can only be too early. */
  lemma PushSpot(q: seq<Ev>, key: map<Ev, Time>, idx: map<Ev, int>, e: Ev)
    requires Ordered(q, key) && Indexed(q, idx, -1) && e !in q
    ensures OrderedButUp(q + [e], key, |q|) && Indexed(q + [e], idx, |q|)
  {
    forall i | 0 < i < |q| ensures Above(q + [e], key, i) {
      assert Above(q, key, i);
    }
  }

  /** The last entry can go; it is not earlier than its parent. */
  lemma EraseLast(q: seq<Ev>, key: map<Ev, Time>, idx: map<Ev, int>)
    requires q != [] && Ordered(q, key) && Indexed(q, idx, -1)
    ensures var m := |q| - 1;
            && Ordered(q[..m], key) && Indexed(q[..m], idx, -1) && q[m] !in q[..m] && q[m] in idx
            && When(key, q[Parent(m)]) <= When(key, q[m])
            && forall x :: x in q[..m] <==> x in q && x != q[m]
  {
    var m := |q| - 1;
    if m > 0 { assert Above(q, key, m); }
    forall i | 0 < i < m ensures Above(q[..m], key, i) {
      assert Above(q, key, i);
    }
    assert q == q[..m] + [q[m]];
  }

  /** With its last entry moved to the place of entry h, the heap is out of order at h at most. */
  lemma EraseOrder(q: seq<Ev>, key: map<Ev, Time>, h: nat)
    requires h < |q| - 1 && Ordered(q, key)
    ensures var m := |q| - 1;
            var q' := q[..m][h := q[m]];
            if h > 0 && When(key, q[Parent(h)]) > When(key, q[m]) then OrderedButUp(q', key, h)
            else OrderedButDown(q', key, h) && (h > 0 ==> Above(q', key, h))
  {
    var m := |q| - 1;
    var q' := q[..m][h := q[m]];
    forall i | 0 < i < m ensures EraseKeeps(q, q', key, h, i) {
      assert Above(q, key, i);
      if h > 0 { assert Above(q, key, h); }
    }
    if 2 * h + 1 < m { assert EraseKeeps(q, q', key, h, 2 * h + 1); }
    if 2 * h + 2 < m { assert EraseKeeps(q, q', key, h, 2 * h + 2); }
    if h > 0 { assert EraseKeeps(q, q', key, h, h); }
    if h > 0 && When(key, q[Parent(h)]) > When(key, q[m]) {
      forall i | 0 < i < m && i != h ensures Above(q', key, i) { assert EraseKeeps(q, q', key, h, i); }
    } else {
      forall i | 0 < i < m && Parent(i) != h ensures Above(q', key, i) { assert EraseKeeps(q, q', key, h, i); }
    }
  }

  /** What becomes of entry i when the last entry is moved to h. */
  ghost predicate EraseKeeps(q: seq<Ev>, q': seq<Ev>, key: map<Ev, Time>, h: nat, i: nat)
    requires h < |q| - 1 == |q'| && 0 < i < |q'|
  {
    var late := h > 0 && When(key, q[Parent(h)]) > When(key, q[|q| - 1]);
    && (i != h && Parent(i) != h ==> Above(q', key, i))
    && (i == h && !late ==> Above(q', key, i))
    && (Parent(i) == h && h > 0 ==> When(key, q'[Parent(h)]) <= When(key, q'[i]))
    && (Parent(i) == h && late ==> Above(q', key, i))
  }

  ghost function First(q: seq<Ev>, i: nat): set<Ev>
    requires i <= |q|
  {
    set e | e in q[..i]
  }

  lemma EarlierNone(key: map<Ev, Time>, q: seq<Ev>, off: Time)
    ensures Earlier(key, First(q, 0), off) == key
  {
  }

  lemma EarlierNext(key: map<Ev, Time>, q: seq<Ev>, idx: map<Ev, int>, i: nat, off: Time)
    requires Indexed(q, idx, -1) && idx.Keys == key.Keys && i < |q|
    ensures var k := Earlier(key, First(q, i), off);
            q[i] in k && k[q[i] := k[q[i]] - off] == Earlier(key, First(q, i + 1), off)
  {
    assert q[..i + 1] == q[..i] + [q[i]];
    assert q[i] !in q[..i] && q[i] in idx;
  }

  /** Subtracting the same from every key keeps the order. */
  lemma OrderedEarlier(q: seq<Ev>, key: map<Ev, Time>, idx: map<Ev, int>, off: Time)
    requires Ordered(q, key) && Indexed(q, idx, -1) && idx.Keys == key.Keys
    ensures Ordered(q, Earlier(key, First(q, |q|), off))
    ensures First(q, |q|) == set e | e in q
  {
    assert q[..|q|] == q;
    forall j | 0 < j < |q| ensures Above(q, Earlier(key, First(q, |q|), off), j) {
      assert Above(q, key, j) && q[j] in q && q[Parent(j)] in q;
      assert q[j] in idx && q[Parent(j)] in idx;
    }
  }

  lemma EraseSpot(q: seq<Ev>, idx: map<Ev, int>, h: nat)
    requires h < |q| - 1 && Indexed(q, idx, -1)
    ensures var m := |q| - 1;
            var q' := q[..m][h := q[m]];
            Indexed(q', idx, h) && q[m] in idx && forall x :: x in q' <==> x in q && x != q[h]
  {
    var m := |q| - 1;
    var q' := q[..m][h := q[m]];
    forall x ensures x in q' <==> x in q && x != q[h] {
      if x in q && x != q[h] {
        var i :| 0 <= i < |q| && q[i] == x;
        assert q'[if i == m then h else i] == x;
      }
    }
  }

  lemma DownDone(q: seq<Ev>, key: map<Ev, Time>, h: nat)
    requires OrderedButDown(q, key, h) && (h > 0 ==> Above(q, key, h))
    requires 2 * h + 1 < |q| ==> When(key, q[h]) <= When(key, q[2 * h + 1])
    requires 2 * h + 2 < |q| ==> When(key, q[h]) <= When(key, q[2 * h + 2])
    ensures Ordered(q, key)
  {
    forall i | 0 < i < |q| ensures Above(q, key, i) {
      if Parent(i) == h {
        assert i == 2 * h + 1 || i == 2 * h + 2;
      }
    }
  }

  lemma DownStep(a: seq<Ev>, n: nat, h: nat, c: nat, e: Ev, key: map<Ev, Time>)
    requires h < n <= |a| && OrderedButDown(Filled(a, n, h, e), key, h)
    requires h > 0 ==> Above(Filled(a, n, h, e), key, h)
    requires (c == 2 * h + 1 || c == 2 * h + 2) && c < n && When(key, a[c]) < When(key, e)
    requires When(key, a[c]) <= When(key, a[2 * h + 1])
    requires 2 * h + 2 < n ==> When(key, a[c]) <= When(key, a[2 * h + 2])
    ensures var s := Filled(a[h := a[c]], n, c, e); OrderedButDown(s, key, c) && Above(s, key, c)
  {
    SwapDown(Filled(a, n, h, e), key, h, c);
    assert Filled(a[h := a[c]], n, c, e) == Swap(Filled(a, n, h, e), h, c);
  }

  lemma DownStop(a: seq<Ev>, n: nat, h: nat, e: Ev, key: map<Ev, Time>)
    requires h < n <= |a| && OrderedButDown(Filled(a, n, h, e), key, h)
    requires h > 0 ==> Above(Filled(a, n, h, e), key, h)
    requires 2 * h + 1 < n ==> When(key, e) <= When(key, a[2 * h + 1])
    requires 2 * h + 2 < n ==> When(key, e) <= When(key, a[2 * h + 2])
    ensures Ordered(Filled(a, n, h, e), key)
  {
    DownDone(Filled(a, n, h, e), key, h);
  }

  lemma UpDone(q: seq<Ev>, key: map<Ev, Time>, h: nat)
    requires OrderedButUp(q, key, h) && (h > 0 ==> When(key, q[Parent(h)]) <= When(key, q[h]))
    ensures Ordered(q, key)
  {
    forall i | 0 < i < |q| ensures Above(q, key, i) {
    }
  }

}
