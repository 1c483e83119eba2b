/** The nameservers of an evdns_base: a ring that is turned by each pick. */
module Nameservers {
  import opened Seqs

  type Server = nat

  /** The ring turned so that the server k places after the head is the head. */
  function Turned(ring: seq<Server>, k: nat): (r: seq<Server>)
    requires k <= |ring|
    ensures |r| == |ring|
  {
    ring[k..] + ring[..k]
  }

  /** The good servers, in the order of the ring. */
  function GoodOnes(ring: seq<Server>, good: set<Server>): seq<Server>
  {
    if ring == [] then []
    else if ring[0] in good then [ring[0]] + GoodOnes(ring[1..], good)
    else GoodOnes(ring[1..], good)
  }

  lemma {:induction false} GoodMembers(ring: seq<Server>, good: set<Server>)
    ensures forall x :: x in GoodOnes(ring, good) <==> x in ring && x in good
  {
    if ring != [] {
      GoodMembers(ring[1..], good);
      assert ring == [ring[0]] + ring[1..];
    }
  }

  lemma {:induction false} GoodConcat(a: seq<Server>, b: seq<Server>, good: set<Server>)
    ensures GoodOnes(a + b, good) == GoodOnes(a, good) + GoodOnes(b, good)
  {
    if a == [] {
      assert a + b == b;
    } else {
      GoodConcat(a[1..], b, good);
      assert (a + b)[1..] == a[1..] + b;
    }
  }

  lemma OneGood(s: Server, good: set<Server>)
    requires s in good
    ensures GoodOnes([s], good) == [s]
  {
  }

  lemma {:induction false} NoneGood(ring: seq<Server>, good: set<Server>)
    requires forall x :: x in ring ==> x !in good
    ensures GoodOnes(ring, good) == []
  {
    if ring != [] {
      assert ring[0] in ring;
      NoneGood(ring[1..], good);
    }
  }

  lemma {:induction false} NoDupGood(ring: seq<Server>, good: set<Server>)
    requires NoDup(ring)
    ensures NoDup(GoodOnes(ring, good))
  {
    if ring != [] {
      NoDupGood(ring[1..], good);
      GoodMembers(ring[1..], good);
      var g := GoodOnes(ring[1..], good);
      forall i | 0 <= i < |g| ensures g[i] != ring[0] { assert g[i] in ring[1..]; }
    }
  }

  /** A pick that finds a good server k places on gives the first good one, and makes it the last. */
  lemma PickTurns(ring: seq<Server>, good: set<Server>, k: nat)
    requires k < |ring| && ring[k] in good && forall i :: 0 <= i < k ==> ring[i] !in good
    ensures GoodOnes(ring, good) != [] && ring[k] == GoodOnes(ring, good)[0]
    ensures GoodOnes(Turned(ring, k + 1), good) == GoodOnes(ring, good)[1..] + [ring[k]]
  {
    var front, rest := ring[..k + 1], ring[k + 1..];
    assert ring == front + rest && front == ring[..k] + [ring[k]];
    hide GoodOnes;
    GoodConcat(front, rest, good);
    GoodConcat(ring[..k], [ring[k]], good);
    NoneGood(ring[..k], good);
    GoodConcat(rest, front, good);
    OneGood(ring[k], good);
  }

  class Servers {
    var ring: seq<Server>     // from server_head on
    var good: set<Server>     // those with state 1
    var nGood: int            // global_good_nameservers

    ghost predicate Valid()
      reads this
    {
      NoDup(ring) && nGood == |GoodOnes(ring, good)| && forall s :: s in good ==> s in ring
    }

    constructor ()
      ensures Valid() && ring == []
    {
      ring, good, nGood := [], {}, 0;
    }

    /** _evdns_nameserver_add_impl: a new server comes right after the head, and is good. */
    method Add(s: Server)
      requires Valid() && s !in ring
      modifies this
      ensures Valid() && good == old(good) + {s}
      ensures ring == if old(ring) == [] then [s] else [old(ring)[0], s] + old(ring)[1..]
    {
      ghost var was, g := ring, good;
      if ring == [] {
        ring := [s];
      } else {
        ring := [ring[0], s] + ring[1..];
      }
      good := good + {s};
      nGood := nGood + 1;
      AddCounts(was, g, s);
    }

    /** nameserver_failed: the n requests still to be sent to it are given to the servers that are left, in turn. */
    method Failed(s: Server, n: nat) returns (picks: seq<Server>)
      requires Valid() && s in ring
      modifies this
      ensures Valid() && good == old(good) - {s} && forall x :: x in ring <==> x in old(ring)
      ensures s in old(good) && good != {} ==> InTurn(picks, GoodOnes(old(ring), good), n) && forall x :: x in picks ==> x in good
      ensures s in old(good) && good != {} ==> var g := GoodOnes(old(ring), good); g != [] && GoodOnes(ring, good) == Turned(g, n % |g|)
      ensures s !in old(good) || good == {} ==> picks == [] && ring == old(ring)
    {
      hide GoodOnes, NoDup, InTurn;
      if s !in good {
        return [];
      }
      ChangeCounts(ring, good - {s}, s);
      assert good - {s} + {s} == good;
      nGood := nGood - 1;
      good := good - {s};
      GoodMembers(ring, good);
      if nGood == 0 {
        assert forall x :: x in good ==> x in GoodOnes(ring, good);
        return [];
      }
      assert GoodOnes(ring, good)[0] in GoodOnes(ring, good);
      picks := PickMany(n);
    }

    /** nameserver_up */
    method Up(s: Server)
      requires Valid() && s in ring
      modifies this`good, this`nGood
      ensures Valid() && good == old(good) + {s}
    {
      if s in good {
        return;
      }
      ChangeCounts(ring, good, s);
      good := good + {s};
      nGood := nGood + 1;
    }

    /**
     * nameserver_pick: the first good server from the head on if there is one, else the one after the head;
     * it stops in any case.
     */
    method Pick() returns (found: bool, s: Server)
      requires Valid()
      modifies this`ring
      ensures Valid() && (found <==> old(ring) != [])
      ensures found ==> s in ring && (good != {} ==> s in good)
      ensures good != {} ==> GoodOnes(old(ring), good) != [] && s == GoodOnes(old(ring), good)[0]
      ensures good != {} ==> GoodOnes(ring, good) == GoodOnes(old(ring), good)[1..] + [s]
      ensures good != {} ==>
                exists k :: 0 <= k < |old(ring)| && s == old(ring)[k] && (forall i :: 0 <= i < k ==> old(ring)[i] !in good)
                            && ring == Turned(old(ring), k + 1)
      ensures good == {} && old(ring) != [] ==> ring == Turned(old(ring), 1) && s == ring[0]
      ensures forall x :: x in ring <==> x in old(ring)
    {
      hide GoodOnes, NoDup;
      GoodMembers(ring, good);
      if ring == [] {
        assert good == {};
        return false, 0;
      }
      ghost var r0 := ring;
      if nGood == 0 {
        TurnKeeps(r0, 1, good);
        assert good == {};
        ring := Turned(ring, 1);
        return true, ring[0];
      }
      var k := 0;
      assert GoodOnes(r0, good)[0] in GoodOnes(r0, good);
      ghost var at :| 0 <= at < |r0| && r0[at] == GoodOnes(r0, good)[0];
      while true
        invariant 0 <= k <= at && ring == Turned(r0, k) && forall i :: 0 <= i < k ==> r0[i] !in good
        decreases at - k
      {
        assert ring[0] == r0[k];
        TurnedOnce(r0, k);
        if ring[0] in good {
          s := ring[0];
          PickTurns(r0, good, k);
          TurnKeeps(r0, k + 1, good);
          ring := Turned(ring, 1);
          return true, s;
        }
        ring := Turned(ring, 1);
        k := k + 1;
      }
    }

    /** With no server failing or coming back, picks go round the good servers, in the order of the ring. */
    method PickMany(n: nat) returns (picks: seq<Server>)
      requires Valid() && good != {}
      modifies this`ring
      ensures Valid() && (forall x :: x in ring <==> x in old(ring)) && forall x :: x in picks ==> x in good
      ensures InTurn(picks, GoodOnes(old(ring), good), n)
      ensures GoodOnes(ring, good) == Turned(GoodOnes(old(ring), good), n % |GoodOnes(old(ring), good)|)
    {
      ghost var g := GoodOnes(ring, good);
      GoodMembers(ring, good);
      assert Turned(g, 0) == g;
      hide GoodOnes, NoDup, Turned, InTurn;
      picks := [];
      NoneInTurn(g);
      while |picks| < n
        invariant Valid() && nGood == |g| > 0 && InTurn(picks, g, |picks|) && |picks| <= n
        invariant GoodOnes(ring, good) == Turned(g, |picks| % |g|)
        invariant (forall x :: x in ring <==> x in old(ring)) && forall x :: x in picks ==> x in good
      {
        var found, s := Pick();
        TurnedNext(g, |picks| % |g|);
        Round(g, |picks|);
        OneMoreInTurn(picks, g, s);
        picks := picks + [s];
      }
    }

    /** So as many picks as there are good servers give each of them once. */
    method PickEach(n: nat) returns (picks: seq<Server>)
      requires Valid() && n <= nGood
      modifies this`ring
      ensures Valid() && picks == GoodOnes(old(ring), good)[..n]
      ensures n == nGood ==> NoDup(picks) && forall s :: s in picks <==> s in good
    {
      ghost var g := GoodOnes(ring, good);
      NoDupGood(ring, good);
      GoodMembers(ring, good);
      hide GoodOnes, NoDup;
      if n == 0 {
        return [];
      }
      assert g[0] in g;
      picks := PickMany(n);
      OnceRound(picks, g, n);
      if n == nGood { assert g[..n] == g; }
    }
  }

  /** n picks that go round g. */
  ghost predicate InTurn(picks: seq<Server>, g: seq<Server>, n: nat)
  {
    g != [] && |picks| == n && forall i :: 0 <= i < n ==> picks[i] == g[i % |g|]
  }

  lemma NoneInTurn(g: seq<Server>)
    requires g != []
    ensures InTurn([], g, 0)
  {
  }

  lemma OneMoreInTurn(picks: seq<Server>, g: seq<Server>, s: Server)
    requires InTurn(picks, g, |picks|) && s == g[|picks| % |g|]
    ensures InTurn(picks + [s], g, |picks| + 1)
  {
  }

  lemma OnceRound(picks: seq<Server>, g: seq<Server>, n: nat)
    requires InTurn(picks, g, n) && n <= |g|
    ensures picks == g[..n]
  {
    forall i | 0 <= i < n ensures picks[i] == g[i] { ModIs(0, i, |g|); }
  }

  /** From the last place the next one is the first. */
  lemma Round(g: seq<Server>, n: nat)
    requires g != []
    ensures Turned(g, (n + 1) % |g|) == Turned(g, n % |g| + 1)
  {
    var k := n % |g|;
    assert (n + 1) % |g| == if k + 1 == |g| then 0 else k + 1 by { NextMod(n, |g|); }
    if k + 1 == |g| { assert Turned(g, 0) == g == Turned(g, |g|); }
  }

  lemma NextMod(n: nat, m: nat)
    requires m > 0
    ensures (n + 1) % m == if n % m + 1 == m then 0 else n % m + 1
  {
    var q := n / m;
    assert n == q * m + n % m;
    if n % m + 1 == m {
      assert n + 1 == (q + 1) * m;
      ModIs(q + 1, 0, m);
    } else {
      ModIs(q, n % m + 1, m);
    }
  }

  lemma Multiple(d: int, m: int)
    requires m > 0
    ensures (d > 0 ==> d * m >= m) && (d < 0 ==> d * m <= -m)
  {
  }

  lemma ModIs(q: nat, r: nat, m: nat)
    requires r < m
    ensures (q * m + r) % m == r
  {
    var x := q * m + r;
    assert x == x / m * m + x % m;
    var d := q - x / m;
    assert d * m == x % m - r;
    Multiple(d, m);
  }

  lemma TurnedOnce(ring: seq<Server>, k: nat)
    requires k < |ring|
    ensures Turned(Turned(ring, k), 1) == Turned(ring, k + 1)
  {
    assert Turned(ring, k) == [ring[k]] + (ring[k + 1..] + ring[..k]);
  }

  lemma TurnedNext(g: seq<Server>, k: nat)
    requires k < |g|
    ensures Turned(g, k) != [] && Turned(g, k)[0] == g[k] && Turned(g, k)[1..] + [g[k]] == Turned(g, k + 1)
    ensures g[..k + 1] == g[..k] + [g[k]]
  {
    assert Turned(g, k) == [g[k]] + (g[k + 1..] + g[..k]);
  }

  lemma TurnKeeps(ring: seq<Server>, k: nat, good: set<Server>)
    requires NoDup(ring) && k <= |ring|
    ensures NoDup(Turned(ring, k)) && |GoodOnes(Turned(ring, k), good)| == |GoodOnes(ring, good)|
    ensures forall x :: x in Turned(ring, k) <==> x in ring
  {
    assert ring == ring[..k] + ring[k..];
    GoodConcat(ring[..k], ring[k..], good);
    GoodConcat(ring[k..], ring[..k], good);
  }

  lemma {:induction false} ChangeCounts(ring: seq<Server>, good: set<Server>, s: Server)
    requires NoDup(ring) && s !in good
    ensures |GoodOnes(ring, good + {s})| == |GoodOnes(ring, good)| + if s in ring then 1 else 0
  {
    if ring != [] {
      ChangeCounts(ring[1..], good, s);
      assert ring == [ring[0]] + ring[1..];
    }
  }

  lemma AddCounts(ring: seq<Server>, good: set<Server>, s: Server)
    requires NoDup(ring) && s !in ring && s !in good
    ensures var r := if ring == [] then [s] else [ring[0], s] + ring[1..];
            NoDup(r) && |GoodOnes(r, good + {s})| == |GoodOnes(ring, good)| + 1
  {
    if ring == [] {
      assert GoodOnes([s], good + {s}) == [s];
    } else {
      var first, rest := [ring[0]], ring[1..];
      assert ring == first + rest && [ring[0], s] + rest == first + ([s] + rest);
      assert forall x :: x in rest ==> x in ring;
      ChangeCounts(first, good, s);
      ChangeCounts(rest, good, s);
      OneGood(s, good + {s});
      hide GoodOnes;
      GoodConcat(first, rest, good);
      GoodConcat(first, [s] + rest, good + {s});
      GoodConcat([s], rest, good + {s});
    }
  }
}
