/** Small things that several modules use. */
module Seqs {

  const TWO32 := 0x1_0000_0000
  const TWO64 := 0x1_0000_0000_0000_0000

  datatype Option<T> = None | Some(value: T)

  function Min(a: int, b: int): int
  {
    if a <= b then a else b
  }

  ghost predicate NoDup<T>(q: seq<T>)
  {
    forall i, j :: 0 <= i < j < |q| ==> q[i] != q[j]
  }

  /** The sequence without the first x in it. */
  function Without<T(==, !new)>(q: seq<T>, x: T): (r: seq<T>)
    ensures forall y :: y in r ==> y in q
    ensures NoDup(q) ==> forall y :: y in r <==> y in q && y != x
  {
    if q == [] then []
    else
      assert q == [q[0]] + q[1..];
      if q[0] == x then q[1..] else [q[0]] + Without(q[1..], x)
  }

  /** What TAILQ_REMOVE leaves of a queue in which nothing comes twice. */
  lemma {:induction false} WithoutIs<T(!new)>(q: seq<T>, x: T)
    requires NoDup(q)
    ensures NoDup(Without(q, x)) && forall y :: y in Without(q, x) <==> y in q && y != x
    ensures |Without(q, x)| == |q| - if x in q then 1 else 0
    ensures x !in q ==> Without(q, x) == q
  {
    if q != [] {
      assert q == [q[0]] + q[1..];
      WithoutIs(q[1..], x);
      var w := Without(q[1..], x);
      forall b | 0 <= b < |w| ensures w[b] != q[0] { assert w[b] in q[1..]; }
    }
  }
}
