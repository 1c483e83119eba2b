/** Bytes and block lists: the flat byte sequence that a list of memory blocks stands for. */
module Bytes {

  type Byte = b: nat | b < 256

  type Block = seq<Byte>

  /** The concatenation of all blocks, in order. */
  function Flat(blocks: seq<Block>): (bytes: Block)
  {
    if blocks == [] then [] else blocks[0] + Flat(blocks[1..])
  }

  ghost predicate Suffix<T>(s: seq<T>, whole: seq<T>)
  {
    |s| <= |whole| && s == whole[|whole| - |s|..]
  }

  lemma SuffixAll<T>(s: seq<T>)
    ensures Suffix(s, s)
  {
  }

  lemma SuffixTrans<T>(a: seq<T>, b: seq<T>, c: seq<T>)
    requires Suffix(a, b) && Suffix(b, c)
    ensures Suffix(a, c)
  {
    assert forall i :: 0 <= i < |a| ==> a[i] == b[|b| - |a| + i] == c[|c| - |b| + (|b| - |a| + i)];
  }

  lemma SuffixTail<T>(s: seq<T>, whole: seq<T>)
    requires Suffix(s, whole) && s != []
    ensures Suffix(s[1..], whole) && s[0] == whole[|whole| - |s|]
  {
    assert s[1..] == whole[|whole| - |s| + 1..];
  }

  lemma {:induction false} FlatConcat(a: seq<Block>, b: seq<Block>)
    ensures Flat(a + b) == Flat(a) + Flat(b)
  {
    if a == [] {
      assert a + b == b;
    } else {
      FlatConcat(a[1..], b);
      assert (a + b)[0] == a[0] && (a + b)[1..] == a[1..] + b;
      assert a[0] + (Flat(a[1..]) + Flat(b)) == (a[0] + Flat(a[1..])) + Flat(b);
    }
  }

  /** Cut a block list at k. */
  lemma FlatSplit(blocks: seq<Block>, k: nat)
    requires k <= |blocks|
    ensures Flat(blocks) == Flat(blocks[..k]) + Flat(blocks[k..])
  {
    assert blocks == blocks[..k] + blocks[k..];
    FlatConcat(blocks[..k], blocks[k..]);
  }

  /** Single out block k. */
  lemma FlatAt(blocks: seq<Block>, k: nat)
    requires k < |blocks|
    ensures Flat(blocks) == Flat(blocks[..k]) + blocks[k] + Flat(blocks[k + 1..])
  {
    FlatSplit(blocks, k);
    assert blocks[k..][1..] == blocks[k + 1..];
  }

  lemma FlatSingle(block: Block)
    ensures Flat([block]) == block
  {
    assert Flat([block]) == block + Flat([]);
  }

  /** A list of empty blocks holds no bytes. */
  lemma {:induction false} FlatEmpty(blocks: seq<Block>)
    requires forall i :: 0 <= i < |blocks| ==> blocks[i] == []
    ensures Flat(blocks) == []
  {
    if blocks != [] {
      FlatEmpty(blocks[1..]);
    }
  }

  /** Appending to the last block appends to the bytes. */
  lemma FlatExtendLast(blocks: seq<Block>, more: Block)
    requires blocks != []
    ensures Flat(blocks[|blocks| - 1 := blocks[|blocks| - 1] + more]) == Flat(blocks) + more
  {
    var n := |blocks| - 1;
    var after := blocks[n := blocks[n] + more];
    FlatAt(blocks, n);
    FlatAt(after, n);
    assert after[..n] == blocks[..n];
    assert after[n + 1..] == blocks[n + 1..] == [];
  }

  /** Replacing an empty tail by one block appends that block. */
  lemma FlatRetail(blocks: seq<Block>, k: nat, block: Block)
    requires k <= |blocks| && forall i :: k <= i < |blocks| ==> blocks[i] == []
    ensures Flat(blocks[..k] + [block]) == Flat(blocks) + block
  {
    var kept := Flat(blocks[..k]);
    assert Flat(blocks) == kept by {
      FlatSplit(blocks, k);
      FlatEmpty(blocks[k..]);
      assert kept + [] == kept;
    }
    assert Flat(blocks[..k] + [block]) == kept + block by {
      FlatConcat(blocks[..k], [block]);
      FlatSingle(block);
    }
  }

  /** When no block after k has data, everything from block k on is block k. */
  lemma FlatLastData(blocks: seq<Block>, k: nat)
    requires k < |blocks| && forall i :: k < i < |blocks| ==> blocks[i] == []
    ensures Flat(blocks[k..]) == blocks[k]
  {
    FlatEmpty(blocks[k + 1..]);
    assert blocks[k..][1..] == blocks[k + 1..];
    assert blocks[k] + [] == blocks[k];
  }

  /** Dropping k whole blocks and then n bytes of block k drops that many bytes from the front. */
  lemma FlatDrop(blocks: seq<Block>, k: nat, n: nat)
    requires k < |blocks| && n <= |blocks[k]|
    ensures |Flat(blocks[..k])| + n <= |Flat(blocks)|
    ensures Flat([blocks[k][n..]] + blocks[k + 1..]) == Flat(blocks)[|Flat(blocks[..k])| + n..]
    ensures Flat(blocks[..k]) + blocks[k][..n] == Flat(blocks)[..|Flat(blocks[..k])| + n]
  {
    FlatAt(blocks, k);
    var kept := [blocks[k][n..]] + blocks[k + 1..];
    assert kept[1..] == blocks[k + 1..];
  }

  /** Block k is the last block with data, or the first block when no block has any. */
  ghost predicate LastData(blocks: seq<Block>, k: nat)
  {
    && (forall i :: k < i < |blocks| ==> blocks[i] == [])
    && (0 < k < |blocks| ==> blocks[k] != [])
  }

  /** Only a lone block may be empty. */
  ghost predicate DenseList(blocks: seq<Block>)
  {
    |blocks| == 1 || forall i :: 0 <= i < |blocks| ==> blocks[i] != []
  }

  /** When there are bytes at all, the last block with data has some. */
  lemma LastDataHas(blocks: seq<Block>, k: nat)
    requires LastData(blocks, k) && k < |blocks| && Flat(blocks) != []
    ensures blocks[k] != []
  {
    if k == 0 {
      FlatLastData(blocks, 0);
      assert blocks[0..] == blocks;
    }
  }

  lemma LastDataAfter(before: seq<Block>, blocks: seq<Block>, k: nat)
    requires LastData(blocks, k) && k < |blocks| && blocks[k] != []
    ensures LastData(before + blocks, |before| + k)
  {
  }

  /** Appending to a block that only empty blocks follow appends to the bytes. */
  lemma FlatExtendAt(blocks: seq<Block>, k: nat, more: Block)
    requires k < |blocks| && forall i :: k < i < |blocks| ==> blocks[i] == []
    ensures Flat(blocks[k := blocks[k] + more]) == Flat(blocks) + more
  {
    var after := blocks[k := blocks[k] + more];
    FlatSplit(blocks, k);
    FlatSplit(after, k);
    FlatLastData(blocks, k);
    FlatLastData(after, k);
    assert after[..k] == blocks[..k];
  }

  /** The first empty block from k on, or the end. */
  function FirstEmpty(blocks: seq<Block>, k: nat): (v: nat)
    ensures k <= v && (k <= |blocks| ==> v <= |blocks|)
    ensures forall i :: k <= i < v && i < |blocks| ==> blocks[i] != []
    ensures v < |blocks| ==> blocks[v] == []
    decreases |blocks| - k
  {
    if k < |blocks| && blocks[k] != [] then FirstEmpty(blocks, k + 1) else k
  }

  /** The last block of the run of blocks with data that follows block k. */
  function RunEnd(blocks: seq<Block>, k: nat): (e: nat)
    ensures k <= e && (k < |blocks| ==> e < |blocks|)
    ensures forall i :: k < i <= e && i < |blocks| ==> blocks[i] != []
    ensures e + 1 < |blocks| ==> blocks[e + 1] == []
    decreases |blocks| - k
  {
    if k + 1 < |blocks| && blocks[k + 1] != [] then RunEnd(blocks, k + 1) else k
  }

  /** Some block after the first empty one from k on has data. */
  ghost predicate Broken(blocks: seq<Block>, k: nat)
  {
    exists i :: FirstEmpty(blocks, k) < i < |blocks| && blocks[i] != []
  }

  lemma {:induction false} FirstEmptyIs(blocks: seq<Block>, k: nat, v: nat)
    requires k <= v && (k == v || v <= |blocks|) && (forall i :: k <= i < v ==> blocks[i] != []) && (v < |blocks| ==> blocks[v] == [])
    ensures FirstEmpty(blocks, k) == v
    decreases v - k
  {
    if k < v { FirstEmptyIs(blocks, k + 1, v); }
  }

  lemma {:induction false} RunEndIs(blocks: seq<Block>, k: nat, e: nat)
    requires k <= e && (k == e || e < |blocks|) && (forall i :: k < i <= e ==> blocks[i] != [])
    requires e + 1 < |blocks| ==> blocks[e + 1] == []
    ensures RunEnd(blocks, k) == e
    decreases e - k
  {
    if k < e { RunEndIs(blocks, k + 1, e); }
  }

  /** Past the last block with data nothing has data. */
  lemma LastDataWhole(blocks: seq<Block>, k: nat)
    requires LastData(blocks, k) && k <= |blocks|
    ensures !Broken(blocks, k)
    ensures FirstEmpty(blocks, k) == if k < |blocks| && blocks[k] != [] then k + 1 else k
  {
    FirstEmptyIs(blocks, k, if k < |blocks| && blocks[k] != [] then k + 1 else k);
  }

  /** Filling the last block mends the list exactly when that was the first empty one, and breaks it if another was. */
  lemma Topped(blocks: seq<Block>, k: nat, more: Block)
    requires k < |blocks| && more != []
    ensures var n, v := |blocks|, FirstEmpty(blocks, k);
            var after := blocks[n - 1 := blocks[n - 1] + more];
            && FirstEmpty(after, k) == (if v == n - 1 then n else v)
            && (Broken(after, k) <==> v + 1 < n)
  {
    var n, v := |blocks|, FirstEmpty(blocks, k);
    var after := blocks[n - 1 := blocks[n - 1] + more];
    FirstEmptyIs(after, k, if v == n - 1 then n else v);
    if v + 1 < n { assert after[n - 1] != []; }
  }

  /** A block with data put in the place of all from v on. */
  lemma Retailed(blocks: seq<Block>, k: nat, v: nat, block: Block)
    requires k <= v <= |blocks| && block != []
    ensures LastData(blocks[..v] + [block], k) <==> k == v
    ensures LastData(blocks[..v] + [block], v)
  {
    var after := blocks[..v] + [block];
    assert after[v] == block;
  }

  /** Putting more into the last block. */
  lemma LastDataTopped(blocks: seq<Block>, k: nat, more: Block)
    requires k < |blocks|
    ensures var n := |blocks|; var after := blocks[n - 1 := blocks[n - 1] + more];
            && (LastData(after, k) <==> if more == [] then LastData(blocks, k) else k + 1 == n)
            && (more == [] ==> after == blocks)
            && ((forall i :: 0 <= i < n ==> blocks[i] != []) ==> forall i :: 0 <= i < n ==> after[i] != [])
  {
    var n := |blocks|;
    var after := blocks[n - 1 := blocks[n - 1] + more];
    if more == [] {
      assert blocks[n - 1] + more == blocks[n - 1];
      assert after == blocks;
    } else {
      assert after[n - 1] != [];
    }
  }
}
