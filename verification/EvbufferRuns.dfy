/** Whole runs: two evbuffers driven by any list of operations behave as two flat byte queues. */
module EvbufferRuns {
  import opened Bytes
  import opened ChainList
  import opened Evbuffer
  import opened EvbufferMove
  import opened Seqs

  /** An evbuffer as its users see it. */
  datatype Queue = Queue(bytes: Block, freezeStart: bool, freezeEnd: bool)

  /** Two queues, the bytes that Remove has handed out so far, and what the operations have returned. */
  datatype World = World(x: Queue, y: Queue, out: Block, codes: seq<int>)
  {
    function Get(second: bool): Queue
    {
      if second then y else x
    }

    function Set(second: bool, q: Queue): World
    {
      if second then this.(y := q) else this.(x := q)
    }
  }

  datatype Op =
    | Add(second: bool, data: Block)
    | Prepend(second: bool, data: Block)
    | Drain(second: bool, n: nat)
    | Remove(second: bool, n: nat)
    | Pullup(second: bool, size: int)
    | Freeze(second: bool, atFront: bool, on: bool)
    | AddBuffer(second: bool)       // append the other buffer to this one
    | PrependBuffer(second: bool)   // put the other buffer in front of this one
    | RemoveBuffer(second: bool, n: nat)  // move bytes from the other buffer to this one

  const Empty: World := World(Queue([], false, false), Queue([], false, false), [], [])

  /** The bytes an operation that concerns queue q alone leaves in it. */
  function OwnBytes(q: Queue, op: Op): Block
  {
    match op
    case Add(_, data) => if q.freezeEnd then q.bytes else q.bytes + data
    case Prepend(_, data) => if q.freezeStart then q.bytes else data + q.bytes
    case Drain(_, n) => if q.freezeStart then q.bytes else q.bytes[Min(n, |q.bytes|)..]
    case Remove(_, n) => if q.freezeStart then q.bytes else q.bytes[Min(n, |q.bytes|)..]
    case _ => q.bytes
  }

  /** The bytes that operation hands out. */
  function Handed(q: Queue, op: Op): Block
  {
    if op.Remove? && !q.freezeStart then q.bytes[..Min(op.n, |q.bytes|)] else []
  }

  /** How many bytes an operation moves from queue o to queue q. */
  function Moved(q: Queue, o: Queue, op: Op): (n: nat)
    ensures n <= |o.bytes|
  {
    match op
    case AddBuffer(_) => if q.freezeEnd || o.freezeStart then 0 else |o.bytes|
    case PrependBuffer(_) => if q.freezeStart || o.freezeStart then 0 else |o.bytes|
    case RemoveBuffer(_, n) => if q.freezeEnd || o.freezeStart then 0 else Min(n, |o.bytes|)
    case _ => 0
  }

  /** What the operation returns; for Pullup, whether there is a pointer. */
  function Code(q: Queue, o: Queue, op: Op): int
  {
    match op
    case Add(_, _) => if q.freezeEnd then -1 else 0
    case Prepend(_, _) => if q.freezeStart then -1 else 0
    case Drain(_, _) => if q.freezeStart && q.bytes != [] then -1 else 0
    case Remove(_, n) => if q.freezeStart && n > 0 && q.bytes != [] then -1 else Min(n, |q.bytes|)
    case Pullup(_, size) => if 0 < (if size < 0 then |q.bytes| else size) <= |q.bytes| then 1 else 0
    case Freeze(_, _, _) => 0
    case AddBuffer(_) => if o.bytes != [] && (q.freezeEnd || o.freezeStart) then -1 else 0
    case PrependBuffer(_) => if o.bytes != [] && (q.freezeStart || o.freezeStart) then -1 else 0
    case RemoveBuffer(_, n) => if n == 0 then 0 else if q.freezeEnd || o.freezeStart then -1 else Min(n, |o.bytes|)
  }

  /** The effect on queue q, given the other queue o. */
  function Target(q: Queue, o: Queue, op: Op): Queue
  {
    var moved := o.bytes[..Moved(q, o, op)];
    match op
    case Freeze(_, atFront, on) => if atFront then q.(freezeStart := on) else q.(freezeEnd := on)
    case PrependBuffer(_) => q.(bytes := moved + q.bytes)
    case AddBuffer(_) => q.(bytes := q.bytes + moved)
    case RemoveBuffer(_, _) => q.(bytes := q.bytes + moved)
    case _ => q.(bytes := OwnBytes(q, op))
  }

  /** One operation on flat queues. */
  function Step(w: World, op: Op): World
  {
    var q, o := w.Get(op.second), w.Get(!op.second);
    w.Set(op.second, Target(q, o, op))
     .Set(!op.second, o.(bytes := o.bytes[Moved(q, o, op)..]))
     .(out := w.out + Handed(q, op), codes := w.codes + [Code(q, o, op)])
  }

  function Run(w: World, ops: seq<Op>): World
    decreases |ops|
  {
    if ops == [] then w else Step(Run(w, ops[..|ops| - 1]), ops[|ops| - 1])
  }

  ghost function View(b: EvBuffer): Queue
    reads b
  {
    Queue(b.Contents(), b.freezeStart, b.freezeEnd)
  }

  ghost predicate Good(x: EvBuffer, y: EvBuffer)
    reads x, y
  {
    x != y && x.Valid() && y.Valid() && x.Dense() && y.Dense() && Apart(x, y)
  }

  /** An operation on one buffer; a is an address no chain uses. */
  method StepOwn(q: EvBuffer, op: Op, a: Addr, ghost o: Queue) returns (out: Block, code: int)
    requires q.Valid() && q.Dense() && a !in q.mem
    requires op.Add? || op.Prepend? || op.Drain? || op.Remove? || op.Pullup?
    modifies q
    ensures q.Valid() && q.Dense() && q.mem.Keys <= old(q.mem.Keys) + {a}
    ensures q.freezeStart == old(q.freezeStart) && q.freezeEnd == old(q.freezeEnd)
    ensures q.Contents() == OwnBytes(old(View(q)), op) && out == Handed(old(View(q)), op) && code == Code(old(View(q)), o, op)
  {
    hide Spine, Flat, LastData, DenseList;
    out := [];
    q.DenseNoSpareTail();
    match op
    case Add(_, data) =>
      q.AddWhenRight(|data|);
      var r, _ := q.Add(data, a);
      code := r;
    case Prepend(_, data) => code := q.Prepend(data, a);
    case Drain(_, n) => code := q.Drain(n);
    case Remove(_, n) => code, out := q.Remove(n);
    case Pullup(_, size) =>
      var p := q.Pullup(size, a);
      code := if p == Null then 0 else 1;
  }

  /** A move from o to q. */
  method StepMove(q: EvBuffer, o: EvBuffer, op: Op, a: Addr) returns (code: int)
    requires Good(q, o) && a !in q.mem && a !in o.mem
    requires op.AddBuffer? || op.PrependBuffer? || op.RemoveBuffer?
    modifies q, o
    ensures Good(q, o) && code == Code(old(View(q)), old(View(o)), op)
    ensures View(q) == Target(old(View(q)), old(View(o)), op)
    ensures View(o) == old(View(o)).(bytes := old(o.Contents())[Moved(old(View(q)), old(View(o)), op)..])
  {
    hide Spine, Flat, LastData, DenseList;
    match op
    case AddBuffer(_) => code := EvbufferMove.AddBuffer(q, o);
    case PrependBuffer(_) => code := EvbufferMove.PrependBuffer(q, o);
    case RemoveBuffer(_, n) =>
      var r, _ := EvbufferMove.RemoveBuffer(o, q, n, a);
      code := r;
  }

  /** Any one operation on the two buffers. */
  method StepOne(q: EvBuffer, o: EvBuffer, op: Op, a: Addr) returns (out: Block, code: int)
    requires Good(q, o) && a !in q.mem && a !in o.mem
    modifies q, o
    ensures Good(q, o) && code == Code(old(View(q)), old(View(o)), op)
    ensures View(q) == Target(old(View(q)), old(View(o)), op) && out == Handed(old(View(q)), op)
    ensures View(o) == old(View(o)).(bytes := old(o.Contents())[Moved(old(View(q)), old(View(o)), op)..])
  {
    hide Spine, Flat, LastData, OwnBytes, DenseList;
    out, code := [], 0;
    if op.AddBuffer? || op.PrependBuffer? || op.RemoveBuffer? {
      code := StepMove(q, o, op, a);
    } else if op.Freeze? {
      if op.atFront {
        q.freezeStart := op.on;
      } else {
        q.freezeEnd := op.on;
      }
    } else {
      out, code := StepOwn(q, op, a, View(o));
    }
  }

  /** The same on the buffers in order. */
  method StepBoth(x: EvBuffer, y: EvBuffer, out: Block, codes: seq<int>, op: Op, a: Addr)
    returns (out': Block, codes': seq<int>)
    requires Good(x, y) && a !in x.mem && a !in y.mem
    modifies x, y
    ensures Good(x, y)
    ensures World(View(x), View(y), out', codes') == Step(World(old(View(x)), old(View(y)), out, codes), op)
  {
    hide Spine, Flat, LastData, OwnBytes, Target, Moved, Handed, Code, DenseList;
    var more, code;
    if op.second {
      more, code := StepOne(y, x, op, a);
    } else {
      more, code := StepOne(x, y, op, a);
    }
    out', codes' := out + more, codes + [code];
  }

  lemma RunOneMore(w: World, ops: seq<Op>, i: nat)
    requires i < |ops|
    ensures Run(w, ops[..i + 1]) == Step(Run(w, ops[..i]), ops[i])
  {
    assert ops[..i + 1][..i] == ops[..i];
  }

  /**
   * Any run from two new buffers ends in valid buffers that hold what the flat queues hold, and has returned what they
   * return. malloc says where each chain is put, given the step and the chains in use; addresses may be used again.
   */
  method Execute(ops: seq<Op>, malloc: (nat, set<Addr>) -> Addr) returns (x: EvBuffer, y: EvBuffer, out: Block, codes: seq<int>)
    requires forall i: nat, used: set<Addr> :: malloc(i, used) !in used
    ensures fresh(x) && fresh(y) && x != y && x.Valid() && y.Valid() && Apart(x, y)
    ensures World(View(x), View(y), out, codes) == Run(Empty, ops)
  {
    hide Spine, Flat, LastData, Step, DenseList;
    x := new EvBuffer();
    y := new EvBuffer();
    out, codes := [], [];
    assert ops[..0] == [];
    for i := 0 to |ops|
      invariant fresh(x) && fresh(y) && Good(x, y)
      invariant World(View(x), View(y), out, codes) == Run(Empty, ops[..i])
    {
      RunOneMore(Empty, ops, i);
      var used := x.mem.Keys + y.mem.Keys;
      assert malloc(i, used) !in used;
      out, codes := StepBoth(x, y, out, codes, ops[i], malloc(i, used));
    }
    assert ops[..|ops|] == ops;
  }
}
