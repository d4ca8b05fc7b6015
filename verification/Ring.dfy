/** A ring buffer shared without a lock by one producer and one consumer, in micro-steps: each step touches one
    shared cell or index, and the steps of the two sides interleave in any order. */
module Ring {
  import opened Words
  import opened Arithmetic

  /** `rb_put` between its calls, or with `k` bytes of its element copied. */
  datatype Producer = PIdle | PCopy(elem: seq<byte>, k: nat)

  /** `rb_get` between its calls, or with the bytes copied so far. */
  datatype Consumer = CIdle | CCopy(got: seq<byte>)

  /** The ring, both sides, and the history of elements accepted and taken out. */
  datatype State = State(size: nat, es: nat, data: seq<byte>, head: nat, tail: nat, prod: Producer, cons: Consumer,
                         accepted: seq<seq<byte>>, taken: seq<seq<byte>>)

  datatype Micro = PutCheck(elem: seq<byte>) | PutByte | PutPublish | GetCheck | GetByte | GetPublish

  function Succ(size: nat, i: nat): nat
    requires size > 0
  {
    (i + 1) % size
  }

  lemma SuccIs(size: nat, i: nat)
    requires i < size
    ensures Succ(size, i) == if i + 1 < size then i + 1 else 0
  {
  }

  predicate IsEmpty(s: State) { s.head == s.tail }

  predicate IsFull(s: State) { s.size != 0 && Succ(s.size, s.head) == s.tail }

  predicate Enabled(s: State, e: Micro) {
    s.size > 0 &&
    match e
    case PutCheck(elem) => s.prod.PIdle? && |elem| == s.es
    case PutByte => s.prod.PCopy? && s.prod.k < s.es == |s.prod.elem| && s.head * s.es + s.prod.k < |s.data|
    case PutPublish => s.prod.PCopy? && s.prod.k == s.es
    case GetCheck => s.cons.CIdle?
    case GetByte => s.cons.CCopy? && |s.cons.got| < s.es && s.tail * s.es + |s.cons.got| < |s.data|
    case GetPublish => s.cons.CCopy? && |s.cons.got| == s.es
  }

  function Next(s: State, e: Micro): State
    requires Enabled(s, e)
  {
    match e
    case PutCheck(elem) => if IsFull(s) then s else s.(prod := PCopy(elem, 0))
    case PutByte => s.(data := s.data[s.head * s.es + s.prod.k := s.prod.elem[s.prod.k]],
                       prod := PCopy(s.prod.elem, s.prod.k + 1))
    case PutPublish => s.(head := Succ(s.size, s.head), prod := PIdle, accepted := s.accepted + [s.prod.elem])
    case GetCheck => if IsEmpty(s) then s else s.(cons := CCopy([]))
    case GetByte => s.(cons := CCopy(s.cons.got + [s.data[s.tail * s.es + |s.cons.got|]]))
    case GetPublish => s.(tail := Succ(s.size, s.tail), cons := CIdle, taken := s.taken + [s.cons.got])
  }

  /** The slot `i` places after `from`. */
  function Place(size: nat, from: nat, i: nat): nat {
    if from + i < size then from + i else from + i - size
  }

  /** Slot `j` holds the first `n` bytes of an element. */
  ghost predicate Holds(data: seq<byte>, es: nat, j: nat, elem: seq<byte>, n: nat) {
    n <= es && n <= |elem| && j * es + es <= |data| && forall b :: 0 <= b < n ==> data[j * es + b] == elem[b]
  }

  /** The elements accepted but not taken lie in the slots from `tail` on. */
  ghost predicate Stored(data: seq<byte>, size: nat, es: nat, tail: nat, waiting: seq<seq<byte>>) {
    forall i :: 0 <= i < |waiting| ==> Holds(data, es, Place(size, tail, i), waiting[i], es)
  }

  function Waiting(s: State): seq<seq<byte>>
    requires |s.taken| <= |s.accepted|
  {
    s.accepted[|s.taken|..]
  }

  ghost predicate Sound(s: State) {
    && s.size > 0 && s.head < s.size && s.tail < s.size && |s.data| == s.size * s.es
    && |s.taken| <= |s.accepted| && s.taken == s.accepted[..|s.taken|]
    && var n := |s.accepted| - |s.taken|;
    && n < s.size && s.head == Place(s.size, s.tail, n)
    && (forall i :: 0 <= i < |s.accepted| ==> |s.accepted[i]| == s.es)
    && Stored(s.data, s.size, s.es, s.tail, Waiting(s))
    && (s.prod.PCopy? ==> n + 1 < s.size && |s.prod.elem| == s.es
                          && Holds(s.data, s.es, s.head, s.prod.elem, s.prod.k))
    && (s.cons.CCopy? ==> n > 0 && |s.cons.got| <= s.es && s.cons.got == s.accepted[|s.taken|][..|s.cons.got|])
  }

  lemma SlotInside(size: nat, es: nat, j: nat)
    requires j < size
    ensures j * es + es <= size * es
  {
    MultipleIsLarge(es, size - j);
    assert es * (size - j) == size * es - j * es;
  }

  /** Cells of different slots are different. */
  lemma SlotsApart(es: nat, i: nat, a: nat, j: nat, b: nat)
    requires a < es && b < es && i * es + a == j * es + b
    ensures i == j && a == b
  {
    DivMod(i, es, a);
    DivMod(j, es, b);
  }

  /** The producer writes a slot the consumer is not entitled to read. */
  lemma WriteKeepsOthers(data: seq<byte>, es: nat, h: nat, k: nat, v: byte, j: nat, elem: seq<byte>, n: nat)
    requires Holds(data, es, j, elem, n) && j != h && k < es && h * es + k < |data|
    ensures Holds(data[h * es + k := v], es, j, elem, n)
  {
    forall b | 0 <= b < n ensures data[h * es + k := v][j * es + b] == elem[b] {
      if j * es + b == h * es + k { SlotsApart(es, j, b, h, k); }
    }
  }

  lemma WriteKeepsStored(data: seq<byte>, size: nat, es: nat, tail: nat, waiting: seq<seq<byte>>, h: nat,
                         k: nat, v: byte)
    requires Stored(data, size, es, tail, waiting) && tail < size && |waiting| < size
    requires h == Place(size, tail, |waiting|) && k < es && h * es + k < |data|
    ensures Stored(data[h * es + k := v], size, es, tail, waiting)
  {
    hide Holds;
    forall i | 0 <= i < |waiting| ensures Holds(data[h * es + k := v], es, Place(size, tail, i), waiting[i], es) {
      WriteKeepsOthers(data, es, h, k, v, Place(size, tail, i), waiting[i], es);
    }
  }

  lemma WriteExtends(data: seq<byte>, es: nat, h: nat, k: nat, elem: seq<byte>)
    requires Holds(data, es, h, elem, k) && k < es && k < |elem|
    ensures h * es + k < |data| && Holds(data[h * es + k := elem[k]], es, h, elem, k + 1)
  {
  }

  lemma PutByteKeeps(s: State)
    requires Sound(s) && Enabled(s, PutByte)
    ensures Sound(Next(s, PutByte))
  {
    hide Holds, Stored, Place, Succ;
    WriteKeepsStored(s.data, s.size, s.es, s.tail, Waiting(s), s.head, s.prod.k, s.prod.elem[s.prod.k]);
    WriteExtends(s.data, s.es, s.head, s.prod.k, s.prod.elem);
  }

  lemma StoreAppend(data: seq<byte>, size: nat, es: nat, tail: nat, waiting: seq<seq<byte>>, elem: seq<byte>)
    requires Stored(data, size, es, tail, waiting) && Holds(data, es, Place(size, tail, |waiting|), elem, es)
    ensures Stored(data, size, es, tail, waiting + [elem])
  {
  }

  lemma PutPublishKeeps(s: State)
    requires Sound(s) && Enabled(s, PutPublish)
    ensures Sound(Next(s, PutPublish))
  {
    hide Holds, Stored, Succ;
    SuccIs(s.size, s.head);
    var t := Next(s, PutPublish);
    StoreAppend(s.data, s.size, s.es, s.tail, Waiting(s), s.prod.elem);
    assert Waiting(t) == Waiting(s) + [s.prod.elem];
    assert t.accepted[..|s.taken|] == s.accepted[..|s.taken|];
    assert s.cons.CCopy? ==> t.accepted[|s.taken|] == s.accepted[|s.taken|];
  }

  lemma FirstStored(data: seq<byte>, size: nat, es: nat, tail: nat, waiting: seq<seq<byte>>)
    requires Stored(data, size, es, tail, waiting) && 0 < |waiting| < size && tail < size
    ensures Holds(data, es, tail, waiting[0], es)
    ensures Stored(data, size, es, if tail + 1 < size then tail + 1 else 0, waiting[1..])
  {
    hide Holds;
    var next := if tail + 1 < size then tail + 1 else 0;
    forall i | 0 <= i < |waiting| - 1 ensures Holds(data, es, Place(size, next, i), waiting[1..][i], es) {
      assert Holds(data, es, Place(size, tail, i + 1), waiting[i + 1], es);
      PlaceShift(size, tail, i);
    }
    assert Holds(data, es, Place(size, tail, 0), waiting[0], es);
  }

  lemma PlaceShift(size: nat, tail: nat, i: nat)
    requires tail < size && i + 1 < size
    ensures Place(size, if tail + 1 < size then tail + 1 else 0, i) == Place(size, tail, i + 1)
  {
  }

  lemma GetByteKeeps(s: State)
    requires Sound(s) && Enabled(s, GetByte)
    ensures Sound(Next(s, GetByte))
  {
    hide Stored;
    var k := |s.cons.got|;
    FirstStored(s.data, s.size, s.es, s.tail, Waiting(s));
    var e := s.accepted[|s.taken|];
    assert e == Waiting(s)[0];
    assert e[..k + 1] == e[..k] + [e[k]];
  }

  lemma GetPublishKeeps(s: State)
    requires Sound(s) && Enabled(s, GetPublish)
    ensures Sound(Next(s, GetPublish))
  {
    hide Holds, Stored, Succ;
    SuccIs(s.size, s.tail);
    var t := Next(s, GetPublish);
    var e := s.accepted[|s.taken|];
    assert s.cons.got == e;
    assert s.accepted[..|s.taken| + 1] == s.accepted[..|s.taken|] + [e];
    FirstStored(s.data, s.size, s.es, s.tail, Waiting(s));
    assert Waiting(t) == Waiting(s)[1..];
  }

  /** Full and empty mean what they should. */
  lemma FullAndEmpty(s: State)
    requires Sound(s)
    ensures IsFull(s) <==> |s.accepted| - |s.taken| == s.size - 1
    ensures IsEmpty(s) <==> s.accepted == s.taken
  {
    SuccIs(s.size, s.head);
    if IsEmpty(s) { assert s.accepted[..|s.taken|] == s.accepted; }
  }

  lemma StepKeeps(s: State, e: Micro)
    requires Sound(s) && Enabled(s, e)
    ensures Sound(Next(s, e))
  {
    FullAndEmpty(s);
    match e
    case PutCheck(elem) =>
      SlotInside(s.size, s.es, s.head);
    case PutByte => PutByteKeeps(s);
    case PutPublish => PutPublishKeeps(s);
    case GetCheck =>
    case GetByte => GetByteKeeps(s);
    case GetPublish => GetPublishKeeps(s);
  }

  // ---------------------------------------------------------------- every interleaving

  predicate AllEnabled(s: State, es: seq<Micro>)
    decreases es
  {
    es == [] || (Enabled(s, es[0]) && AllEnabled(Next(s, es[0]), es[1..]))
  }

  function Run(s: State, es: seq<Micro>): State
    requires AllEnabled(s, es)
    decreases es
  {
    if es == [] then s else Run(Next(s, es[0]), es[1..])
  }

  predicate IsPrefix<T(==)>(xs: seq<T>, ys: seq<T>) { |xs| <= |ys| && xs == ys[..|xs|] }

  /** Whatever the interleaving, what has been taken out is a prefix of what was accepted, whole elements in
      order, never more than `size - 1` wait in between, and history is never rewritten. */
  lemma {:induction false} FifoOverEveryRun(s: State, es: seq<Micro>)
    requires Sound(s) && AllEnabled(s, es)
    ensures var t := Run(s, es);
            && Sound(t)
            && IsPrefix(t.taken, t.accepted) && |t.accepted| - |t.taken| < s.size
            && IsPrefix(s.accepted, t.accepted) && IsPrefix(s.taken, t.taken)
    decreases es
  {
    if es != [] {
      StepKeeps(s, es[0]);
      var u := Next(s, es[0]);
      FifoOverEveryRun(u, es[1..]);
      var t := Run(s, es);
      PrefixTrans(s.accepted, u.accepted, t.accepted);
      PrefixTrans(s.taken, u.taken, t.taken);
      NextSize(s, es[0]);
    }
  }

  lemma NextSize(s: State, e: Micro)
    requires Enabled(s, e)
    ensures Next(s, e).size == s.size
  {
  }

  lemma PrefixTrans<T>(xs: seq<T>, ys: seq<T>, zs: seq<T>)
    requires IsPrefix(xs, ys) && IsPrefix(ys, zs)
    ensures IsPrefix(xs, zs)
  {
    assert xs == ys[..|xs|] == zs[..|ys|][..|xs|] == zs[..|xs|];
  }
}
