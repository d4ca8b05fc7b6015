/** The ring buffer's calls as loops of micro-steps. */
module RingBuffer {
  import opened Words
  import opened Ring

  class Buffer {
    const data: array<byte>
    const size: nat
    const es: nat
    var head: nat
    var tail: nat
    var prod: Producer                       // how far a `rb_put` in progress has come
    var cons: Consumer
    ghost var accepted: seq<seq<byte>>
    ghost var taken: seq<seq<byte>>

    ghost function Snap(): State
      reads this, data
    {
      State(size, es, data[..], head, tail, prod, cons, accepted, taken)
    }

    ghost predicate Valid()
      reads this, data
    {
      Sound(Snap())
    }

    /** `rb_init` */
    constructor (buf: array<byte>, n: nat, elemSize: nat)
      requires n > 0 && buf.Length == n * elemSize
      ensures Valid() && data == buf && size == n && es == elemSize
      ensures accepted == [] && taken == [] && prod == PIdle && cons == CIdle
    {
      data, size, es := buf, n, elemSize;
      head, tail, prod, cons := 0, 0, PIdle, CIdle;
      accepted, taken := [], [];
    }

    method RbEmpty() returns (r: bool)
      requires Valid()
      ensures r <==> accepted == taken
    {
      FullAndEmpty(Snap());
      r := head == tail;
    }

    method RbFull() returns (r: bool)
      requires Valid()
      ensures r <==> |accepted| - |taken| == size - 1
    {
      FullAndEmpty(Snap());
      if size == 0 {
        return false;
      }
      r := Succ(size, head) == tail;
    }

    // -------------------------------------------------------------- micro-steps, for either side at any time

    method StepPutCheck(elem: seq<byte>) returns (full: bool)
      requires Valid() && Enabled(Snap(), PutCheck(elem))
      modifies this`prod
      ensures Valid() && Snap() == Next(old(Snap()), PutCheck(elem))
      ensures full <==> |accepted| - |taken| == size - 1
      ensures full <==> prod.PIdle?
    {
      StepKeeps(Snap(), PutCheck(elem));
      full := RbFull();
      FullAndEmpty(Snap());
      if !full {
        prod := PCopy(elem, 0);
      }
    }

    method StepPutByte()
      requires Valid() && prod.PCopy? && prod.k < es
      modifies this`prod, data
      ensures Valid() && Snap() == Next(old(Snap()), PutByte)
    {
      hide Sound, Next, Enabled;
      CopyIsNext(Snap());
      var at := head * es + prod.k;
      data[at] := prod.elem[prod.k];
      prod := PCopy(prod.elem, prod.k + 1);
    }

    method StepPutPublish()
      requires Valid() && prod.PCopy? && prod.k == es
      modifies this`prod, this`head, this`accepted
      ensures Valid() && Snap() == Next(old(Snap()), PutPublish)
    {
      StepKeeps(Snap(), PutPublish);
      accepted := accepted + [prod.elem];
      head := Succ(size, head);
      prod := PIdle;
    }

    method StepGetCheck() returns (empty: bool)
      requires Valid() && cons.CIdle?
      modifies this`cons
      ensures Valid() && Snap() == Next(old(Snap()), GetCheck)
      ensures empty <==> accepted == taken
      ensures empty <==> cons.CIdle?
    {
      StepKeeps(Snap(), GetCheck);
      empty := RbEmpty();
      FullAndEmpty(Snap());
      if !empty {
        cons := CCopy([]);
      }
    }

    method StepGetByte()
      requires Valid() && cons.CCopy? && |cons.got| < es
      modifies this`cons
      ensures Valid() && Snap() == Next(old(Snap()), GetByte)
    {
      SlotInside(size, es, tail);
      StepKeeps(Snap(), GetByte);
      cons := CCopy(cons.got + [data[tail * es + |cons.got|]]);
    }

    method StepGetPublish() returns (elem: seq<byte>)
      requires Valid() && cons.CCopy? && |cons.got| == es
      modifies this`cons, this`tail, this`taken
      ensures Valid() && Snap() == Next(old(Snap()), GetPublish)
      ensures taken == old(taken) + [elem] && IsPrefix(taken, accepted)
    {
      StepKeeps(Snap(), GetPublish);
      elem := cons.got;
      taken := taken + [elem];
      tail := Succ(size, tail);
      cons := CIdle;
    }

    // -------------------------------------------------------------- whole calls

    method RbPut(elem: seq<byte>) returns (r: int)
      requires Valid() && prod == PIdle && |elem| == es
      modifies this`prod, this`head, this`accepted, data
      ensures Valid() && prod == PIdle
      ensures r == 1 || r == 0
      ensures r == 1 <==> |old(accepted)| - |taken| == size - 1
      ensures accepted == if r == 0 then old(accepted) + [elem] else old(accepted)
    {
      assert size > 0;
      hide Sound;
      var full := StepPutCheck(elem);
      if full {
        return 1;
      }
      while prod.k < es
        invariant Valid() && prod.PCopy? && prod.elem == elem && prod.k <= es
        invariant accepted == old(accepted)
        decreases es - prod.k
      {
        StepPutByte();
      }
      StepPutPublish();
      return 0;
    }

    method RbGet() returns (r: int, elem: seq<byte>)
      requires Valid() && cons == CIdle
      modifies this`cons, this`tail, this`taken
      ensures Valid() && cons == CIdle
      ensures r == 1 || r == 0
      ensures r == 1 <==> accepted == old(taken)
      ensures r == 1 ==> taken == old(taken)
      ensures r == 0 ==> taken == old(taken) + [elem] && IsPrefix(taken, accepted)
    {
      hide Sound;
      elem := [];
      var empty := StepGetCheck();
      if empty {
        return 1, [];
      }
      while |cons.got| < es
        invariant Valid() && cons.CCopy? && |cons.got| <= es && taken == old(taken)
        decreases es - |cons.got|
      {
        StepGetByte();
      }
      elem := StepGetPublish();
      return 0, elem;
    }
  }

  /** Copying one byte is the next micro-step of a `rb_put` that has not finished copying. */
  lemma CopyIsNext(s: State)
    requires Sound(s) && s.prod.PCopy? && s.prod.k < s.es
    ensures s.prod.k < |s.prod.elem| && s.head * s.es + s.prod.k < |s.data|
    ensures Enabled(s, PutByte) && Sound(Next(s, PutByte))
    ensures Next(s, PutByte) == s.(data := s.data[s.head * s.es + s.prod.k := s.prod.elem[s.prod.k]],
                                   prod := PCopy(s.prod.elem, s.prod.k + 1))
  {
    SlotInside(s.size, s.es, s.head);
    StepKeeps(s, PutByte);
  }
}
