/** Input events on their way through the ring to the consumers of their kind, with delivery as steps of its own that
    interleave with the producer and with registration. */
module EventQueue {
  import opened Words
  import opened Disk
  import opened Ring
  import opened RingBuffer

  const MAX_CONSUMERS := 8

  /** The type field at the head of an event. */
  function KindOf(evt: seq<byte>): nat { if |evt| >= 4 then Le32(evt, 0) else 0 }

  function OfKind(evts: seq<seq<byte>>, kind: nat): seq<seq<byte>> {
    if evts == [] then []
    else OfKind(evts[..|evts| - 1], kind)
         + (if KindOf(evts[|evts| - 1]) == kind then [evts[|evts| - 1]] else [])
  }

  // ---------------------------------------------------------------- events as they are put together

  /** An event: its type, and the bytes that follow. */
  datatype Message = Message(kind: Word, payload: seq<byte>)

  function EncodeMessage(m: Message): seq<byte> {
    Bytes32(m.kind) + m.payload
  }

  /** What is in the queue once these have been handed to `kinput`. */
  function Sent(ms: seq<Message>): (s: seq<seq<byte>>)
    ensures |s| == |ms|
  {
    if ms == [] then [] else Sent(ms[..|ms| - 1]) + [EncodeMessage(ms[|ms| - 1])]
  }

  /** Those of one type. */
  function OfType(ms: seq<Message>, kind: nat): seq<Message> {
    if ms == [] then []
    else OfType(ms[..|ms| - 1], kind) + (if ms[|ms| - 1].kind == kind then [ms[|ms| - 1]] else [])
  }

  lemma KindOfMessage(m: Message)
    ensures KindOf(EncodeMessage(m)) == m.kind
  {
    hide Le32, Bytes32;
    assert EncodeMessage(m)[0..4] == Bytes32(m.kind);
    Le32OfBytes(EncodeMessage(m), 0, m.kind);
  }

  lemma SentSnoc(ms: seq<Message>, m: Message)
    ensures Sent(ms + [m]) == Sent(ms) + [EncodeMessage(m)]
  {
    assert (ms + [m])[..|ms|] == ms;
  }

  lemma {:induction false} KindIsType(ms: seq<Message>, kind: nat)
    ensures OfKind(Sent(ms), kind) == Sent(OfType(ms, kind))
  {
    if ms != [] {
      hide KindOf, EncodeMessage;
      var init, m := ms[..|ms| - 1], ms[|ms| - 1];
      KindIsType(init, kind);
      KindOfMessage(m);
      assert Sent(ms)[..|ms| - 1] == Sent(init);
      SentSnoc(OfType(init, kind), m);
      assert OfType(init, kind) + [] == OfType(init, kind);
      assert OfKind(Sent(init), kind) + [] == OfKind(Sent(init), kind);
    }
  }

  lemma {:induction false} SentFrom(ms: seq<Message>, k: nat)
    requires k <= |ms|
    ensures Sent(ms)[k..] == Sent(ms[k..])
    decreases |ms|
  {
    if k < |ms| {
      var init, m := ms[..|ms| - 1], ms[|ms| - 1];
      SentFrom(init, k);
      assert init[k..] == ms[k..][..|ms| - k - 1];
      assert Sent(ms)[k..] == Sent(init)[k..] + [EncodeMessage(m)];
    }
  }

  /** A consumer of one kind of event and the events its callback has been given. */
  datatype Listener = Listener(kind: nat, given: seq<seq<byte>>)

  function Give(l: Listener, evt: seq<byte>): Listener {
    if l.kind == KindOf(evt) then Listener(l.kind, l.given + [evt]) else l
  }

  /** A listener that has been given a message if it is of its type. */
  predicate GivenAs(l: Listener, l': Listener, m: Message) {
    l'.kind == l.kind && l'.given == l.given + if l.kind == m.kind then [EncodeMessage(m)] else []
  }

  lemma GivesMessage(l: Listener, m: Message)
    ensures GivenAs(l, Give(l, EncodeMessage(m)), m)
  {
    KindOfMessage(m);
  }

  /** Where `kevent_proc` is: in `rb_get`, or calling consumers with an event, `i` of them passed. */
  datatype Loop = Getting | Calling(evt: seq<byte>, i: nat)

  /** The ring, the loop, the consumers, and for each the number of events taken that came too early for it. */
  datatype Queue = Queue(ring: State, loop: Loop, consumers: seq<Listener>, since: seq<nat>)

  /** A step of the ring, a look at the next consumer, the end of the round, or a registration. */
  datatype Step = RingStep(e: Micro) | Visit | EndRound | Register(kind: nat)

  predicate IsGet(e: Micro) { e.GetCheck? || e.GetByte? || e.GetPublish? }

  predicate Ready(q: Queue, e: Step) {
    match e
    case RingStep(r) => Enabled(q.ring, r) && (IsGet(r) ==> q.loop.Getting?)
    case Visit => q.loop.Calling? && q.loop.i < |q.consumers|
    case EndRound => q.loop.Calling? && q.loop.i >= |q.consumers|
    case Register(_) => true
  }

  function After(q: Queue, e: Step): Queue
    requires Ready(q, e)
  {
    match e
    case RingStep(r) =>
      q.(ring := Next(q.ring, r), loop := if r.GetPublish? then Calling(q.ring.cons.got, 0) else q.loop)
    case Visit =>
      q.(consumers := q.consumers[q.loop.i := Give(q.consumers[q.loop.i], q.loop.evt)],
         loop := Calling(q.loop.evt, q.loop.i + 1))
    case EndRound => q.(loop := Getting)
    case Register(kind) =>
      if |q.consumers| >= MAX_CONSUMERS then q
      else q.(consumers := q.consumers + [Listener(kind, [])],
              since := q.since + [if q.loop.Calling? && |q.ring.taken| > 0 then |q.ring.taken| - 1
                                  else |q.ring.taken|])
  }

  // ---------------------------------------------------------------- the invariant

  /** How many of the events taken a consumer has been asked about: all, but for the one on its way to it. */
  function Asked(q: Queue, j: nat): int {
    if q.loop.Calling? && j >= q.loop.i then |q.ring.taken| - 1 else |q.ring.taken|
  }

  /** The listener has been given exactly the events of its kind in `evts`, in order. */
  ghost predicate UpToDate(l: Listener, since: nat, upTo: int, taken: seq<seq<byte>>) {
    since <= upTo <= |taken| && l.given == OfKind(taken[since..upTo], l.kind)
  }

  ghost predicate Informed(q: Queue) {
    && Sound(q.ring) && |q.consumers| == |q.since| <= MAX_CONSUMERS
    && (q.loop.Calling? ==>
          && q.ring.cons.CIdle? && q.loop.i <= |q.consumers|
          && |q.ring.taken| > 0 && q.loop.evt == q.ring.taken[|q.ring.taken| - 1])
    && forall j :: 0 <= j < |q.consumers| ==> UpToDate(q.consumers[j], q.since[j], Asked(q, j), q.ring.taken)
  }

  /** One event more. */
  lemma GiveKeepsUpToDate(l: Listener, since: nat, upTo: nat, taken: seq<seq<byte>>)
    requires UpToDate(l, since, upTo, taken) && upTo < |taken|
    ensures UpToDate(Give(l, taken[upTo]), since, upTo + 1, taken)
  {
    var later := taken[since..upTo + 1];
    assert later == taken[since..upTo] + [taken[upTo]];
    assert later[..|later| - 1] == taken[since..upTo];
  }

  lemma MoreTaken(l: Listener, since: nat, upTo: nat, taken: seq<seq<byte>>, more: seq<seq<byte>>)
    requires UpToDate(l, since, upTo, taken) && IsPrefix(taken, more)
    ensures UpToDate(l, since, upTo, more)
  {
    assert taken[since..upTo] == more[..|taken|][since..upTo] == more[since..upTo];
  }

  lemma StepInforms(q: Queue, e: Step)
    requires Informed(q) && Ready(q, e)
    ensures Informed(After(q, e))
  {
    hide Sound, Next, Enabled, OfKind, UpToDate, Give, IsFull, IsEmpty;
    var t := After(q, e);
    match e
    case RingStep(r) =>
      StepKeeps(q.ring, r);
      TakenBy(q.ring, r);
      forall j | 0 <= j < |t.consumers| ensures UpToDate(t.consumers[j], t.since[j], Asked(t, j), t.ring.taken) {
        MoreTaken(q.consumers[j], q.since[j], Asked(q, j), q.ring.taken, t.ring.taken);
      }
    case Visit =>
      GiveKeepsUpToDate(q.consumers[q.loop.i], q.since[q.loop.i], |q.ring.taken| - 1, q.ring.taken);
    case EndRound =>
    case Register(kind) =>
      if |q.consumers| < MAX_CONSUMERS {
        NothingYet(kind, t.since[|q.consumers|], q.ring.taken);
      }
  }

  /** What a step of the ring does to what has been taken. */
  lemma TakenBy(s: State, r: Micro)
    requires Sound(s) && Enabled(s, r)
    ensures Next(s, r).taken == if r.GetPublish? then s.taken + [s.cons.got] else s.taken
    ensures !IsGet(r) ==> Next(s, r).cons == s.cons
    ensures r.GetPublish? ==> Next(s, r).cons.CIdle?
  {
  }

  lemma NothingYet(kind: nat, since: nat, taken: seq<seq<byte>>)
    requires since <= |taken|
    ensures UpToDate(Listener(kind, []), since, since, taken)
  {
  }

  // ---------------------------------------------------------------- every interleaving

  predicate AllReady(q: Queue, es: seq<Step>)
    decreases es
  {
    es == [] || (Ready(q, es[0]) && AllReady(After(q, es[0]), es[1..]))
  }

  function RunOf(q: Queue, es: seq<Step>): Queue
    requires AllReady(q, es)
    decreases es
  {
    if es == [] then q else RunOf(After(q, es[0]), es[1..])
  }

  /** Consumers are never removed or replaced, and what one was given stays given. */
  ghost predicate Continues(q: Queue, t: Queue) {
    && |q.consumers| == |q.since| && |t.consumers| == |t.since| && |q.consumers| <= |t.consumers|
    && IsPrefix(q.ring.accepted, t.ring.accepted) && IsPrefix(q.ring.taken, t.ring.taken)
    && forall j :: 0 <= j < |q.consumers| ==>
         && t.since[j] == q.since[j] && t.consumers[j].kind == q.consumers[j].kind
         && IsPrefix(q.consumers[j].given, t.consumers[j].given)
  }

  lemma StepContinues(q: Queue, e: Step)
    requires Informed(q) && Ready(q, e)
    ensures Continues(q, After(q, e))
  {
    hide UpToDate, Sound;
    if e.RingStep? {
      FifoOverEveryRun(q.ring, [e.e]);
      assert Run(q.ring, [e.e]) == Next(q.ring, e.e);
    }
  }

  lemma ContinuesTrans(q: Queue, t: Queue, u: Queue)
    requires Continues(q, t) && Continues(t, u)
    ensures Continues(q, u)
  {
    hide IsPrefix;
    PrefixTrans(q.ring.accepted, t.ring.accepted, u.ring.accepted);
    PrefixTrans(q.ring.taken, t.ring.taken, u.ring.taken);
    forall j | 0 <= j < |q.consumers| ensures IsPrefix(q.consumers[j].given, u.consumers[j].given) {
      PrefixTrans(q.consumers[j].given, t.consumers[j].given, u.consumers[j].given);
    }
  }

  /** What a listener has been given is the beginning of the accepted events of its kind that are due to it, and all
      of them once the loop has caught up with the producer. */
  ghost predicate InOrder(q: Queue, j: nat)
    requires j < |q.consumers| == |q.since| && q.since[j] <= |q.ring.accepted|
  {
    var l := q.consumers[j];
    var due := OfKind(q.ring.accepted[q.since[j]..], l.kind);
    IsPrefix(l.given, due) && (q.loop.Getting? && q.ring.taken == q.ring.accepted ==> l.given == due)
  }

  lemma {:induction false} OfKindPrefix(evts: seq<seq<byte>>, n: nat, kind: nat)
    requires n <= |evts|
    ensures IsPrefix(OfKind(evts[..n], kind), OfKind(evts, kind))
    decreases |evts|
  {
    if n < |evts| {
      var init := evts[..|evts| - 1];
      OfKindPrefix(init, n, kind);
      assert init[..n] == evts[..n];
      PrefixTrans(OfKind(evts[..n], kind), OfKind(init, kind), OfKind(evts, kind));
    } else {
      assert evts[..n] == evts;
    }
  }

  lemma Middle<T>(xs: seq<T>, ys: seq<T>, i: nat, n: nat)
    requires i <= n <= |ys| && IsPrefix(ys, xs)
    ensures xs[i..][..n - i] == ys[i..n]
  {
    assert ys[i..n] == xs[..|ys|][i..n] == xs[i..n];
  }

  lemma InformedInOrder(q: Queue, j: nat)
    requires Informed(q) && j < |q.consumers|
    ensures q.since[j] <= |q.ring.accepted| && InOrder(q, j)
  {
    hide OfKind;
    var s, n := q.ring, Asked(q, j);
    var since := q.since[j];
    assert UpToDate(q.consumers[j], since, n, s.taken);
    Middle(s.accepted, s.taken, since, n);
    OfKindPrefix(s.accepted[since..], n - since, q.consumers[j].kind);
    if n == |s.accepted| { assert s.taken[since..n] == s.accepted[since..]; }
  }

  /** So, if these messages were accepted, it has been given those of its type in order, and all of them once the
      loop has caught up. */
  ghost predicate Served(q: Queue, j: nat)
    requires j < |q.consumers| == |q.since| && q.since[j] <= |q.ring.accepted|
  {
    forall ms :: q.ring.accepted == Sent(ms) ==>
      var due := Sent(OfType(ms[q.since[j]..], q.consumers[j].kind));
      && IsPrefix(q.consumers[j].given, due)
      && (q.loop.Getting? && q.ring.taken == q.ring.accepted ==> q.consumers[j].given == due)
  }

  lemma ServedInOrder(q: Queue, j: nat)
    requires j < |q.consumers| == |q.since| && q.since[j] <= |q.ring.accepted| && InOrder(q, j)
    ensures Served(q, j)
  {
    hide OfKind, OfType, Sent, IsPrefix;
    forall ms | q.ring.accepted == Sent(ms)
      ensures OfKind(q.ring.accepted[q.since[j]..], q.consumers[j].kind)
              == Sent(OfType(ms[q.since[j]..], q.consumers[j].kind))
    {
      SentFrom(ms, q.since[j]);
      KindIsType(ms[q.since[j]..], q.consumers[j].kind);
    }
  }

  /** However the producer, the delivery loop and registrations interleave, each listener is given its events whole,
      once and in order, misses none, and keeps what it was given. */
  lemma {:induction false} DeliveredOverEveryRun(q: Queue, es: seq<Step>)
    requires Informed(q) && AllReady(q, es)
    ensures var t := RunOf(q, es);
            && Informed(t) && Continues(q, t)
            && forall j :: 0 <= j < |t.consumers| ==>
                 t.since[j] <= |t.ring.accepted| && InOrder(t, j) && Served(t, j)
    decreases es
  {
    if es == [] {
      ContinuesSelf(q);
      forall j | 0 <= j < |q.consumers| ensures q.since[j] <= |q.ring.accepted| && InOrder(q, j) && Served(q, j) {
        InformedInOrder(q, j);
        ServedInOrder(q, j);
      }
    } else {
      hide Continues, Ready, After, InOrder, Served, UpToDate, Sound, Asked;
      StepInforms(q, es[0]);
      StepContinues(q, es[0]);
      DeliveredOverEveryRun(After(q, es[0]), es[1..]);
      ContinuesTrans(q, After(q, es[0]), RunOf(q, es));
    }
  }

  lemma ContinuesSelf(q: Queue)
    requires |q.consumers| == |q.since|
    ensures Continues(q, q)
  {
  }

  // ---------------------------------------------------------------- the code

  class Events {
    const ring: Buffer
    var consumers: seq<Listener>
    var loop: Loop
    ghost var since: seq<nat>

    ghost function Snap(): Queue
      reads this, ring, ring.data
    {
      Queue(ring.Snap(), loop, consumers, since)
    }

    ghost predicate Valid()
      reads this, ring, ring.data
    {
      Informed(Snap())
    }

    constructor (r: Buffer)
      requires r.Valid()
      ensures Valid() && ring == r && consumers == [] && loop == Getting
    {
      ring, consumers, since, loop := r, [], [], Getting;
    }

    /** `kevent_register`, at any moment. */
    method KeventRegister(kind: nat) returns (r: int)
      requires Valid()
      modifies this`consumers, this`since
      ensures Valid() && Snap() == After(old(Snap()), Register(kind))
      ensures r == 1 || r == 0
      ensures r == 1 <==> |old(consumers)| == 8
      ensures consumers == if r == 0 then old(consumers) + [Listener(kind, [])] else old(consumers)
    {
      hide Sound, UpToDate;
      StepInforms(Snap(), Register(kind));
      if |consumers| >= MAX_CONSUMERS {
        return 1;
      }
      consumers := consumers + [Listener(kind, [])];
      since := since + [if loop.Calling? then |ring.taken| - 1 else |ring.taken|];
      return 0;
    }

    /** `kinput`, wherever the delivery loop is: the event is refused exactly when the ring is full. */
    method Kinput(evt: seq<byte>) returns (r: int)
      requires Valid() && ring.prod == PIdle && |evt| == ring.es
      modifies ring`prod, ring`head, ring`accepted, ring.data
      ensures Valid() && ring.prod == PIdle && (r == 1 || r == 0)
      ensures r == 1 <==> |old(ring.accepted)| - |ring.taken| == ring.size - 1
      ensures ring.accepted == if r == 0 then old(ring.accepted) + [evt] else old(ring.accepted)
    {
      hide Sound, UpToDate;
      r := ring.RbPut(evt);
    }

    /** The next event, if there is one. */
    method Take() returns (r: int)
      requires Valid() && ring.cons == CIdle && loop == Getting
      modifies this`loop, ring`cons, ring`tail, ring`taken
      ensures Valid() && ring.cons == CIdle && (r == 1 || r == 0)
      ensures r == 1 <==> ring.accepted == old(ring.taken)
      ensures r == 1 ==> ring.taken == old(ring.taken) && loop == Getting
      ensures r == 0 ==> loop.Calling? && loop.i == 0 && ring.taken == old(ring.taken) + [loop.evt]
    {
      hide Sound, UpToDate;
      ghost var q := Snap();
      var evt;
      r, evt := ring.RbGet();
      if r == 0 {
        loop := Calling(evt, 0);
        forall j | 0 <= j < |consumers| ensures UpToDate(consumers[j], since[j], Asked(Snap(), j), ring.taken) {
          MoreTaken(consumers[j], since[j], Asked(q, j), q.ring.taken, ring.taken);
        }
      }
    }

    /** One pass of the inner loop of `kevent_proc`: take an event and call every consumer of its type. */
    method Deliver() returns (r: int)
      requires Valid() && ring.cons == CIdle && loop == Getting
      modifies this`consumers, this`loop, ring`cons, ring`tail, ring`taken
      ensures Valid() && ring.cons == CIdle && loop == Getting && (r == 1 || r == 0)
      ensures r == 1 <==> ring.accepted == old(ring.taken)
      ensures r == 1 ==> consumers == old(consumers) && ring.taken == old(ring.taken)
      ensures r == 0 ==> |ring.taken| == |old(ring.taken)| + 1 && IsPrefix(old(ring.taken), ring.taken)
      ensures r == 0 ==> |consumers| == |old(consumers)| &&
                         forall i :: 0 <= i < |consumers| ==>
                           consumers[i] == Give(old(consumers)[i], ring.taken[|ring.taken| - 1])
      ensures r == 0 ==> forall m, i :: ring.taken[|ring.taken| - 1] == EncodeMessage(m) && 0 <= i < |consumers| ==>
                           GivenAs(old(consumers)[i], consumers[i], m)
    {
      hide Sound, UpToDate, Give;
      r := Take();
      if r == 1 {
        return;
      }
      while loop.i < |consumers|
        invariant Valid() && ring.cons == CIdle && loop.Calling? && loop.i <= |consumers| == |old(consumers)|
        invariant ring.taken == old(ring.taken) + [loop.evt]
        invariant forall j :: 0 <= j < loop.i ==> consumers[j] == Give(old(consumers)[j], loop.evt)
        invariant forall j :: loop.i <= j < |consumers| ==> consumers[j] == old(consumers)[j]
        decreases |consumers| - loop.i
      {
        CallNext();
      }
      StepInforms(Snap(), EndRound);
      loop := Getting;
      forall m, i | ring.taken[|ring.taken| - 1] == EncodeMessage(m) && 0 <= i < |consumers|
        ensures GivenAs(old(consumers)[i], consumers[i], m)
      {
        GivesMessage(old(consumers)[i], m);
      }
    }

    /** Look at the next consumer and call it if the event is of its type. */
    method CallNext()
      requires Valid() && loop.Calling? && loop.i < |consumers|
      modifies this`consumers, this`loop
      ensures Valid() && Snap() == After(old(Snap()), Visit)
    {
      hide Sound, UpToDate, Give;
      StepInforms(Snap(), Visit);
      consumers := consumers[loop.i := Give(consumers[loop.i], loop.evt)];
      loop := Calling(loop.evt, loop.i + 1);
    }

    /** The inner loop: deliver until the ring is empty. Then every listener has all that is due to it. */
    method Drain()
      requires Valid() && ring.cons == CIdle && loop == Getting
      modifies this`consumers, this`loop, ring`cons, ring`tail, ring`taken
      ensures Valid() && ring.cons == CIdle && loop == Getting && ring.taken == ring.accepted
      ensures forall j :: 0 <= j < |consumers| ==>
                && since[j] <= |ring.accepted|
                && consumers[j].given == OfKind(ring.accepted[since[j]..], consumers[j].kind)
      ensures forall ms, j :: ring.accepted == Sent(ms) && 0 <= j < |consumers| ==>
                since[j] <= |ms| && consumers[j].given == Sent(OfType(ms[since[j]..], consumers[j].kind))
    {
      hide UpToDate, Give, OfKind;
      while true
        invariant Valid() && ring.cons == CIdle && loop == Getting && |ring.taken| <= |ring.accepted|
        decreases |ring.accepted| - |ring.taken|
      {
        var r := Deliver();
        if r == 1 {
          forall j | 0 <= j < |consumers|
            ensures since[j] <= |ring.accepted| && InOrder(Snap(), j) && Served(Snap(), j)
          {
            InformedInOrder(Snap(), j);
            ServedInOrder(Snap(), j);
          }
          return;
        }
      }
    }
  }
}
