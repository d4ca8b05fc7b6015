/** Which slot the scheduler picks, what it reclaims on the way, and how long a thread can wait. */
module RoundRobin {

  datatype TState = Unused | Running | Done

  /** Slots passed on the way from `c` to `t` going round. */
  function Gap(n: nat, c: nat, t: nat): (g: nat)
    requires c < n && t < n
    ensures g < n && (g == 0 <==> c == t)
  {
    if t >= c then t - c else t + n - c
  }

  /** The slot `k` steps after `c`. */
  function Ahead(n: nat, c: nat, k: nat): (t: nat)
    requires c < n && k < n
    ensures t < n && Gap(n, c, t) == k
  {
    if c + k < n then c + k else c + k - n
  }

  lemma AheadOfGap(n: nat, c: nat, t: nat)
    requires c < n && t < n
    ensures Ahead(n, c, Gap(n, c, t)) == t
  {
  }

  /** The distance, from `k` on, to the first running slot; the table size if there is none. */
  function Dist(s: seq<TState>, c: nat, k: nat): (d: nat)
    requires c < |s| && k <= |s|
    ensures k <= d <= |s|
    ensures d < |s| ==> s[Ahead(|s|, c, d)] == Running
    ensures forall j :: k <= j < d ==> s[Ahead(|s|, c, j)] != Running
    decreases |s| - k
  {
    if k == |s| || s[Ahead(|s|, c, k)] == Running then k else Dist(s, c, k + 1)
  }

  lemma {:induction false} DistIs(s: seq<TState>, c: nat, k: nat, d: nat)
    requires c < |s| && k <= d <= |s|
    requires forall j :: k <= j < d ==> s[Ahead(|s|, c, j)] != Running
    requires d < |s| ==> s[Ahead(|s|, c, d)] == Running
    ensures Dist(s, c, k) == d
    decreases d - k
  {
    if k < d { DistIs(s, c, k + 1, d); }
  }

  /** The slot that is current after a scheduler call. */
  function NextThread(s: seq<TState>, c: nat): (t: nat)
    requires c < |s|
    ensures t < |s|
  {
    var d := Dist(s, c, 1);
    if d == |s| then c else Ahead(|s|, c, d)
  }

  /** A finished slot passed by the call. */
  predicate Reaped(s: seq<TState>, c: nat, t: nat)
    requires c < |s| && t < |s|
  {
    0 < Gap(|s|, c, t) < Dist(s, c, 1) && s[t] == Done
  }

  function AfterCall(s: seq<TState>, c: nat): (r: seq<TState>)
    requires c < |s|
    ensures |r| == |s|
    ensures forall t {:trigger r[t]} :: 0 <= t < |s| ==> r[t] == if Reaped(s, c, t) then Unused else s[t]
  {
    seq<TState>(|s|, (t: nat) requires t < |s| && c < |s| => if Reaped(s, c, t) then Unused else s[t])
  }

  /** The current slot changes exactly when another one is running. */
  lemma StaysOnlyIfAlone(s: seq<TState>, c: nat)
    requires c < |s|
    ensures NextThread(s, c) == c <==> forall t :: 0 <= t < |s| && t != c ==> s[t] != Running
    ensures NextThread(s, c) != c ==> s[NextThread(s, c)] == Running
  {
    var d := Dist(s, c, 1);
    if d == |s| {
      forall t | 0 <= t < |s| && t != c ensures s[t] != Running {
        AheadOfGap(|s|, c, t);
      }
    } else {
      assert s[Ahead(|s|, c, d)] == Running;
    }
  }

  /** The current slot is never reclaimed, and neither is one that is not finished. */
  lemma OnlyFinishedOthersReaped(s: seq<TState>, c: nat, t: nat)
    requires c < |s| && t < |s|
    ensures AfterCall(s, c)[t] != s[t] ==> t != c && s[t] == Done && AfterCall(s, c)[t] == Unused
    ensures NextThread(s, c) == t && t != c ==> AfterCall(s, c)[t] == Running
  {
    StaysOnlyIfAlone(s, c);
  }

  /** One call brings a waiting thread closer to its turn. */
  lemma CallShortensWait(s: seq<TState>, c: nat, t: nat)
    requires c < |s| && t < |s| && t != c && s[t] == Running
    ensures var n := NextThread(s, c);
            n == t || 0 < Gap(|s|, n, t) < Gap(|s|, c, t)
  {
    AheadOfGap(|s|, c, t);
    assert s[Ahead(|s|, c, Gap(|s|, c, t))] == Running;
  }

  /** One call reclaims a finished thread or brings it closer to being passed. */
  lemma CallShortensReclaim(s: seq<TState>, c: nat, t: nat)
    requires c < |s| && t < |s| && t != c && s[t] == Done
    ensures var n := NextThread(s, c);
            AfterCall(s, c)[t] == Unused || (n != t && 0 < Gap(|s|, n, t) < Gap(|s|, c, t))
  {
    AheadOfGap(|s|, c, t);
  }

  // ---------------------------------------------------------------- runs

  datatype System = System(s: seq<TState>, c: nat)

  /** A timer tick, a thread created in an unused slot, or the current thread returning. */
  datatype Event = Tick | Create(slot: nat) | Return

  predicate Possible(y: System, e: Event) {
    && y.c < |y.s|
    && match e
       case Tick => true
       case Create(t) => t < |y.s| && y.s[t] == Unused
       case Return => y.s[y.c] != Unused
  }

  function Step(y: System, e: Event): (z: System)
    requires Possible(y, e)
    ensures z.c < |z.s| == |y.s|
  {
    match e
    case Tick => System(AfterCall(y.s, y.c), NextThread(y.s, y.c))
    case Create(t) => System(y.s[t := Running], y.c)
    case Return => System(y.s[y.c := Done], y.c)
  }

  predicate AllPossible(y: System, es: seq<Event>)
    decreases es
  {
    es == [] || (Possible(y, es[0]) && AllPossible(Step(y, es[0]), es[1..]))
  }

  /** Slot `t` is in state `x` throughout the run. */
  predicate Keeps(y: System, es: seq<Event>, t: nat, x: TState)
    requires AllPossible(y, es)
    decreases es
  {
    t < |y.s| && y.s[t] == x && (es == [] || Keeps(Step(y, es[0]), es[1..], t, x))
  }

  predicate BecomesCurrent(y: System, es: seq<Event>, t: nat)
    requires AllPossible(y, es)
    decreases es
  {
    y.c == t || (es != [] && BecomesCurrent(Step(y, es[0]), es[1..], t))
  }

  function Ticks(es: seq<Event>): nat {
    if es == [] then 0 else (if es[0] == Tick then 1 else 0) + Ticks(es[1..])
  }

  /** A thread that stays running gets its turn within as many ticks as it has slots before it, whatever the
      other threads do in between. */
  lemma {:induction false} BoundedWaiting(y: System, es: seq<Event>, t: nat)
    requires y.c < |y.s| && AllPossible(y, es) && Keeps(y, es, t, Running)
    requires Ticks(es) >= Gap(|y.s|, y.c, t)
    ensures BecomesCurrent(y, es, t)
    decreases es
  {
    if y.c != t {
      if es[0] == Tick { CallShortensWait(y.s, y.c, t); }
      BoundedWaiting(Step(y, es[0]), es[1..], t);
    }
  }

  /** In particular within table size - 1 ticks. */
  lemma BoundedWaitingAny(y: System, es: seq<Event>, t: nat)
    requires y.c < |y.s| && AllPossible(y, es) && Keeps(y, es, t, Running)
    requires Ticks(es) >= |y.s| - 1
    ensures BecomesCurrent(y, es, t)
  {
    BoundedWaiting(y, es, t);
  }

  /** A finished thread that is not current cannot stay finished for as many ticks as it has slots before it. */
  lemma {:induction false} BoundedReclamation(y: System, es: seq<Event>, t: nat)
    requires y.c < |y.s| && AllPossible(y, es) && t < |y.s| && t != y.c
    requires Ticks(es) >= Gap(|y.s|, y.c, t)
    ensures !Keeps(y, es, t, Done)
    decreases es
  {
    if y.s[t] == Done {
      if es[0] == Tick { CallShortensReclaim(y.s, y.c, t); }
      if Keeps(Step(y, es[0]), es[1..], t, Done) {
        BoundedReclamation(Step(y, es[0]), es[1..], t);
      }
    }
  }
}
