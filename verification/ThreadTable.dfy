/** The thread table as words in memory: eight words to a slot. */
module ThreadTable {
  import opened Words
  import opened Arithmetic
  import opened HeapState
  import opened RoundRobin

  const SLOT_WORDS := 8

  // The word of each field of a slot. The state is one byte; the rest of its word is padding.
  const THREAD := 0
  const STATE := 1
  const ARG := 2
  const RES := 3
  const STACK_BASE := 4
  const KSTACK_BASE := 5
  const SP := 6
  const KSP := 7

  /** A slot, with the bases of its stacks in words. */
  datatype Context = Context(thread: Word, state: TState, arg: Word, res: Word, stackBase: nat, kstackBase: nat,
                             sp: Word, ksp: Word)

  function Code(s: TState): nat {
    match s
    case Unused => 0
    case Running => 1
    case Done => 2
  }

  /** Thread, state, argument, result, the bases of the two stacks and the two stack pointers, in this order. */
  ghost predicate SlotIn(m: seq<Word>, at: nat, c: Context) {
    && at + 8 <= |m|
    && m[at] == c.thread
    && m[at + 1] % 0x100 == (if c.state.Unused? then 0 else if c.state.Running? then 1 else 2)
    && m[at + 2] == c.arg && m[at + 3] == c.res
    && m[at + 4] == 4 * c.stackBase && m[at + 5] == 4 * c.kstackBase
    && m[at + 6] == c.sp && m[at + 7] == c.ksp
  }

  ghost predicate TableIn(m: seq<Word>, table: nat, cs: seq<Context>) {
    forall t :: 0 <= t < |cs| ==> SlotIn(m, table + SLOT_WORDS * t, cs[t])
  }

  lemma SlotAt(m: seq<Word>, table: nat, cs: seq<Context>, t: nat)
    requires TableIn(m, table, cs) && t < |cs|
    ensures SlotIn(m, table + SLOT_WORDS * t, cs[t])
  {
  }

  /** The slot with one field set. */
  function With(c: Context, field: nat, v: Word): Context {
    if field == THREAD then c.(thread := v)
    else if field == ARG then c.(arg := v)
    else if field == RES then c.(res := v)
    else if field == STACK_BASE then c.(stackBase := v / 4)
    else if field == KSTACK_BASE then c.(kstackBase := v / 4)
    else if field == SP then c.(sp := v)
    else if field == KSP then c.(ksp := v)
    else c
  }

  /** The words the table occupies. */
  predicate InTable(table: nat, n: nat, w: int) { table <= w < table + SLOT_WORDS * n }

  /** A store outside the table leaves it as it is. */
  lemma TableKept(m: seq<Word>, m': seq<Word>, table: nat, cs: seq<Context>)
    requires TableIn(m, table, cs) && |m'| == |m|
    requires forall w :: 0 <= w < |m| && InTable(table, |cs|, w) ==> m'[w] == m[w]
    ensures TableIn(m', table, cs)
  {
    forall t | 0 <= t < |cs| ensures SlotIn(m', table + SLOT_WORDS * t, cs[t]) {
      SlotAt(m, table, cs, t);
    }
  }

  /** Setting one field of one slot. */
  lemma FieldStored(m: seq<Word>, table: nat, cs: seq<Context>, t: nat, field: nat, v: Word)
    requires TableIn(m, table, cs) && t < |cs| && field < SLOT_WORDS && field != STATE
    requires field == STACK_BASE || field == KSTACK_BASE ==> v % 4 == 0
    ensures var w := table + SLOT_WORDS * t + field;
            w < |m| && TableIn(m[w := v], table, cs[t := With(cs[t], field, v)])
  {
    hide TableIn;
    SlotAt(m, table, cs, t);
    OtherSlots(m, table, cs, t, field, v, With(cs[t], field, v));
  }

  /** Setting the state byte of one slot. */
  lemma StateStored(m: seq<Word>, table: nat, cs: seq<Context>, t: nat, s: TState)
    requires TableIn(m, table, cs) && t < |cs|
    ensures var w := table + SLOT_WORDS * t + STATE;
            && w < |m| && m[w] / 0x100 * 0x100 + Code(s) < WORD_LIMIT
            && TableIn(m[w := m[w] / 0x100 * 0x100 + Code(s)], table, cs[t := cs[t].(state := s)])
  {
    hide TableIn;
    SlotAt(m, table, cs, t);
    var w := table + SLOT_WORDS * t + STATE;
    LowByteSet(m[w], Code(s));
    OtherSlots(m, table, cs, t, STATE, m[w] / 0x100 * 0x100 + Code(s), cs[t].(state := s));
  }

  lemma LowByteSet(w: Word, c: nat)
    requires c < 0x100
    ensures w / 0x100 * 0x100 + c < WORD_LIMIT && (w / 0x100 * 0x100 + c) % 0x100 == c
  {
    DivMod(w / 0x100, 0x100, c);
  }

  lemma OtherSlots(m: seq<Word>, table: nat, cs: seq<Context>, t: nat, field: nat, v: Word, c: Context)
    requires TableIn(m, table, cs) && t < |cs| && field < SLOT_WORDS
    requires var w := table + SLOT_WORDS * t + field;
             w < |m| && SlotIn(m[w := v], table + SLOT_WORDS * t, c)
    ensures TableIn(m[table + SLOT_WORDS * t + field := v], table, cs[t := c])
  {
    var m' := m[table + SLOT_WORDS * t + field := v];
    forall u | 0 <= u < |cs| && u != t ensures SlotIn(m', table + SLOT_WORDS * u, cs[u]) {
      SlotAt(m, table, cs, u);
    }
  }

  /** The table survives a heap call while its block stays live. */
  lemma TableSurvives(m: seq<Word>, m': seq<Word>, s: Layout, table: nat, cs: seq<Context>)
    requires s.Shape() && Untouched(m, m', s) && |m'| == |m| && TableIn(m, table, cs)
    requires table in s.AllLive() && s.AllLive()[table] >= SLOT_WORDS * |cs|
    ensures TableIn(m', table, cs)
  {
    hide Untouched, Layout.AllLive, TableIn;
    forall w | 0 <= w < |m| && InTable(table, |cs|, w) ensures m'[w] == m[w] {
      OwnerKeepsWords(m, m', s, table, w);
    }
    TableKept(m, m', table, cs);
  }

  /** A slot of zeros. */
  function Blank(): Context { Context(0, Unused, 0, 0, 0, 0, 0, 0) }

  lemma ZerosAreBlank(m: seq<Word>, table: nat, n: nat)
    requires table + SLOT_WORDS * n <= |m| && forall w :: table <= w < table + SLOT_WORDS * n ==> m[w] == 0
    ensures TableIn(m, table, seq<Context>(n, _ => Blank()))
  {
  }
}
