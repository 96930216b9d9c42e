/**
 Memory pools: a tree of quota counters charged from a pool up to its root by concurrent calls, each
 reserving optimistically and rolling back what it reserved when an ancestor refuses. A step is one
 atomic access; counters are 64-bit words and sums wrap.
 */
module PoolTree {
  import opened Wrappers

  const WORD: nat := 0x1_0000_0000_0000_0000

  /** A pool's quota and its parent, which was there before it. */
  datatype Pool = Pool(limit: Option<nat>, parent: Option<nat>)

  /** Where a call is: about to load, or having loaded, the counter at a level; undoing; over. */
  datatype Pc = Climb(level: nat, seen: Option<nat>) | Back(level: nat) | Granted | Refused

  datatype Call = Call(pool: nat, size: nat, pc: Pc)

  datatype State = State(pools: seq<Pool>, used: seq<nat>, calls: seq<Call>)

  predicate PoolsOk(pools: seq<Pool>) {
    forall q :: 0 <= q < |pools| ==>
      && (pools[q].parent.Some? ==> pools[q].parent.value < q)
      && (pools[q].limit.Some? ==> pools[q].limit.value < WORD)
  }

  /** The pools a call charges, from its own up to the root. */
  function Chain(pools: seq<Pool>, p: nat): seq<nat>
    requires PoolsOk(pools) && p < |pools|
  {
    if pools[p].parent.None? then [p] else [p] + Chain(pools, pools[p].parent.value)
  }

  lemma {:induction false} ChainFacts(pools: seq<Pool>, p: nat)
    requires PoolsOk(pools) && p < |pools|
    ensures |Chain(pools, p)| > 0 && Chain(pools, p)[0] == p
    ensures forall i :: 0 <= i < |Chain(pools, p)| ==> Chain(pools, p)[i] <= p
    ensures forall i, j :: 0 <= i < j < |Chain(pools, p)| ==> Chain(pools, p)[i] != Chain(pools, p)[j]
  {
    if pools[p].parent.Some? { ChainFacts(pools, pools[p].parent.value); }
  }

  /** A new pool changes no existing chain. */
  lemma {:induction false} ChainAppend(pools: seq<Pool>, pool: Pool, p: nat)
    requires PoolsOk(pools) && PoolsOk(pools + [pool]) && p < |pools|
    ensures Chain(pools + [pool], p) == Chain(pools, p)
  {
    if pools[p].parent.Some? { ChainAppend(pools, pool, pools[p].parent.value); }
  }

  // ---------------------------------------------------------------- what calls hold

  /** How many levels of its chain a call has reserved. */
  function Reserved(pools: seq<Pool>, c: Call): nat
    requires PoolsOk(pools) && c.pool < |pools|
  {
    match c.pc
    case Climb(level, _) => level
    case Back(level) => level
    case Granted => |Chain(pools, c.pool)|
    case Refused => 0
  }

  predicate CallOk(pools: seq<Pool>, c: Call)
    requires PoolsOk(pools)
  {
    && c.pool < |pools| && c.size < WORD
    && Reserved(pools, c) <= |Chain(pools, c.pool)|
    && (c.pc.Climb? ==> c.pc.level < |Chain(pools, c.pool)| && (c.pc.seen.Some? ==> c.pc.seen.value < WORD))
  }

  /** What the call's reservations amount to in pool q. */
  function Held(pools: seq<Pool>, c: Call, q: nat): nat
    requires PoolsOk(pools) && CallOk(pools, c)
  {
    if q in Chain(pools, c.pool)[..Reserved(pools, c)] then c.size else 0
  }

  predicate CallsOk(pools: seq<Pool>, calls: seq<Call>) {
    PoolsOk(pools) && forall i :: 0 <= i < |calls| ==> CallOk(pools, calls[i])
  }

  /** The bytes granted through q or its descendants, plus the reservations of calls in flight there. */
  function Total(pools: seq<Pool>, calls: seq<Call>, q: nat): nat
    requires CallsOk(pools, calls)
  {
    if calls == [] then 0 else Total(pools, calls[..|calls| - 1], q) + Held(pools, calls[|calls| - 1], q)
  }

  lemma {:induction false} TotalUpdate(pools: seq<Pool>, calls: seq<Call>, i: nat, c: Call, q: nat)
    requires CallsOk(pools, calls) && i < |calls| && CallOk(pools, c)
    ensures CallsOk(pools, calls[i := c])
    ensures Total(pools, calls[i := c], q) == Total(pools, calls, q) - Held(pools, calls[i], q) + Held(pools, c, q)
    decreases |calls|
  {
    var n := |calls| - 1;
    if i < n {
      TotalUpdate(pools, calls[..n], i, c, q);
      assert calls[i := c][..n] == calls[..n][i := c];
    } else {
      assert calls[i := c][..n] == calls[..n];
    }
  }

  lemma {:induction false} TotalGrow(pools: seq<Pool>, pool: Pool, calls: seq<Call>, q: nat)
    requires CallsOk(pools, calls) && PoolsOk(pools + [pool])
    ensures CallsOk(pools + [pool], calls)
    ensures Total(pools + [pool], calls, q) == Total(pools, calls, q)
    decreases |calls|
  {
    forall i | 0 <= i < |calls|
      ensures CallOk(pools + [pool], calls[i]) && Held(pools + [pool], calls[i], q) == Held(pools, calls[i], q)
    {
      ChainAppend(pools, pool, calls[i].pool);
    }
    if calls != [] { TotalGrow(pools, pool, calls[..|calls| - 1], q); }
  }

  lemma {:induction false} TotalNewPool(pools: seq<Pool>, calls: seq<Call>, q: nat, bound: nat)
    requires CallsOk(pools, calls) && q >= bound && forall i :: 0 <= i < |calls| ==> calls[i].pool < bound
    ensures Total(pools, calls, q) == 0
    decreases |calls|
  {
    if calls != [] {
      ChainFacts(pools, calls[|calls| - 1].pool);
      TotalNewPool(pools, calls[..|calls| - 1], q, bound);
    }
  }

  lemma {:induction false} HeldWithin(pools: seq<Pool>, calls: seq<Call>, i: nat, q: nat)
    requires CallsOk(pools, calls) && i < |calls|
    ensures Held(pools, calls[i], q) <= Total(pools, calls, q)
    decreases |calls|
  {
    if i < |calls| - 1 { HeldWithin(pools, calls[..|calls| - 1], i, q); }
  }

  // ---------------------------------------------------------------- the steps

  datatype Step =
    | Begin(pool: nat, size: nat)
    | NewPool(limit: nat, parent: nat)
    | Load(i: nat)
    | Refuse(i: nat)
    | Exchange(i: nat, spurious: bool)
    | Undo(i: nat)

  predicate Exceeds(p: Pool, seen: nat, size: nat) {
    p.limit.Some? && (seen + size) % WORD > p.limit.value
  }

  predicate Shaped(s: State) {
    |s.used| == |s.pools| && CallsOk(s.pools, s.calls)
  }

  /** The pool a call stands at. */
  function Here(s: State, i: nat): nat
    requires Shaped(s) && i < |s.calls| && s.calls[i].pc.Climb?
    ensures Here(s, i) < |s.pools|
  {
    ChainFacts(s.pools, s.calls[i].pool);
    Chain(s.pools, s.calls[i].pool)[s.calls[i].pc.level]
  }

  predicate Enabled(s: State, step: Step)
    requires Shaped(s)
  {
    match step
    case Begin(pool, size) => pool < |s.pools| && size < WORD
    case NewPool(limit, parent) => limit < WORD && parent < |s.pools|
    case Load(i) => i < |s.calls| && s.calls[i].pc.Climb? && s.calls[i].pc.seen.None?
    case Refuse(i) =>
      && i < |s.calls| && s.calls[i].pc.Climb? && s.calls[i].pc.seen.Some?
      && Exceeds(s.pools[Here(s, i)], s.calls[i].pc.seen.value, s.calls[i].size)
    case Exchange(i, _) =>
      && i < |s.calls| && s.calls[i].pc.Climb? && s.calls[i].pc.seen.Some?
      && !Exceeds(s.pools[Here(s, i)], s.calls[i].pc.seen.value, s.calls[i].size)
    case Undo(i) => i < |s.calls| && s.calls[i].pc.Back?
  }

  /** The exchange finds what the call had seen. */
  predicate Succeeds(s: State, step: Step)
    requires Shaped(s) && Enabled(s, step)
  {
    step.Exchange? && !step.spurious && s.used[Here(s, step.i)] == s.calls[step.i].pc.seen.value
  }

  function SetPc(s: State, i: nat, pc: Pc): State
    requires i < |s.calls|
  {
    s.(calls := s.calls[i := s.calls[i].(pc := pc)])
  }

  function Take(s: State, step: Step): State
    requires Shaped(s) && Enabled(s, step)
  {
    match step
    case Begin(pool, size) => s.(calls := s.calls + [Call(pool, size, Climb(0, None))])
    case NewPool(limit, parent) => s.(pools := s.pools + [Pool(Some(limit), Some(parent))], used := s.used + [0])
    case Load(i) => SetPc(s, i, Climb(s.calls[i].pc.level, Some(s.used[Here(s, i)])))
    case Refuse(i) => SetPc(s, i, Back(s.calls[i].pc.level))
    case Exchange(i, _) =>
      var q, level := Here(s, i), s.calls[i].pc.level;
      if Succeeds(s, step) then
        SetPc(s.(used := s.used[q := (s.calls[i].pc.seen.value + s.calls[i].size) % WORD]), i,
              if level + 1 == |Chain(s.pools, s.calls[i].pool)| then Granted else Climb(level + 1, None))
      else SetPc(s, i, Climb(level, Some(s.used[q])))
    case Undo(i) =>
      var level := s.calls[i].pc.level;
      if level == 0 then SetPc(s, i, Refused)
      else
        ChainFacts(s.pools, s.calls[i].pool);
        var q := Chain(s.pools, s.calls[i].pool)[level - 1];
        SetPc(s.(used := s.used[q := (s.used[q] - s.calls[i].size) % WORD]), i, Back(level - 1))
  }

  // ---------------------------------------------------------------- conservation

  /** Each counter is what is held there, modulo the word. */
  predicate Counted(s: State) {
    Shaped(s) && forall q :: 0 <= q < |s.pools| ==> s.used[q] == Total(s.pools, s.calls, q) % WORD
  }

  /** What changing one call's pc does to every total. */
  lemma PcTotals(s: State, i: nat, pc: Pc)
    requires Shaped(s) && i < |s.calls| && CallOk(s.pools, s.calls[i].(pc := pc))
    ensures CallsOk(s.pools, SetPc(s, i, pc).calls)
    ensures forall q: nat :: Total(s.pools, SetPc(s, i, pc).calls, q) ==
              Total(s.pools, s.calls, q) - Held(s.pools, s.calls[i], q) + Held(s.pools, s.calls[i].(pc := pc), q)
  {
    forall q: nat
      ensures CallsOk(s.pools, SetPc(s, i, pc).calls)
      ensures Total(s.pools, SetPc(s, i, pc).calls, q) ==
              Total(s.pools, s.calls, q) - Held(s.pools, s.calls[i], q) + Held(s.pools, s.calls[i].(pc := pc), q)
    {
      TotalUpdate(s.pools, s.calls, i, s.calls[i].(pc := pc), q);
    }
  }

  /** Moving one level up or down changes what is held in exactly one pool. */
  lemma HeldLevel(pools: seq<Pool>, low: Call, high: Call, q: nat)
    requires PoolsOk(pools) && CallOk(pools, low) && CallOk(pools, high) && low.pool == high.pool
    requires low.size == high.size
    requires Reserved(pools, high) == Reserved(pools, low) + 1
    ensures var moved := Chain(pools, low.pool)[Reserved(pools, low)];
            && Held(pools, high, q) == Held(pools, low, q) + (if q == moved then low.size else 0)
            && (q == moved ==> Held(pools, low, q) == 0)
  {
    ChainFacts(pools, low.pool);
    var chain, l := Chain(pools, low.pool), Reserved(pools, low);
    assert chain[..l + 1] == chain[..l] + [chain[l]];
  }

  lemma AddMod(total: nat, size: nat)
    ensures (total % WORD + size) % WORD == (total + size) % WORD
    ensures total >= size ==> (total % WORD - size) % WORD == (total - size) % WORD
  {
    var k := total / WORD;
    assert total == k * WORD + total % WORD;
    WrapFree(total % WORD + size, k);
    if total >= size { WrapFree(total % WORD - size, k); }
  }

  lemma WrapFree(a: int, k: nat)
    ensures (a + k * WORD) % WORD == a % WORD
  {
  }

  /** The states a success and an undo lead to, with every total. */
  lemma ExchangeTotals(s: State, step: Step)
    requires Shaped(s) && Enabled(s, step) && Succeeds(s, step)
    ensures Shaped(Take(s, step))
    ensures forall q: nat :: Total(s.pools, Take(s, step).calls, q) ==
              Total(s.pools, s.calls, q) + (if q == Here(s, step.i) then s.calls[step.i].size else 0)
  {
    var c, pc := s.calls[step.i], Take(s, step).calls[step.i].pc;
    PcTotals(s, step.i, pc);
    forall q: nat
      ensures Held(s.pools, c.(pc := pc), q) == Held(s.pools, c, q) + (if q == Here(s, step.i) then c.size else 0)
    {
      HeldLevel(s.pools, c, c.(pc := pc), q);
    }
  }

  lemma UndoTotals(s: State, i: nat)
    requires Shaped(s) && Enabled(s, Undo(i)) && s.calls[i].pc.level > 0
    ensures Shaped(Take(s, Undo(i)))
    ensures var moved := Chain(s.pools, s.calls[i].pool)[s.calls[i].pc.level - 1];
            && moved < |s.pools| && s.calls[i].size <= Total(s.pools, s.calls, moved)
            && forall q: nat :: Total(s.pools, Take(s, Undo(i)).calls, q) ==
                 Total(s.pools, s.calls, q) - (if q == moved then s.calls[i].size else 0)
  {
    var c, pc := s.calls[i], Back(s.calls[i].pc.level - 1);
    var moved := Chain(s.pools, c.pool)[c.pc.level - 1];
    ChainFacts(s.pools, c.pool);
    PcTotals(s, i, pc);
    forall q: nat
      ensures Held(s.pools, c, q) == Held(s.pools, c.(pc := pc), q) + (if q == moved then c.size else 0)
    {
      HeldLevel(s.pools, c.(pc := pc), c, q);
    }
    HeldWithin(s.pools, s.calls, i, moved);
  }

  lemma BeginTotals(s: State, pool: nat, size: nat)
    requires Shaped(s) && Enabled(s, Begin(pool, size))
    ensures Shaped(Take(s, Begin(pool, size)))
    ensures forall q: nat :: Total(s.pools, Take(s, Begin(pool, size)).calls, q) == Total(s.pools, s.calls, q)
  {
    var c := Call(pool, size, Climb(0, None));
    ChainFacts(s.pools, pool);
    var calls := s.calls + [c];
    assert calls[..|calls| - 1] == s.calls;
    assert CallsOk(s.pools, calls);
  }

  lemma NewPoolTotals(s: State, limit: nat, parent: nat)
    requires Shaped(s) && Enabled(s, NewPool(limit, parent))
    ensures Shaped(Take(s, NewPool(limit, parent)))
    ensures forall q: nat :: Total(Take(s, NewPool(limit, parent)).pools, s.calls, q) == Total(s.pools, s.calls, q)
    ensures Total(s.pools, s.calls, |s.pools|) == 0
  {
    var pool := Pool(Some(limit), Some(parent));
    forall q: nat
      ensures CallsOk(s.pools + [pool], s.calls) && Total(s.pools + [pool], s.calls, q) == Total(s.pools, s.calls, q)
    {
      TotalGrow(s.pools, pool, s.calls, q);
    }
    TotalNewPool(s.pools, s.calls, |s.pools|, |s.pools|);
  }

  lemma QuietTotals(s: State, step: Step)
    requires Shaped(s) && Enabled(s, step) && !Succeeds(s, step)
    requires step.Load? || step.Refuse? || step.Exchange? || (step.Undo? && s.calls[step.i].pc.level == 0)
    requires forall q :: 0 <= q < |s.pools| ==> s.used[q] < WORD
    ensures Shaped(Take(s, step))
    ensures forall q: nat :: Total(s.pools, Take(s, step).calls, q) == Total(s.pools, s.calls, q)
  {
    PcTotals(s, step.i, Take(s, step).calls[step.i].pc);
  }

  // ---------------------------------------------------------------- quotas

  /** Each counter is exactly what is held there, and no quota is exceeded. */
  predicate Exact(s: State) {
    && Shaped(s)
    && forall q :: 0 <= q < |s.pools| ==>
         && s.used[q] == Total(s.pools, s.calls, q) < WORD
         && (s.pools[q].limit.Some? ==> s.used[q] <= s.pools[q].limit.value)
  }

  /** A successful exchange whose sum wraps around the word. */
  predicate Wraps(s: State, step: Step)
    requires Shaped(s) && Enabled(s, step)
  {
    Succeeds(s, step) && s.used[Here(s, step.i)] + s.calls[step.i].size >= WORD
  }

  lemma SmallMod(a: int)
    ensures 0 <= a < WORD ==> a % WORD == a
    ensures WORD <= a < 2 * WORD ==> a % WORD == a - WORD
  {
  }

  /** Counters and totals that move together at one pool stay together modulo the word. */
  lemma MoveCounted(s: State, s': State, q: nat, delta: int)
    requires Counted(s) && Shaped(s') && s'.pools == s.pools && q < |s.pools|
    requires s'.used == s.used[q := (s.used[q] + delta) % WORD] && Total(s.pools, s.calls, q) + delta >= 0
    requires forall r: nat :: Total(s.pools, s'.calls, r) == Total(s.pools, s.calls, r) + (if r == q then delta else 0)
    ensures Counted(s')
  {
    var total := Total(s.pools, s.calls, q);
    if delta >= 0 { AddMod(total, delta); } else { AddMod(total, -delta); }
    assert (total % WORD + delta) % WORD == (total + delta) % WORD;
  }

  /** They stay equal exactly when the move does not cross the word. */
  lemma MoveExact(s: State, s': State, q: nat, delta: int, now: nat)
    requires Exact(s) && Shaped(s') && s'.pools == s.pools && q < |s.pools|
    requires s'.used == s.used[q := now] && s.used[q] + delta >= 0
    requires now == if s.used[q] + delta < WORD then s.used[q] + delta else s.used[q] + delta - WORD
    requires forall r: nat :: Total(s.pools, s'.calls, r) == Total(s.pools, s.calls, r) + (if r == q then delta else 0)
    requires delta <= 0 || (s.pools[q].limit.Some? ==> now <= s.pools[q].limit.value)
    ensures Exact(s') <==> s.used[q] + delta < WORD
  {
    if s.used[q] + delta >= WORD { assert s'.used[q] != Total(s.pools, s'.calls, q); }
  }

  lemma ExchangeCounted(s: State, step: Step)
    requires Shaped(s) && Enabled(s, step) && Succeeds(s, step)
    ensures Counted(s) ==> Counted(Take(s, step))
  {
    ExchangeTotals(s, step);
    if Counted(s) { MoveCounted(s, Take(s, step), Here(s, step.i), s.calls[step.i].size); }
  }

  lemma ExchangeExact(s: State, step: Step)
    requires Shaped(s) && Enabled(s, step) && Succeeds(s, step)
    ensures Exact(s) ==> (Exact(Take(s, step)) <==> !Wraps(s, step))
  {
    ExchangeTotals(s, step);
    var q, size := Here(s, step.i), s.calls[step.i].size;
    SmallMod(s.used[q] + size);
    if Exact(s) { MoveExact(s, Take(s, step), q, size, (s.used[q] + size) % WORD); }
  }

  lemma UndoCounted(s: State, i: nat)
    requires Shaped(s) && Enabled(s, Undo(i)) && s.calls[i].pc.level > 0
    ensures Counted(s) ==> Counted(Take(s, Undo(i)))
  {
    UndoTotals(s, i);
    var q := Chain(s.pools, s.calls[i].pool)[s.calls[i].pc.level - 1];
    var delta: int := 0 - s.calls[i].size;
    if Counted(s) { MoveCounted(s, Take(s, Undo(i)), q, delta); }
  }

  lemma UndoExact(s: State, i: nat)
    requires Shaped(s) && Enabled(s, Undo(i)) && s.calls[i].pc.level > 0
    ensures Exact(s) ==> Exact(Take(s, Undo(i)))
  {
    UndoTotals(s, i);
    var q := Chain(s.pools, s.calls[i].pool)[s.calls[i].pc.level - 1];
    var delta: int := 0 - s.calls[i].size;
    SmallMod(s.used[q] + delta);
    if Exact(s) { MoveExact(s, Take(s, Undo(i)), q, delta, (s.used[q] + delta) % WORD); }
  }

  lemma QuietKeeps(s: State, step: Step)
    requires Shaped(s) && Enabled(s, step) && !Succeeds(s, step)
    requires step.Load? || step.Refuse? || step.Exchange? || (step.Undo? && s.calls[step.i].pc.level == 0)
    ensures Counted(s) ==> Counted(Take(s, step))
    ensures Exact(s) ==> Exact(Take(s, step))
  {
    if Counted(s) || Exact(s) { QuietTotals(s, step); }
  }

  lemma GrowthKeeps(s: State, step: Step)
    requires Shaped(s) && Enabled(s, step) && (step.Begin? || step.NewPool?)
    ensures Counted(s) ==> Counted(Take(s, step))
    ensures Exact(s) ==> Exact(Take(s, step))
  {
    if step.Begin? { BeginTotals(s, step.pool, step.size); } else { NewPoolTotals(s, step.limit, step.parent); }
  }

  /** In every interleaving each counter is what is held there, modulo the word; a step keeps counters exact and quotas
      respected exactly when it does not wrap. */
  lemma StepKeeps(s: State, step: Step)
    requires Shaped(s) && Enabled(s, step)
    ensures Counted(s) ==> Counted(Take(s, step))
    ensures Exact(s) ==> (Exact(Take(s, step)) <==> !Wraps(s, step))
  {
    if step.Begin? || step.NewPool? {
      GrowthKeeps(s, step);
    } else if Succeeds(s, step) {
      ExchangeCounted(s, step);
      ExchangeExact(s, step);
    } else if step.Undo? && s.calls[step.i].pc.level > 0 {
      UndoCounted(s, step.i);
      UndoExact(s, step.i);
    } else {
      QuietKeeps(s, step);
    }
  }

  /** A request for nearly the whole address space is granted by a pool that has 50 of 100 bytes left. */
  lemma WrappingGrant()
    ensures var s := State([Pool(Some(100), None)], [50],
                           [Call(0, 50, Granted), Call(0, WORD - 50, Climb(0, Some(50)))]);
            && Exact(s) && Enabled(s, Exchange(1, false)) && Take(s, Exchange(1, false)).used == [0]
            && Take(s, Exchange(1, false)).calls[1].pc == Granted
  {
    var pools := [Pool(Some(100), None)];
    var calls := [Call(0, 50, Granted), Call(0, WORD - 50, Climb(0, Some(50)))];
    assert Chain(pools, 0) == [0];
    assert calls[..1] == [calls[0]] && calls[..1][..0] == [];
    var one := [calls[0]];
    assert one[..0] == [] && [0][..1] == [0];
    assert CallsOk(pools, one) && CallsOk(pools, []) && Total(pools, [], 0) == 0;
    assert Held(pools, calls[0], 0) == 50 && Total(pools, one, 0) == 50;
    assert Held(pools, calls[1], 0) == 0;
  }

  // ---------------------------------------------------------------- whole runs

  function Run(s: State, steps: seq<Step>): State
    requires Legal(s, steps)
    decreases |steps|
  {
    if steps == [] then s else Run(Take(s, steps[0]), steps[1..])
  }

  /** Each step is possible when its turn comes. */
  predicate Legal(s: State, steps: seq<Step>)
    decreases |steps|
  {
    steps == [] || (Shaped(s) && Enabled(s, steps[0]) && Legal(Take(s, steps[0]), steps[1..]))
  }

  predicate NoWraps(s: State, steps: seq<Step>)
    requires Legal(s, steps)
    decreases |steps|
  {
    steps == [] || (!Wraps(s, steps[0]) && NoWraps(Take(s, steps[0]), steps[1..]))
  }

  lemma {:induction false} EveryRunCounted(s: State, steps: seq<Step>)
    requires Counted(s) && Legal(s, steps)
    ensures Counted(Run(s, steps))
    decreases |steps|
  {
    if steps != [] {
      StepKeeps(s, steps[0]);
      EveryRunCounted(Take(s, steps[0]), steps[1..]);
    }
  }

  /** Over every interleaving without a wrapping sum, quotas hold and counters are exact at every step. */
  lemma {:induction false} EveryRunExact(s: State, steps: seq<Step>)
    requires Exact(s) && Legal(s, steps) && NoWraps(s, steps)
    ensures Exact(Run(s, steps))
    decreases |steps|
  {
    if steps != [] {
      StepKeeps(s, steps[0]);
      EveryRunExact(Take(s, steps[0]), steps[1..]);
    }
  }

  // ---------------------------------------------------------------- modest requests

  /** All the bytes ever asked for in pool q or below it, granted, refused or under way. */
  function Asked(pools: seq<Pool>, calls: seq<Call>, q: nat): nat
    requires CallsOk(pools, calls)
  {
    if calls == [] then 0
    else
      var c := calls[|calls| - 1];
      Asked(pools, calls[..|calls| - 1], q) + if q in Chain(pools, c.pool) then c.size else 0
  }

  /**
   The condition a caller can check, pool by pool up to the root: at a limited pool size and limit together stay below
   the word; at an unlimited one everything asked for so far, and this, does.
   */
  predicate ModestAt(pools: seq<Pool>, calls: seq<Call>, p: nat, size: nat)
    requires CallsOk(pools, calls) && p < |pools|
  {
    forall q :: q in Chain(pools, p) ==> Spare(pools, q, size, Asked(pools, calls, q) + size)
  }

  /** Pool q has room for size within a word: its limit leaves it, or else all that was asked for does. */
  predicate Spare(pools: seq<Pool>, q: nat, size: nat, asked: nat) {
    && q < |pools|
    && if pools[q].limit.Some? then size + pools[q].limit.value < WORD else asked < WORD
  }

  /** What modest requests leave: the limits still leave room for each, and unlimited pools for all together. */
  predicate Modest(s: State) {
    Shaped(s) && forall i :: 0 <= i < |s.calls| ==> CallModest(s.pools, s.calls, s.calls[i])
  }

  predicate CallModest(pools: seq<Pool>, calls: seq<Call>, c: Call)
    requires CallsOk(pools, calls) && c.pool < |pools|
  {
    forall q :: q in Chain(pools, c.pool) ==> Spare(pools, q, c.size, Asked(pools, calls, q))
  }

  /** Each request is modest when it is made. */
  predicate ModestRun(s: State, steps: seq<Step>)
    requires Legal(s, steps)
    decreases |steps|
  {
    steps != [] ==>
      && (steps[0].Begin? ==> ModestAt(s.pools, s.calls, steps[0].pool, steps[0].size))
      && ModestRun(Take(s, steps[0]), steps[1..])
  }

  /** A call that has yet to charge q is asked for there on top of what is held. */
  lemma {:induction false} TotalBelowAsked(pools: seq<Pool>, calls: seq<Call>, q: nat)
    requires CallsOk(pools, calls)
    ensures Total(pools, calls, q) <= Asked(pools, calls, q)
    ensures forall i :: 0 <= i < |calls| && q in Chain(pools, calls[i].pool) && Held(pools, calls[i], q) == 0 ==>
              Total(pools, calls, q) + calls[i].size <= Asked(pools, calls, q)
    decreases |calls|
  {
    if calls != [] {
      var n := |calls| - 1;
      TotalBelowAsked(pools, calls[..n], q);
      assert forall i :: 0 <= i < n ==> calls[..n][i] == calls[i];
    }
  }

  /** Asking depends on where and how much the calls ask, not on how far they are. */
  lemma {:induction false} AskedSame(pools: seq<Pool>, calls: seq<Call>, pools': seq<Pool>, calls': seq<Call>, q: nat)
    requires CallsOk(pools, calls) && CallsOk(pools', calls') && |calls'| == |calls|
    requires forall i :: 0 <= i < |calls| ==>
               calls'[i].size == calls[i].size &&
                 Chain(pools', calls'[i].pool) == Chain(pools, calls[i].pool)
    ensures Asked(pools', calls', q) == Asked(pools, calls, q)
    decreases |calls|
  {
    if calls != [] {
      var n := |calls| - 1;
      AskedSame(pools, calls[..n], pools', calls'[..n], q);
    }
  }

  /** No sum of modest requests wraps. */
  lemma ModestNeverWraps(s: State, step: Step)
    requires Exact(s) && Modest(s) && Enabled(s, step) && step.Exchange?
    ensures !Wraps(s, step)
  {
    var c, q := s.calls[step.i], Here(s, step.i);
    assert q in Chain(s.pools, c.pool) && CallModest(s.pools, s.calls, c);
    if s.pools[q].limit.None? {
      NotYetHeld(s.pools, c);
      TotalBelowAsked(s.pools, s.calls, q);
    }
  }

  lemma NotYetHeld(pools: seq<Pool>, c: Call)
    requires PoolsOk(pools) && CallOk(pools, c) && c.pc.Climb?
    ensures Held(pools, c, Chain(pools, c.pool)[c.pc.level]) == 0
  {
    ChainFacts(pools, c.pool);
  }

  lemma ModestKept(s: State, step: Step)
    requires Modest(s) && Enabled(s, step) && Shaped(Take(s, step))
    requires step.Begin? ==> ModestAt(s.pools, s.calls, step.pool, step.size)
    ensures Modest(Take(s, step))
  {
    if step.Begin? { ModestBegin(s, step.pool, step.size); } else { ModestStays(s, Take(s, step), step); }
  }

  lemma ModestBegin(s: State, pool: nat, size: nat)
    requires Modest(s) && Enabled(s, Begin(pool, size)) && ModestAt(s.pools, s.calls, pool, size)
    requires Shaped(Take(s, Begin(pool, size)))
    ensures Modest(Take(s, Begin(pool, size)))
  {
    var s', n := Take(s, Begin(pool, size)), |s.calls|;
    assert s'.calls[..n] == s.calls;
    forall i | 0 <= i < |s'.calls|
      ensures CallModest(s'.pools, s'.calls, s'.calls[i])
    {
      if i < n { assert s'.calls[i] == s.calls[i] && CallModest(s.pools, s.calls, s.calls[i]); }
      forall q | q in Chain(s.pools, s'.calls[i].pool)
        ensures Spare(s.pools, q, s'.calls[i].size, Asked(s.pools, s'.calls, q))
      {
        assert Asked(s.pools, s'.calls, q) == Asked(s.pools, s.calls, q) + if q in Chain(s.pools, pool) then size
        else 0;
        assert q in Chain(s.pools, pool) ==> Spare(s.pools, q, size, Asked(s.pools, s.calls, q) + size);
      }
    }
  }

  lemma ModestStays(s: State, s': State, step: Step)
    requires Modest(s) && Enabled(s, step) && !step.Begin? && s' == Take(s, step) && Shaped(s')
    ensures Modest(s')
  {
    forall i | 0 <= i < |s.calls|
      ensures s'.calls[i].size == s.calls[i].size
      ensures Chain(s'.pools, s'.calls[i].pool) == Chain(s.pools, s.calls[i].pool)
    {
      if step.NewPool? { ChainAppend(s.pools, Pool(Some(step.limit), Some(step.parent)), s.calls[i].pool); }
    }
    ModestAlike(s, s');
  }

  lemma ModestAlike(s: State, s': State)
    requires Modest(s) && Shaped(s') && |s'.calls| == |s.calls| && s.pools <= s'.pools
    requires forall i :: 0 <= i < |s.calls| ==>
               s'.calls[i].size == s.calls[i].size &&
                 Chain(s'.pools, s'.calls[i].pool) == Chain(s.pools, s.calls[i].pool)
    ensures Modest(s')
  {
    forall i | 0 <= i < |s'.calls|
      ensures CallModest(s'.pools, s'.calls, s'.calls[i])
    {
      assert CallModest(s.pools, s.calls, s.calls[i]);
      forall q | q in Chain(s.pools, s.calls[i].pool)
        ensures Spare(s'.pools, q, s.calls[i].size, Asked(s'.pools, s'.calls, q))
      {
        assert Spare(s.pools, q, s.calls[i].size, Asked(s.pools, s.calls, q));
        AskedSame(s.pools, s.calls, s'.pools, s'.calls, q);
      }
    }
  }

  /** With modest requests no sum ever wraps, so quotas hold and counters are exact in every interleaving. */
  lemma {:induction false} ModestRunExact(s: State, steps: seq<Step>)
    requires Exact(s) && Modest(s) && Legal(s, steps) && ModestRun(s, steps)
    ensures NoWraps(s, steps) && Exact(Run(s, steps))
    decreases |steps|
  {
    if steps != [] {
      if steps[0].Exchange? { ModestNeverWraps(s, steps[0]); }
      StepKeeps(s, steps[0]);
      ModestKept(s, steps[0]);
      ModestRunExact(Take(s, steps[0]), steps[1..]);
    }
  }

  /** One pool, nothing allocated, no calls: where every run starts. */
  lemma InitialExact(limit: Option<nat>)
    requires limit.Some? ==> limit.value < WORD
    ensures var s := State([Pool(limit, None)], [0], []); Exact(s) && Counted(s) && Modest(s)
  {
  }

  // ---------------------------------------------------------------- nothing in flight

  /** Pool p is q or below it. */
  predicate Under(pools: seq<Pool>, p: nat, q: nat)
    requires PoolsOk(pools) && p < |pools|
  {
    p == q || (pools[p].parent.Some? && Under(pools, pools[p].parent.value, q))
  }

  lemma {:induction false} UnderIsInChain(pools: seq<Pool>, p: nat, q: nat)
    requires PoolsOk(pools) && p < |pools|
    ensures Under(pools, p, q) <==> q in Chain(pools, p)
  {
    if pools[p].parent.Some? { UnderIsInChain(pools, pools[p].parent.value, q); }
  }

  /** The sizes of the granted calls made in q or below it. */
  function GrantedUnder(pools: seq<Pool>, calls: seq<Call>, q: nat): nat
    requires CallsOk(pools, calls)
  {
    if calls == [] then 0
    else
      var c := calls[|calls| - 1];
      GrantedUnder(pools, calls[..|calls| - 1], q) + if c.pc.Granted? && Under(pools, c.pool, q) then c.size else 0
  }

  /** With every call over, a refused one has left no trace and a granted one is charged to its whole chain. */
  lemma {:induction false} AllOver(pools: seq<Pool>, calls: seq<Call>, q: nat)
    requires CallsOk(pools, calls) && forall i :: 0 <= i < |calls| ==> calls[i].pc.Granted? || calls[i].pc.Refused?
    ensures Total(pools, calls, q) == GrantedUnder(pools, calls, q)
    decreases |calls|
  {
    if calls != [] {
      var c := calls[|calls| - 1];
      UnderIsInChain(pools, c.pool, q);
      var chain := Chain(pools, c.pool);
      assert chain[..|chain|] == chain;
      AllOver(pools, calls[..|calls| - 1], q);
    }
  }

  lemma QuietCounters(s: State, q: nat)
    requires Exact(s) && q < |s.pools| && forall i :: 0 <= i < |s.calls| ==>
               s.calls[i].pc.Granted? || s.calls[i].pc.Refused?
    ensures s.used[q] == GrantedUnder(s.pools, s.calls, q)
    ensures s.pools[q].limit.Some? ==> GrantedUnder(s.pools, s.calls, q) <= s.pools[q].limit.value
  {
    AllOver(s.pools, s.calls, q);
  }

  // ---------------------------------------------------------------- what fits is granted

  /** The steps of call i itself. */
  predicate OwnSteps(steps: seq<Step>, i: nat) {
    forall k :: 0 <= k < |steps| ==> !steps[k].Begin? && !steps[k].NewPool? && steps[k].i == i
  }

  /** Pool q has room for size more bytes. */
  predicate RoomIn(s: State, q: nat, size: nat) {
    q < |s.pools| && q < |s.used| && (s.pools[q].limit.Some? ==> s.used[q] + size <= s.pools[q].limit.value)
  }

  /** Call i is about to start, and no sum on its way wraps. */
  ghost predicate AtStart(s: State, i: nat) {
    && Shaped(s) && (forall q :: 0 <= q < |s.used| ==> s.used[q] < WORD)
    && i < |s.calls| && s.calls[i].pc == Climb(0, None)
    && forall q :: q in Chain(s.pools, s.calls[i].pool) ==> q < |s.used| && s.used[q] + s.calls[i].size < WORD
  }

  /** Where call i is on its own way from s: what it has added so far, and what it has seen of the limits. */
  ghost predicate OnItsWay(s: State, i: nat, now: State)
    requires AtStart(s, i)
  {
    var c, chain := s.calls[i], Chain(s.pools, s.calls[i].pool);
    && Shaped(now) && now.pools == s.pools && |now.calls| == |s.calls| && |now.used| == |s.used|
    && now.calls[i] == c.(pc := now.calls[i].pc)
    && (forall q :: 0 <= q < |s.used| ==> now.used[q] == s.used[q] + Held(s.pools, now.calls[i], q))
    && match now.calls[i].pc
       case Climb(level, seen) =>
         && (forall j :: 0 <= j < level ==> RoomIn(s, chain[j], c.size))
         && (seen.Some? ==> chain[level] < |s.used| && seen.value == s.used[chain[level]])
       case Granted => forall j :: 0 <= j < |chain| ==> RoomIn(s, chain[j], c.size)
       case Back(_) => exists j :: 0 <= j < |chain| && !RoomIn(s, chain[j], c.size)
       case Refused => exists j :: 0 <= j < |chain| && !RoomIn(s, chain[j], c.size)
  }

  /** What a call that has reserved n levels holds in the pool it stands at, or stood at last. */
  lemma HeldAtLevel(pools: seq<Pool>, c: Call, j: nat)
    requires PoolsOk(pools) && CallOk(pools, c) && j < |Chain(pools, c.pool)|
    ensures Held(pools, c, Chain(pools, c.pool)[j]) == if j < Reserved(pools, c) then c.size else 0
  {
    ChainFacts(pools, c.pool);
    var chain := Chain(pools, c.pool);
    if j < Reserved(pools, c) { assert chain[..Reserved(pools, c)][j] == chain[j]; }
  }

  /** Counters stay words on the way. */
  lemma WayBelowWord(s: State, i: nat, now: State)
    requires AtStart(s, i) && OnItsWay(s, i, now)
    ensures forall q :: 0 <= q < |now.used| ==> now.used[q] < WORD
  {
    forall q | 0 <= q < |now.used|
      ensures now.used[q] < WORD
    {
      assert Held(s.pools, now.calls[i], q) > 0 ==> q in Chain(s.pools, s.calls[i].pool);
    }
  }

  lemma LoadOnWay(s: State, i: nat, now: State)
    requires AtStart(s, i) && OnItsWay(s, i, now) && Enabled(now, Load(i))
    ensures OnItsWay(s, i, Take(now, Load(i)))
  {
    WayBelowWord(s, i, now);
    QuietTotals(now, Load(i));
    HeldAtLevel(s.pools, now.calls[i], now.calls[i].pc.level);
  }

  lemma RefuseOnWay(s: State, i: nat, now: State)
    requires AtStart(s, i) && OnItsWay(s, i, now) && Enabled(now, Refuse(i))
    ensures OnItsWay(s, i, Take(now, Refuse(i)))
  {
    var level := now.calls[i].pc.level;
    var q := Chain(s.pools, s.calls[i].pool)[level];
    WayBelowWord(s, i, now);
    QuietTotals(now, Refuse(i));
    ChainFacts(s.pools, s.calls[i].pool);
    assert q in Chain(s.pools, s.calls[i].pool);
    SmallMod(s.used[q] + s.calls[i].size);
    assert !RoomIn(s, q, s.calls[i].size);
  }

  lemma ExchangeOnWay(s: State, i: nat, now: State, spurious: bool)
    requires AtStart(s, i) && OnItsWay(s, i, now) && Enabled(now, Exchange(i, spurious))
    ensures OnItsWay(s, i, Take(now, Exchange(i, spurious)))
  {
    if Succeeds(now, Exchange(i, spurious)) {
      TakenOnWay(s, i, now, spurious);
    } else {
      WayBelowWord(s, i, now);
      HeldAtLevel(s.pools, now.calls[i], now.calls[i].pc.level);
      QuietTotals(now, Exchange(i, spurious));
    }
  }

  lemma TakenOnWay(s: State, i: nat, now: State, spurious: bool)
    requires AtStart(s, i) && OnItsWay(s, i, now) && Enabled(now, Exchange(i, spurious))
    requires Succeeds(now, Exchange(i, spurious))
    ensures OnItsWay(s, i, Take(now, Exchange(i, spurious)))
  {
    RoomSeen(s, i, now, spurious);
    WayBelowWord(s, i, now);
    ExchangeTotals(now, Exchange(i, spurious));
    ExchangeCounters(s, i, now, spurious);
  }

  /** An exchange is tried only where there is room. */
  lemma RoomSeen(s: State, i: nat, now: State, spurious: bool)
    requires AtStart(s, i) && OnItsWay(s, i, now) && Enabled(now, Exchange(i, spurious))
    requires Succeeds(now, Exchange(i, spurious))
    ensures var chain := Chain(s.pools, s.calls[i].pool);
            now.calls[i].pc.level < |chain| && RoomIn(s, chain[now.calls[i].pc.level], s.calls[i].size)
  {
    var c := now.calls[i];
    ChainFacts(s.pools, c.pool);
    HeldAtLevel(s.pools, c, c.pc.level);
    assert Chain(s.pools, c.pool)[c.pc.level] in Chain(s.pools, c.pool);
    SmallMod(s.used[Chain(s.pools, c.pool)[c.pc.level]] + c.size);
  }

  /** One successful exchange adds the size to one pool. */
  lemma ExchangeCounters(s: State, i: nat, now: State, spurious: bool)
    requires AtStart(s, i) && OnItsWay(s, i, now) && Enabled(now, Exchange(i, spurious))
    requires Succeeds(now, Exchange(i, spurious))
    ensures var next := Take(now, Exchange(i, spurious));
            && |next.used| == |s.used| && i < |next.calls|
            && forall r :: 0 <= r < |s.used| ==> next.used[r] == s.used[r] + Held(s.pools, next.calls[i], r)
  {
    var c, level, next := now.calls[i], now.calls[i].pc.level, Take(now, Exchange(i, spurious));
    var q := Chain(s.pools, c.pool)[level];
    ChainFacts(s.pools, c.pool);
    HeldAtLevel(s.pools, c, level);
    assert q in Chain(s.pools, c.pool);
    SmallMod(s.used[q] + c.size);
    forall r | 0 <= r < |s.used|
      ensures next.used[r] == s.used[r] + Held(s.pools, next.calls[i], r)
    {
      HeldLevel(s.pools, c, next.calls[i], r);
    }
  }

  lemma UndoOnWay(s: State, i: nat, now: State)
    requires AtStart(s, i) && OnItsWay(s, i, now) && Enabled(now, Undo(i))
    ensures OnItsWay(s, i, Take(now, Undo(i)))
  {
    WayBelowWord(s, i, now);
    if now.calls[i].pc.level == 0 {
      QuietTotals(now, Undo(i));
    } else {
      UndoTotals(now, i);
      UndoCounters(s, i, now);
    }
  }

  /** One undo takes the size out of one pool again. */
  lemma UndoCounters(s: State, i: nat, now: State)
    requires AtStart(s, i) && OnItsWay(s, i, now) && Enabled(now, Undo(i)) && now.calls[i].pc.level > 0
    requires Shaped(Take(now, Undo(i)))
    ensures forall r :: 0 <= r < |s.used| ==>
              Take(now, Undo(i)).used[r] == s.used[r] + Held(s.pools, Take(now, Undo(i)).calls[i], r)
  {
    var c, level, next := now.calls[i], now.calls[i].pc.level, Take(now, Undo(i));
    ChainFacts(s.pools, c.pool);
    HeldAtLevel(s.pools, c, level - 1);
    var q := Chain(s.pools, c.pool)[level - 1];
    assert q in Chain(s.pools, c.pool);
    SmallMod(now.used[q] - c.size);
    forall r | 0 <= r < |s.used|
      ensures next.used[r] == s.used[r] + Held(s.pools, next.calls[i], r)
    {
      HeldLevel(s.pools, next.calls[i], c, r);
    }
  }

  lemma StepOnWay(s: State, i: nat, now: State, step: Step)
    requires AtStart(s, i) && OnItsWay(s, i, now) && Enabled(now, step)
    requires !step.Begin? && !step.NewPool? && step.i == i
    ensures OnItsWay(s, i, Take(now, step))
  {
    match step
    case Load(_) => LoadOnWay(s, i, now);
    case Refuse(_) => RefuseOnWay(s, i, now);
    case Exchange(_, spurious) => ExchangeOnWay(s, i, now, spurious);
    case Undo(_) => UndoOnWay(s, i, now);
  }

  lemma {:induction false} RunOnWay(s: State, i: nat, now: State, steps: seq<Step>)
    requires AtStart(s, i) && OnItsWay(s, i, now) && Legal(now, steps) && OwnSteps(steps, i)
    ensures OnItsWay(s, i, Run(now, steps))
    decreases |steps|
  {
    if steps != [] {
      StepOnWay(s, i, now, steps[0]);
      RunOnWay(s, i, Take(now, steps[0]), steps[1..]);
    }
  }

  /**
   A call that nobody disturbs, run to its end, is granted if and only if every limited pool up to the root has room
   for it; a refused one leaves every counter as it was, a granted one adds its size along the chain and nowhere else.
   */
  lemma GrantedIffItFits(s: State, i: nat, steps: seq<Step>)
    requires AtStart(s, i) && Legal(s, steps) && OwnSteps(steps, i)
    requires i < |Run(s, steps).calls| && (Run(s, steps).calls[i].pc.Granted? || Run(s, steps).calls[i].pc.Refused?)
    ensures Run(s, steps).calls[i].pc.Granted? <==>
            forall q :: q in Chain(s.pools, s.calls[i].pool) ==> RoomIn(s, q, s.calls[i].size)
    ensures |Run(s, steps).used| == |s.used|
    ensures forall q :: 0 <= q < |s.used| ==>
              Run(s, steps).used[q] == s.used[q] +
                if Run(s, steps).calls[i].pc.Granted? && q in Chain(s.pools, s.calls[i].pool) then s.calls[i].size
                else 0
  {
    RunOnWay(s, i, s, steps);
    var chain := Chain(s.pools, s.calls[i].pool);
    assert chain[..|chain|] == chain;
  }

  predicate Ended(s: State, i: nat) { i < |s.calls| && (s.calls[i].pc.Granted? || s.calls[i].pc.Refused?) }

  lemma StepFirst(s: State, step: Step, steps: seq<Step>, i: nat)
    requires Shaped(s) && Enabled(s, step) && Legal(Take(s, step), steps) && OwnSteps(steps, i)
    requires !step.Begin? && !step.NewPool? && step.i == i
    ensures Legal(s, [step] + steps) && OwnSteps([step] + steps, i)
    ensures Run(s, [step] + steps) == Run(Take(s, step), steps)
  {
    assert ([step] + steps)[1..] == steps;
  }

  lemma {:induction false} UndoEnds(s: State, i: nat, now: State) returns (steps: seq<Step>)
    requires AtStart(s, i) && OnItsWay(s, i, now) && now.calls[i].pc.Back?
    ensures Legal(now, steps) && OwnSteps(steps, i) && Ended(Run(now, steps), i)
    decreases now.calls[i].pc.level
  {
    UndoOnWay(s, i, now);
    var next, rest := Take(now, Undo(i)), [];
    if next.calls[i].pc.Back? { rest := UndoEnds(s, i, next); }
    StepFirst(now, Undo(i), rest, i);
    steps := [Undo(i)] + rest;
  }

  /** Left to itself, a call comes to its end. */
  lemma {:induction false} ClimbEnds(s: State, i: nat, now: State) returns (steps: seq<Step>)
    requires AtStart(s, i) && OnItsWay(s, i, now) && now.calls[i].pc.Climb? && now.calls[i].pc.seen.None?
    ensures Legal(now, steps) && OwnSteps(steps, i) && Ended(Run(now, steps), i)
    decreases |Chain(s.pools, s.calls[i].pool)| - now.calls[i].pc.level
  {
    LoadOnWay(s, i, now);
    var loaded := Take(now, Load(i));
    var step := if Enabled(loaded, Refuse(i)) then Refuse(i) else Exchange(i, false);
    StepOnWay(s, i, loaded, step);
    var next, rest := Take(loaded, step), [];
    if next.calls[i].pc.Back? {
      rest := UndoEnds(s, i, next);
    } else if next.calls[i].pc.Climb? {
      rest := ClimbEnds(s, i, next);
    }
    StepFirst(loaded, step, rest, i);
    StepFirst(now, Load(i), [step] + rest, i);
    steps := [Load(i)] + ([step] + rest);
  }

  /** So what fits is granted, by a run of the call's own steps. */
  lemma WhatFitsIsGranted(s: State, i: nat) returns (steps: seq<Step>)
    requires AtStart(s, i) && forall q :: q in Chain(s.pools, s.calls[i].pool) ==> RoomIn(s, q, s.calls[i].size)
    ensures Legal(s, steps) && OwnSteps(steps, i) && i < |Run(s, steps).calls| && Run(s, steps).calls[i].pc.Granted?
  {
    steps := ClimbEnds(s, i, s);
    GrantedIffItFits(s, i, steps);
  }

  /** What the call has loaded and its size together exceed the limit of the pool it stands at. */
  predicate OverLimit(s: State, i: nat)
    requires Shaped(s)
  {
    && i < |s.calls| && s.calls[i].pc.Climb? && s.calls[i].pc.seen.Some?
    && s.pools[Here(s, i)].limit.Some?
    && s.calls[i].pc.seen.value + s.calls[i].size > s.pools[Here(s, i)].limit.value
  }

  predicate TurnedDown(s: State, i: nat) { i < |s.calls| && (s.calls[i].pc.Back? || s.calls[i].pc.Refused?) }

  lemma RefusalIsOver(s: State, step: Step, i: nat)
    requires Shaped(s) && Enabled(s, step) && i < |s.calls| && !TurnedDown(s, i) && TurnedDown(Take(s, step), i)
    ensures step == Refuse(i) && OverLimit(s, i)
  {
    if step.Refuse? {
      ModBelow(s.calls[step.i].pc.seen.value + s.calls[step.i].size);
    }
  }

  lemma ModBelow(a: nat)
    ensures a % WORD <= a
  {
  }

  /** In every interleaving a call is turned down only at a pool whose limit its size and what it had loaded exceed. */
  lemma {:induction false} RefusedOnlyOver(s: State, steps: seq<Step>, i: nat) returns (n: nat)
    requires Legal(s, steps) && i < |s.calls| && !TurnedDown(s, i) && TurnedDown(Run(s, steps), i)
    ensures n < |steps| && steps[n] == Refuse(i) && Legal(s, steps[..n])
    ensures Shaped(Run(s, steps[..n])) && OverLimit(Run(s, steps[..n]), i)
    decreases |steps|
  {
    var next := Take(s, steps[0]);
    if TurnedDown(next, i) {
      RefusalIsOver(s, steps[0], i);
      n := 0;
    } else {
      var m := RefusedOnlyOver(next, steps[1..], i);
      n := m + 1;
      assert steps[..n][1..] == steps[1..][..m];
    }
  }
}
