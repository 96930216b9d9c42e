/**
 The counting semaphore as a transition system. `signals` and `completed` are history: how many
 signals have added to the counter and how many waits have returned.
 */
module SemaphoreProtocol {
  import opened ThreadSets

  datatype Pc =
    | Idle
    // wait()
    | Load                // load counter
    | Cas(cur: int)       // compare_exchange_weak(cur, cur - 1), cur > 0
    | LockQueue           // lock the wait queue
    | Recheck             // under the lock: load counter
    | Push                // under the lock, nothing available: push self and unlock
    | Unlock(cur: int)    // under the lock, cur > 0 seen: unlock
    | Asleep
    | Popped
    // signal()
    | Add                 // counter += 1
    | SignalPop           // pop the wait queue
    | SignalWake(who: Tid)

  datatype State = State(
    pc: map<Tid, Pc>, counter: int, queue: seq<Tid>, queueLock: Lock, initial: int, signals: nat, completed: nat)

  function Initial(threads: set<Tid>, count: int): State {
    State(map t | t in threads :: Idle, count, [], Free, count, 0, 0)
  }

  const ISIZE_MAX: int := 0x7fff_ffff_ffff_ffff

  /** isize fetch_add(1), which wraps. */
  function FetchAddOne(c: int): int {
    if c == ISIZE_MAX then -ISIZE_MAX - 1 else c + 1
  }

  /** The one step on which the counter wraps. */
  predicate Overflows(s: State, t: Tid) {
    t in s.pc && s.pc[t].Add? && s.counter == ISIZE_MAX
  }

  predicate Enabled(s: State, t: Tid) {
    t in s.pc &&
    match s.pc[t]
    case LockQueue => s.queueLock.Free?
    case SignalPop => s.queueLock.Free?
    case Asleep => false
    case Popped => false
    case _ => true
  }

  predicate Local(p: Pc) {
    !(p.SignalPop? || p.SignalWake? || p.Asleep? || p.Popped?)
  }

  /** The top of the wait loop with a freshly seen counter. */
  function Decide(c: int): Pc {
    if c > 0 then Cas(c) else LockQueue
  }

  /** `choice` picks wait or signal for an idle thread and lets a weak compare-exchange fail for no reason. */
  function LocalPc(s: State, p: Pc, choice: bool): Pc
    requires Local(p)
  {
    match p
    case Idle => if choice then Load else Add
    case Load => Decide(s.counter)
    case Cas(cur) => if s.counter == cur && choice then Idle else Decide(s.counter)
    case LockQueue => Recheck
    case Recheck => if s.counter > 0 then Unlock(s.counter) else Push
    case Push => Asleep
    case Unlock(cur) => Decide(cur)
    case Add => SignalPop
  }

  predicate Acquires(s: State, p: Pc, choice: bool) {
    p.Cas? && s.counter == p.cur && choice
  }

  function LocalStep(s: State, t: Tid, choice: bool): State
    requires t in s.pc && Local(s.pc[t])
  {
    var p := s.pc[t];
    State(
      s.pc[t := LocalPc(s, p, choice)],
      if Acquires(s, p, choice) then s.counter - 1 else if p.Add? then FetchAddOne(s.counter) else s.counter,
      if p.Push? then s.queue + [t] else s.queue,
      if p.LockQueue? then Held(t) else if p.Push? || p.Unlock? then Free else s.queueLock,
      s.initial,
      if p.Add? then s.signals + 1 else s.signals,
      if Acquires(s, p, choice) then s.completed + 1 else s.completed)
  }

  function PopStep(s: State, t: Tid): State {
    if s.queue == [] then s.(pc := s.pc[t := Idle])
    else s.(pc := s.pc[t := SignalWake(s.queue[0])][s.queue[0] := Popped], queue := s.queue[1..])
  }

  function Next(s: State, t: Tid, choice: bool): State
    requires Enabled(s, t)
  {
    var p := s.pc[t];
    if p.SignalPop? then PopStep(s, t)
    else if p.SignalWake? then s.(pc := s.pc[t := Idle][p.who := Load])
    else LocalStep(s, t, choice)
  }

  // ---------------------------------------------------------------- invariant

  predicate Sleeping(p: Pc) { p.Asleep? }
  predicate Pushing(p: Pc) { p.Push? }
  predicate IsPopped(p: Pc) { p.Popped? }
  predicate HoldsQueue(p: Pc) { p.Recheck? || p.Push? || p.Unlock? }
  predicate BadCas(p: Pc) { (p.Cas? || p.Unlock?) && p.cur <= 0 }
  predicate Wakes(p: Pc, w: Tid) { p.SignalWake? && p.who == w }

  /** A signaller that has added but not popped, or a waiter awake and not falling asleep. */
  predicate Answering(p: Pc) {
    p.SignalPop? || p.Load? || p.Cas? || p.LockQueue? || p.Recheck? || p.Unlock? || p.Popped?
  }

  ghost predicate CountOk(s: State) {
    && s.counter + s.completed == s.initial + s.signals
    && s.counter >= (if s.initial < 0 then s.initial else 0)
    && Where(s.pc, BadCas) == {}
  }

  /** While anyone sleeps or is falling asleep, each available unit has a pending signaller or an awake waiter. */
  ghost predicate Watched(s: State) {
    s.queue != [] || Where(s.pc, Pushing) != {} ==> s.counter <= |Where(s.pc, Answering)|
  }

  ghost predicate Inv(s: State) {
    && CountOk(s)
    && QueueOf(s.queue, Where(s.pc, Sleeping))
    && Where(s.pc, HoldsQueue) == Owners(s.queueLock)
    && WakersOk(s.pc, Wakes, IsPopped)
    && Watched(s)
  }

  // ---------------------------------------------------------------- preservation

  lemma LocalCount(s: State, t: Tid, choice: bool)
    requires t in s.pc && Local(s.pc[t]) && CountOk(s) && !Overflows(s, t)
    ensures CountOk(LocalStep(s, t, choice))
  {
    WhereAfter(s.pc, t, LocalPc(s, s.pc[t], choice), BadCas);
    assert t !in Where(s.pc, BadCas);
  }

  lemma LocalQueue(s: State, t: Tid, choice: bool)
    requires t in s.pc && Local(s.pc[t]) && QueueOf(s.queue, Where(s.pc, Sleeping))
    ensures QueueOf(LocalStep(s, t, choice).queue, Where(LocalStep(s, t, choice).pc, Sleeping))
  {
    var q := LocalPc(s, s.pc[t], choice);
    WhereAfter(s.pc, t, q, Sleeping);
    assert t !in Where(s.pc, Sleeping);
    if s.pc[t].Push? { QueuePush(s.queue, Where(s.pc, Sleeping), t); } else { CalmClass(s.pc, t, q, Sleeping); }
  }

  /**
   A unit appears with a signaller yet to pop, goes with the waiter that took it, and nobody falls asleep over one.
   */
  lemma AnswerFacts(s: State, p: Pc, choice: bool, c: int)
    requires Local(p) && !BadCas(p) && (p.Add? ==> s.counter != ISIZE_MAX)
    requires c == if Acquires(s, p, choice) then s.counter - 1 else if p.Add? then FetchAddOne(s.counter) else s.counter
    ensures var q := LocalPc(s, p, choice);
            && (Answering(p) && !Answering(q) ==> c <= s.counter - 1 || c <= 0)
            && (c > s.counter ==> c == s.counter + 1 && !Answering(p) && Answering(q))
            && (q.Push? ==> c <= 0)
  {
  }

  lemma WatchedMove(s: State, n: State, t: Tid, p: Pc, q: Pc)
    requires t in s.pc && s.pc[t] == p && n.pc == s.pc[t := q] && Watched(s)
    requires Answering(p) && !Answering(q) ==> n.counter <= s.counter - 1 || n.counter <= 0
    requires n.counter > s.counter ==> n.counter == s.counter + 1 && !Answering(p) && Answering(q)
    requires q.Push? ==> n.counter <= 0
    requires n.queue == s.queue || p.Push?
    ensures Watched(n)
  {
    WhereAfter(s.pc, t, q, Pushing);
    WhereAfter(s.pc, t, q, Answering);
    assert t in Where(s.pc, Pushing) <==> p.Push?;
    assert t in Where(s.pc, Answering) <==> Answering(p);
    if Answering(p) == Answering(q) { CalmClass(s.pc, t, q, Answering); }
  }

  lemma LocalWatched(s: State, t: Tid, choice: bool)
    requires t in s.pc && Local(s.pc[t]) && Watched(s) && CountOk(s) && !Overflows(s, t)
    ensures Watched(LocalStep(s, t, choice))
  {
    assert t !in Where(s.pc, BadCas);
    AnswerFacts(s, s.pc[t], choice, LocalStep(s, t, choice).counter);
    WatchedMove(s, LocalStep(s, t, choice), t, s.pc[t], LocalPc(s, s.pc[t], choice));
  }

  lemma LocalKept(s: State, t: Tid, choice: bool)
    requires Inv(s) && Enabled(s, t) && Local(s.pc[t]) && !Overflows(s, t)
    ensures Inv(LocalStep(s, t, choice))
  {
    LocalCount(s, t, choice);
    LocalQueue(s, t, choice);
    LockMove(s.pc, t, LocalPc(s, s.pc[t], choice), HoldsQueue, s.queueLock, LocalStep(s, t, choice).queueLock);
    WakersCalm(s.pc, t, LocalPc(s, s.pc[t], choice), Wakes, IsPopped);
    LocalWatched(s, t, choice);
  }

  lemma EmptyPopKept(s: State, t: Tid)
    requires Inv(s) && Enabled(s, t) && s.pc[t].SignalPop? && s.queue == []
    ensures Inv(PopStep(s, t))
  {
    CalmClass(s.pc, t, Idle, BadCas);
    CalmClass(s.pc, t, Idle, Sleeping);
    CalmClass(s.pc, t, Idle, Pushing);
    LockMove(s.pc, t, Idle, HoldsQueue, s.queueLock, s.queueLock);
    WakersCalm(s.pc, t, Idle, Wakes, IsPopped);
    assert Where(s.pc, Pushing) <= Where(s.pc, HoldsQueue);
  }

  lemma PopKept(s: State, t: Tid)
    requires Inv(s) && Enabled(s, t) && s.pc[t].SignalPop? && s.queue != []
    ensures Inv(PopStep(s, t))
  {
    var w, p := s.queue[0], SignalWake(s.queue[0]);
    PopQueue(s, t, w);
    WhereAfter2(s.pc, t, p, w, Popped, BadCas);
    WhereAfter2(s.pc, t, p, w, Popped, HoldsQueue);
    WakersPop(s.pc, t, p, w, Popped, Wakes, IsPopped);
    PopAnswers(s.pc, t, w);
  }

  lemma PopQueue(s: State, t: Tid, w: Tid)
    requires QueueOf(s.queue, Where(s.pc, Sleeping)) && s.queue != [] && w == s.queue[0]
    requires t in s.pc && s.pc[t].SignalPop?
    ensures w in s.pc && s.pc[w].Asleep? && w != t
    ensures QueueOf(s.queue[1..], Where(s.pc[t := SignalWake(w)][w := Popped], Sleeping))
  {
    QueuePop(s.queue, Where(s.pc, Sleeping));
    assert w in Where(s.pc, Sleeping);
    WhereAfter2(s.pc, t, SignalWake(w), w, Popped, Sleeping);
    assert Where(s.pc[t := SignalWake(w)][w := Popped], Sleeping) == Where(s.pc, Sleeping) - {w};
  }

  /** The popped waiter takes over from the signaller, one for one. */
  lemma PopAnswers(pc: map<Tid, Pc>, t: Tid, w: Tid)
    requires t in pc && pc[t].SignalPop? && w in pc && pc[w].Asleep?
    ensures |Where(pc[t := SignalWake(w)][w := Popped], Answering)| == |Where(pc, Answering)|
  {
    WhereAfter2(pc, t, SignalWake(w), w, Popped, Answering);
    assert t in Where(pc, Answering) && w !in Where(pc, Answering);
    assert Where(pc[t := SignalWake(w)][w := Popped], Answering) == Where(pc, Answering) - {t} + {w};
  }

  lemma WakeKept(s: State, t: Tid, w: Tid)
    requires Inv(s) && t in s.pc && Wakes(s.pc[t], w)
    ensures Inv(s.(pc := s.pc[t := Idle][w := Load]))
  {
    assert w in Where(s.pc, IsPopped);
    WhereAfter2(s.pc, t, Idle, w, Load, BadCas);
    WhereAfter2(s.pc, t, Idle, w, Load, Sleeping);
    WhereAfter2(s.pc, t, Idle, w, Load, HoldsQueue);
    WhereAfter2(s.pc, t, Idle, w, Load, Pushing);
    WhereAfter2(s.pc, t, Idle, w, Load, Answering);
    WakersWake(s.pc, t, Idle, w, Load, Wakes, IsPopped);
  }

  /** Every step keeps the invariant, except the one on which the counter wraps. */
  lemma StepKept(s: State, t: Tid, choice: bool)
    requires Inv(s) && Enabled(s, t)
    ensures Inv(Next(s, t, choice)) <==> !Overflows(s, t)
    ensures Next(s, t, choice).initial == s.initial
    ensures Next(s, t, choice).signals == s.signals + if s.pc[t].Add? then 1 else 0
  {
    if s.pc[t].SignalPop? {
      if s.queue == [] { EmptyPopKept(s, t); } else { PopKept(s, t); }
    } else if s.pc[t].SignalWake? {
      WakeKept(s, t, s.pc[t].who);
    } else if !Overflows(s, t) {
      LocalKept(s, t, choice);
    }
  }

  // ---------------------------------------------------------------- whole runs

  ghost predicate Feasible(s: State, schedule: seq<(Tid, bool)>)
    decreases |schedule|
  {
    schedule == [] || (Enabled(s, schedule[0].0) && Feasible(Next(s, schedule[0].0, schedule[0].1), schedule[1..]))
  }

  ghost function Run(s: State, schedule: seq<(Tid, bool)>): State
    requires Feasible(s, schedule)
    decreases |schedule|
  {
    if schedule == [] then s else Run(Next(s, schedule[0].0, schedule[0].1), schedule[1..])
  }

  /** No step of the run wraps the counter. */
  ghost predicate NeverOverflows(s: State, schedule: seq<(Tid, bool)>)
    requires Feasible(s, schedule)
    decreases |schedule|
  {
    schedule == [] ||
    (!Overflows(s, schedule[0].0) && NeverOverflows(Next(s, schedule[0].0, schedule[0].1), schedule[1..]))
  }

  /** How often the run signals. */
  ghost function SignalsIn(s: State, schedule: seq<(Tid, bool)>): nat
    requires Feasible(s, schedule)
    decreases |schedule|
  {
    if schedule == [] then 0
    else
      (if s.pc[schedule[0].0].Add? then 1 else 0) +
      SignalsIn(Next(s, schedule[0].0, schedule[0].1), schedule[1..])
  }

  /** However long a run, it does not wrap the counter if count and signals together fit the word. */
  lemma {:induction false} FewSignalsFit(s: State, schedule: seq<(Tid, bool)>)
    requires Inv(s) && Feasible(s, schedule) && s.initial + s.signals + SignalsIn(s, schedule) <= ISIZE_MAX
    ensures NeverOverflows(s, schedule)
    decreases |schedule|
  {
    if schedule != [] {
      StepKept(s, schedule[0].0, schedule[0].1);
      FewSignalsFit(Next(s, schedule[0].0, schedule[0].1), schedule[1..]);
    }
  }

  lemma {:induction false} RunInv(s: State, schedule: seq<(Tid, bool)>)
    requires Inv(s) && Feasible(s, schedule) && NeverOverflows(s, schedule)
    ensures Inv(Run(s, schedule)) && Run(s, schedule).initial == s.initial
    decreases |schedule|
  {
    if schedule != [] {
      StepKept(s, schedule[0].0, schedule[0].1);
      RunInv(Next(s, schedule[0].0, schedule[0].1), schedule[1..]);
    }
  }

  lemma InitialInv(threads: set<Tid>, count: int)
    ensures Inv(Initial(threads, count))
  {
    assert Where(Initial(threads, count).pc, BadCas) == {};
  }

  lemma FromStart(threads: set<Tid>, count: int, schedule: seq<(Tid, bool)>)
    requires Feasible(Initial(threads, count), schedule) && NeverOverflows(Initial(threads, count), schedule)
    ensures Inv(Run(Initial(threads, count), schedule)) && Run(Initial(threads, count), schedule).initial == count
  {
    InitialInv(threads, count);
    RunInv(Initial(threads, count), schedule);
  }

  /** A full counter and one signal: the counter is the lowest number there is. */
  lemma CounterWraps(t: Tid)
    ensures var s, schedule := Initial({t}, ISIZE_MAX), [(t, false), (t, false)];
            Feasible(s, schedule) && !NeverOverflows(s, schedule) && Run(s, schedule).counter == -ISIZE_MAX - 1
  {
    var s: State, schedule: seq<(Tid, bool)> := Initial({t}, ISIZE_MAX), [(t, false), (t, false)];
    var s1 := Next(s, t, false);
    var s2 := Next(s1, t, false);
    var rest: seq<(Tid, bool)> := [(t, false)];
    assert schedule[1..] == rest && rest[1..] == [];
    assert Feasible(s2, rest[1..]) && Feasible(s1, rest) && Run(s1, rest) == s2;
  }

  /** Units are conserved: what is left plus what waits took is what was there plus what signals added; and a
      semaphore that starts non-negative never goes negative. */
  lemma Conservation(threads: set<Tid>, count: int, schedule: seq<(Tid, bool)>)
    requires Feasible(Initial(threads, count), schedule) && NeverOverflows(Initial(threads, count), schedule)
    ensures var s := Run(Initial(threads, count), schedule);
            && s.counter + s.completed == count + s.signals
            && (count >= 0 ==> s.counter >= 0)
  {
    FromStart(threads, count, schedule);
  }

  predicate AtRest(p: Pc) { p.Idle? || p.Asleep? || p.Popped? }

  /** When everyone is idle or asleep and someone is asleep, there really is nothing to take. */
  lemma NobodyStranded(threads: set<Tid>, count: int, schedule: seq<(Tid, bool)>)
    requires Feasible(Initial(threads, count), schedule) && NeverOverflows(Initial(threads, count), schedule)
    ensures var s := Run(Initial(threads, count), schedule);
            (forall t :: t in s.pc ==> AtRest(s.pc[t])) ==>
              (s.counter > 0 ==> s.queue == []) && forall t :: t in s.pc ==> !s.pc[t].Popped?
  {
    FromStart(threads, count, schedule);
    var s := Run(Initial(threads, count), schedule);
    if forall t :: t in s.pc ==> AtRest(s.pc[t]) {
      NoWakerNoPopped(s.pc, Wakes, IsPopped);
      assert Where(s.pc, Answering) == {} by { assert Where(s.pc, Answering) <= Where(s.pc, IsPopped); }
      forall t | t in s.pc ensures !s.pc[t].Popped? { assert t !in Where(s.pc, IsPopped); }
    }
  }

  /** While waiters sleep, the units available never outnumber the signallers yet to pop plus the waiters awake. */
  lemma UnitsAnswered(threads: set<Tid>, count: int, schedule: seq<(Tid, bool)>)
    requires Feasible(Initial(threads, count), schedule) && NeverOverflows(Initial(threads, count), schedule)
    ensures var s := Run(Initial(threads, count), schedule);
            s.queue != [] ==> s.counter <= |Where(s.pc, Answering)|
  {
    FromStart(threads, count, schedule);
  }

  // ---------------------------------------------------------------- what calls do

  predicate InWait(p: Pc) {
    p.Load? || p.Cas? || p.LockQueue? || p.Recheck? || p.Push? || p.Unlock? || p.Asleep? || p.Popped?
  }

  /** Whoever steps, a thread in `wait` stays in it until its own step takes a unit. */
  lemma WaitEndsWithUnit(s: State, u: Tid, choice: bool, t: Tid)
    requires Inv(s) && Enabled(s, u) && t in s.pc && InWait(s.pc[t])
    ensures var n := Next(s, u, choice);
            && t in n.pc
            && (InWait(n.pc[t]) ||
                (u == t && n.pc[t].Idle? && n.counter == s.counter - 1 && n.completed == s.completed + 1 &&
                 s.counter > 0))
  {
    if s.pc[u].SignalWake? {
      assert s.pc[u].who in Where(s.pc, IsPopped);
    } else if s.pc[u].SignalPop? && s.queue != [] {
      assert s.queue[0] in Where(s.pc, Sleeping);
    } else if u == t && s.pc[t].Cas? {
      assert t !in Where(s.pc, BadCas);
    }
  }

  /** Thread t takes n steps, and every compare-exchange that can succeed does. */
  function Alone(t: Tid, n: nat): seq<(Tid, bool)> {
    if n == 0 then [] else [(t, true)] + Alone(t, n - 1)
  }

  lemma FirstStep(s: State, t: Tid, choice: bool, rest: seq<(Tid, bool)>)
    requires Enabled(s, t) && Feasible(Next(s, t, choice), rest)
    ensures Feasible(s, [(t, choice)] + rest) && Run(s, [(t, choice)] + rest) == Run(Next(s, t, choice), rest)
  {
    assert ([(t, choice)] + rest)[1..] == rest;
  }

  lemma OneStep(s: State, t: Tid, n: nat)
    requires n > 0 && Enabled(s, t) && Feasible(Next(s, t, true), Alone(t, n - 1))
    ensures Feasible(s, Alone(t, n)) && Run(s, Alone(t, n)) == Run(Next(s, t, true), Alone(t, n - 1))
  {
    FirstStep(s, t, true, Alone(t, n - 1));
  }

  /** With a unit there, a waiter takes it and goes on, */
  lemma UnitIsTaken(s: State, t: Tid)
    requires t in s.pc && s.pc[t].Idle? && s.counter > 0
    ensures Feasible(s, Alone(t, 3))
    ensures Run(s, Alone(t, 3)) ==
            s.(pc := s.pc[t := Idle], counter := s.counter - 1, completed := s.completed + 1)
  {
    var s1 := Next(s, t, true);
    var s2 := Next(s1, t, true);
    assert s1.pc[t] == Load && s2.pc[t] == Cas(s.counter);
    assert Next(s2, t, true).pc == s.pc[t := Idle];
    OneStep(s2, t, 1);
    OneStep(s1, t, 2);
    OneStep(s, t, 3);
  }

  /** without one it goes to sleep at the end of the queue, */
  lemma NoUnitMeansSleep(s: State, t: Tid)
    requires t in s.pc && s.pc[t].Idle? && s.counter <= 0 && s.queueLock.Free?
    ensures Feasible(s, Alone(t, 5))
    ensures Run(s, Alone(t, 5)) == s.(pc := s.pc[t := Asleep], queue := s.queue + [t])
  {
    var s1 := Next(s, t, true);
    var s2 := Next(s1, t, true);
    var s3 := Next(s2, t, true);
    var s4 := Next(s3, t, true);
    assert s1.pc[t] == Load && s2.pc[t] == LockQueue && s3.pc[t] == Recheck && s4.pc[t] == Push;
    assert Next(s4, t, true).pc == s.pc[t := Asleep];
    OneStep(s4, t, 1);
    OneStep(s3, t, 2);
    OneStep(s2, t, 3);
    OneStep(s1, t, 4);
    OneStep(s, t, 5);
  }

  /** and a signal adds one and wakes the waiter that has slept longest, back to trying. */
  lemma SignalWakesFirst(s: State, t: Tid, w: Tid)
    requires t in s.pc && s.pc[t].Idle? && s.counter < ISIZE_MAX && s.queueLock.Free?
    requires s.queue != [] && s.queue[0] == w != t
    ensures Feasible(s, [(t, false)] + Alone(t, 3))
    ensures Run(s, [(t, false)] + Alone(t, 3)) ==
            s.(pc := s.pc[t := Idle][w := Load], counter := s.counter + 1, signals := s.signals + 1,
               queue := s.queue[1..])
  {
    var s1 := Next(s, t, false);
    var s2 := Next(s1, t, true);
    var s3 := Next(s2, t, true);
    assert s1.pc[t] == Add && s2.pc[t] == SignalPop && s3.pc[t] == SignalWake(w);
    assert Next(s3, t, true).pc == s.pc[t := Idle][w := Load];
    OneStep(s3, t, 1);
    OneStep(s2, t, 2);
    OneStep(s1, t, 3);
    FirstStep(s, t, false, Alone(t, 3));
  }
}
