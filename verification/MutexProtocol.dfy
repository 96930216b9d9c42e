/** The blocking mutex as a transition system, at the same grain as the reader-writer lock. */
module MutexProtocol {
  import opened ThreadSets

  datatype Pc =
    | Idle
    | Swap            // is_locked.swap(true)
    | LockQueue       // lock the wait queue
    | Recheck         // under the lock: load is_locked
    | Push            // under the lock, still locked: push self and unlock
    | Unlock          // under the lock, seen free: unlock
    | Asleep
    | Popped
    | Hold
    | UnlockPop       // is_locked stored false: pop the wait queue
    | UnlockWake(who: Tid)

  datatype State = State(pc: map<Tid, Pc>, locked: bool, queue: seq<Tid>, queueLock: Lock)

  function Initial(threads: set<Tid>): State {
    State(map t | t in threads :: Idle, false, [], Free)
  }

  predicate Enabled(s: State, t: Tid) {
    t in s.pc &&
    match s.pc[t]
    case LockQueue => s.queueLock.Free?
    case UnlockPop => s.queueLock.Free?
    case Asleep => false
    case Popped => false
    case _ => true
  }

  predicate Local(p: Pc) {
    !(p.UnlockPop? || p.UnlockWake? || p.Asleep? || p.Popped?)
  }

  function LocalPc(s: State, p: Pc): Pc
    requires Local(p)
  {
    match p
    case Idle => Swap
    case Swap => if s.locked then LockQueue else Hold
    case LockQueue => Recheck
    case Recheck => if s.locked then Push else Unlock
    case Push => Asleep
    case Unlock => Swap
    case Hold => UnlockPop
  }

  function LocalStep(s: State, t: Tid): State
    requires t in s.pc && Local(s.pc[t])
  {
    var p := s.pc[t];
    State(
      s.pc[t := LocalPc(s, p)],
      if p.Swap? then true else if p.Hold? then false else s.locked,
      if p.Push? then s.queue + [t] else s.queue,
      if p.LockQueue? then Held(t) else if p.Push? || p.Unlock? then Free else s.queueLock)
  }

  function PopStep(s: State, t: Tid): State {
    if s.queue == [] then s.(pc := s.pc[t := Idle])
    else s.(pc := s.pc[t := UnlockWake(s.queue[0])][s.queue[0] := Popped], queue := s.queue[1..])
  }

  function Next(s: State, t: Tid): State
    requires Enabled(s, t)
  {
    var p := s.pc[t];
    if p.UnlockPop? then PopStep(s, t)
    else if p.UnlockWake? then s.(pc := s.pc[t := Idle][p.who := Swap])
    else LocalStep(s, t)
  }

  // ---------------------------------------------------------------- invariant

  predicate Holding(p: Pc) { p.Hold? }
  predicate Sleeping(p: Pc) { p.Asleep? }
  predicate Pushing(p: Pc) { p.Push? }
  predicate IsPopped(p: Pc) { p.Popped? }
  predicate HoldsQueue(p: Pc) { p.Recheck? || p.Push? || p.Unlock? }
  predicate Wakes(p: Pc, w: Tid) { p.UnlockWake? && p.who == w }

  /** An unlocker between its store and its pop, or a waiter awake and not falling asleep. */
  predicate Hope(p: Pc) { p.UnlockPop? || p.Swap? || p.LockQueue? || p.Recheck? || p.Unlock? || p.Popped? }

  /** The flag is set exactly while one thread holds the mutex. */
  ghost predicate FlagOk(s: State) {
    if s.locked then |Where(s.pc, Holding)| == 1 else Where(s.pc, Holding) == {}
  }

  ghost predicate Watched(s: State) {
    s.queue != [] || Where(s.pc, Pushing) != {} ==> s.locked || Where(s.pc, Hope) != {}
  }

  ghost predicate Inv(s: State) {
    && FlagOk(s)
    && QueueOf(s.queue, Where(s.pc, Sleeping))
    && Where(s.pc, HoldsQueue) == Owners(s.queueLock)
    && WakersOk(s.pc, Wakes, IsPopped)
    && Watched(s)
  }

  // ---------------------------------------------------------------- preservation

  lemma LocalFlag(s: State, t: Tid)
    requires t in s.pc && Local(s.pc[t]) && FlagOk(s)
    ensures FlagOk(LocalStep(s, t))
  {
    var p := s.pc[t];
    WhereAfter(s.pc, t, LocalPc(s, p), Holding);
    assert t in Where(s.pc, Holding) <==> p.Hold?;
    if p.Hold? {
      Singleton(Where(s.pc, Holding), t);
    } else if !(p.Swap? && !s.locked) {
      CalmClass(s.pc, t, LocalPc(s, p), Holding);
    }
  }

  lemma LocalQueue(s: State, t: Tid)
    requires t in s.pc && Local(s.pc[t]) && QueueOf(s.queue, Where(s.pc, Sleeping))
    ensures QueueOf(LocalStep(s, t).queue, Where(LocalStep(s, t).pc, Sleeping))
  {
    var q := LocalPc(s, s.pc[t]);
    WhereAfter(s.pc, t, q, Sleeping);
    assert t !in Where(s.pc, Sleeping);
    if s.pc[t].Push? { QueuePush(s.queue, Where(s.pc, Sleeping), t); } else { CalmClass(s.pc, t, q, Sleeping); }
  }

  lemma LocalWatched(s: State, t: Tid)
    requires t in s.pc && Local(s.pc[t]) && Watched(s)
    ensures Watched(LocalStep(s, t))
  {
    var p, q := s.pc[t], LocalPc(s, s.pc[t]);
    WhereAfter(s.pc, t, q, Pushing);
    WhereAfter(s.pc, t, q, Hope);
    assert t in Where(s.pc, Pushing) <==> p.Push?;
    assert t in Where(s.pc, Hope) <==> Hope(p);
  }

  lemma LocalKept(s: State, t: Tid)
    requires Inv(s) && Enabled(s, t) && Local(s.pc[t])
    ensures Inv(LocalStep(s, t))
  {
    LocalFlag(s, t);
    LocalQueue(s, t);
    LockMove(s.pc, t, LocalPc(s, s.pc[t]), HoldsQueue, s.queueLock, LocalStep(s, t).queueLock);
    WakersCalm(s.pc, t, LocalPc(s, s.pc[t]), Wakes, IsPopped);
    LocalWatched(s, t);
  }

  lemma PopKept(s: State, t: Tid)
    requires Inv(s) && Enabled(s, t) && s.pc[t].UnlockPop?
    ensures Inv(PopStep(s, t))
  {
    if s.queue == [] {
      CalmClass(s.pc, t, Idle, Holding);
      CalmClass(s.pc, t, Idle, Sleeping);
      CalmClass(s.pc, t, Idle, Pushing);
      LockMove(s.pc, t, Idle, HoldsQueue, s.queueLock, s.queueLock);
      WakersCalm(s.pc, t, Idle, Wakes, IsPopped);
      assert Where(s.pc, Pushing) <= Where(s.pc, HoldsQueue);
    } else {
      var w, p := s.queue[0], UnlockWake(s.queue[0]);
      QueuePop(s.queue, Where(s.pc, Sleeping));
      assert s.pc[w].Asleep?;
      var n := PopStep(s, t);
      WhereAfter2(s.pc, t, p, w, Popped, Holding);
      WhereAfter2(s.pc, t, p, w, Popped, Sleeping);
      assert Where(n.pc, Sleeping) == Where(s.pc, Sleeping) - {w};
      WhereAfter2(s.pc, t, p, w, Popped, HoldsQueue);
      WakersPop(s.pc, t, p, w, Popped, Wakes, IsPopped);
      assert w in Where(n.pc, Hope);
    }
  }

  lemma WakeKept(s: State, t: Tid, w: Tid)
    requires Inv(s) && t in s.pc && Wakes(s.pc[t], w)
    ensures Inv(s.(pc := s.pc[t := Idle][w := Swap]))
  {
    assert w in Where(s.pc, IsPopped);
    WhereAfter2(s.pc, t, Idle, w, Swap, Holding);
    WhereAfter2(s.pc, t, Idle, w, Swap, Sleeping);
    WhereAfter2(s.pc, t, Idle, w, Swap, HoldsQueue);
    WakersWake(s.pc, t, Idle, w, Swap, Wakes, IsPopped);
    assert w in Where(s.pc[t := Idle][w := Swap], Hope);
  }

  lemma StepKept(s: State, t: Tid)
    requires Inv(s) && Enabled(s, t)
    ensures Inv(Next(s, t))
  {
    if s.pc[t].UnlockPop? {
      PopKept(s, t);
    } else if s.pc[t].UnlockWake? {
      WakeKept(s, t, s.pc[t].who);
    } else {
      LocalKept(s, t);
    }
  }

  // ---------------------------------------------------------------- whole runs

  ghost predicate Feasible(s: State, schedule: seq<Tid>)
    decreases |schedule|
  {
    schedule == [] || (Enabled(s, schedule[0]) && Feasible(Next(s, schedule[0]), schedule[1..]))
  }

  ghost function Run(s: State, schedule: seq<Tid>): State
    requires Feasible(s, schedule)
    decreases |schedule|
  {
    if schedule == [] then s else Run(Next(s, schedule[0]), schedule[1..])
  }

  lemma {:induction false} RunInv(s: State, schedule: seq<Tid>)
    requires Inv(s) && Feasible(s, schedule)
    ensures Inv(Run(s, schedule))
    decreases |schedule|
  {
    if schedule != [] {
      StepKept(s, schedule[0]);
      RunInv(Next(s, schedule[0]), schedule[1..]);
    }
  }

  lemma FromStart(threads: set<Tid>, schedule: seq<Tid>)
    requires Feasible(Initial(threads), schedule)
    ensures Inv(Run(Initial(threads), schedule))
  {
    assert Where(Initial(threads).pc, Holding) == {};
    RunInv(Initial(threads), schedule);
  }

  predicate AtRest(p: Pc) { p.Idle? || p.Asleep? || p.Popped? }

  /** At most one holder ever, and the flag says whether there is one. */
  lemma MutualExclusion(threads: set<Tid>, schedule: seq<Tid>)
    requires Feasible(Initial(threads), schedule)
    ensures var s := Run(Initial(threads), schedule);
            |Where(s.pc, Holding)| == if s.locked then 1 else 0
  {
    FromStart(threads, schedule);
  }

  /** With nobody holding, awake or mid-unlock, nobody is asleep. */
  lemma NobodyStranded(threads: set<Tid>, schedule: seq<Tid>)
    requires Feasible(Initial(threads), schedule)
    ensures var s := Run(Initial(threads), schedule);
            (forall t :: t in s.pc ==> AtRest(s.pc[t])) ==>
              s.queue == [] && !s.locked && forall t :: t in s.pc ==> s.pc[t].Idle?
  {
    FromStart(threads, schedule);
    var s := Run(Initial(threads), schedule);
    if forall t :: t in s.pc ==> AtRest(s.pc[t]) {
      assert Where(s.pc, Holding) == {};
      NoWakerNoPopped(s.pc, Wakes, IsPopped);
      assert Where(s.pc, Hope) <= Where(s.pc, IsPopped);
      assert s.queue == [] && Where(s.pc, Sleeping) == {};
      forall t | t in s.pc ensures s.pc[t].Idle? {
        assert t !in Where(s.pc, Sleeping) && t !in Where(s.pc, IsPopped);
      }
    }
  }

  // ---------------------------------------------------------------- what calls do

  predicate InLock(p: Pc) {
    p.Swap? || p.LockQueue? || p.Recheck? || p.Push? || p.Unlock? || p.Asleep? || p.Popped?
  }

  /** Whoever steps, a thread in `lock` stays in it until it holds the mutex. */
  lemma LockEndsInHold(s: State, u: Tid, t: Tid)
    requires Inv(s) && Enabled(s, u) && t in s.pc && InLock(s.pc[t])
    ensures t in Next(s, u).pc && (InLock(Next(s, u).pc[t]) || Next(s, u).pc[t].Hold?)
  {
    if s.pc[u].UnlockWake? {
      assert s.pc[u].who in Where(s.pc, IsPopped);
    } else if s.pc[u].UnlockPop? && s.queue != [] {
      assert s.queue[0] in Where(s.pc, Sleeping);
    }
  }

  /** Thread t takes n steps. */
  function Alone(t: Tid, n: nat): seq<Tid> {
    if n == 0 then [] else [t] + Alone(t, n - 1)
  }

  lemma OneStep(s: State, t: Tid, n: nat)
    requires n > 0 && Enabled(s, t) && Feasible(Next(s, t), Alone(t, n - 1))
    ensures Feasible(s, Alone(t, n)) && Run(s, Alone(t, n)) == Run(Next(s, t), Alone(t, n - 1))
  {
    assert Alone(t, n)[1..] == Alone(t, n - 1);
  }

  /** A free mutex is taken by whoever asks, */
  lemma FreeIsTaken(s: State, t: Tid)
    requires t in s.pc && s.pc[t].Idle? && !s.locked
    ensures Feasible(s, Alone(t, 2)) && Run(s, Alone(t, 2)) == s.(pc := s.pc[t := Hold], locked := true)
  {
    var s1 := Next(s, t);
    assert s1.pc[t] == Swap && Next(s1, t).pc == s.pc[t := Hold];
    OneStep(s1, t, 1);
    OneStep(s, t, 2);
  }

  /** a taken one sends the caller to sleep at the end of the queue, */
  lemma TakenMeansSleep(s: State, t: Tid)
    requires t in s.pc && s.pc[t].Idle? && s.locked && s.queueLock.Free?
    ensures Feasible(s, Alone(t, 5)) && Run(s, Alone(t, 5)) == s.(pc := s.pc[t := Asleep], queue := s.queue + [t])
  {
    var s1 := Next(s, t);
    var s2 := Next(s1, t);
    var s3 := Next(s2, t);
    var s4 := Next(s3, t);
    assert s1.pc[t] == Swap && s2.pc[t] == LockQueue && s3.pc[t] == Recheck && s4.pc[t] == Push;
    assert Next(s4, t).pc == s.pc[t := Asleep];
    OneStep(s4, t, 1);
    OneStep(s3, t, 2);
    OneStep(s2, t, 3);
    OneStep(s1, t, 4);
    OneStep(s, t, 5);
  }

  /** and unlocking frees it and wakes the thread that has slept longest, back to trying. */
  lemma UnlockWakesFirst(s: State, t: Tid, w: Tid)
    requires t in s.pc && s.pc[t].Hold? && s.queueLock.Free? && s.queue != [] && s.queue[0] == w != t
    ensures Feasible(s, Alone(t, 3))
    ensures Run(s, Alone(t, 3)) == s.(pc := s.pc[t := Idle][w := Swap], locked := false, queue := s.queue[1..])
  {
    var s1 := Next(s, t);
    var s2 := Next(s1, t);
    assert s1.pc[t] == UnlockPop && s2.pc[t] == UnlockWake(w);
    assert Next(s2, t).pc == s.pc[t := Idle][w := Swap];
    OneStep(s2, t, 1);
    OneStep(s1, t, 2);
    OneStep(s, t, 3);
  }
}
