/**
 The blocking reader-writer lock as a transition system. A thread's program counter names the
 next atomic access or the next wait-queue operation of `read`, `write` or a guard's drop; any
 finite set of threads may interleave. Queue locks are held across exactly the steps the code
 holds them, so the state word may change between a recheck under the lock and the push.
 */
module RwLockProtocol {
  import opened ThreadSets

  const WRITER_BIT: nat := 0x8000_0000_0000_0000

  datatype Pc =
    | Idle
    // read()
    | RLoad                  // load state
    | RLoadWaiting(cur: nat) // no writer bit seen: load writers_waiting
    | RCas(cur: nat)         // compare_exchange_weak(cur, cur + 1)
    | RLockQueue             // lock the reader queue
    | RRecheck               // under the lock: load state
    | RPush                  // under the lock, writer bit seen: push self and unlock
    | RUnlock                // under the lock, no writer bit: unlock
    | RAsleep
    | RHold
    // drop of a read guard
    | RRelPop                // last reader left: pop the writer queue
    | RRelWake(who: Tid)     // wake the popped writer
    // write()
    | WLoad                  // load state
    | WCas                   // compare_exchange_weak(0, WRITER_BIT)
    | WInc                   // writers_waiting += 1
    | WLockQueue             // lock the writer queue
    | WRecheck               // under the lock: load state
    | WPush                  // under the lock, state nonzero: push self and unlock
    | WUnlock                // under the lock, state zero: unlock
    | WAsleep
    | WPopped                // taken off the queue, not yet woken
    | WDec                   // writers_waiting -= 1
    | WHold
    // drop of a write guard
    | WRelPop                // state stored 0: pop the writer queue
    | WRelWake(who: Tid)
    | WRelLockReaders        // no writer waiting: lock the reader queue
    | WRelDrain              // under the lock: pop and wake every reader

  datatype State = State(
    pc: map<Tid, Pc>, word: nat, writersWaiting: nat, writerQueue: seq<Tid>, readerQueue: seq<Tid>,
    writerQueueLock: Lock, readerQueueLock: Lock)

  function Initial(threads: set<Tid>): State {
    State(map t | t in threads :: Idle, 0, 0, [], [], Free, Free)
  }

  /** (word & WRITER_BIT) != 0 for a 64-bit word. */
  predicate HasWriterBit(w: nat) {
    (w / WRITER_BIT) % 2 == 1
  }

  /** 64-bit atomic fetch_sub. */
  function FetchSub(a: nat, n: nat): nat {
    if n <= a then a - n else (a - n) % 0x1_0000_0000_0000_0000
  }

  /** May thread t take its next step? Only queue locks and sleep can stop it. */
  predicate Enabled(s: State, t: Tid) {
    t in s.pc &&
    match s.pc[t]
    case RLockQueue => s.readerQueueLock.Free?
    case WRelLockReaders => s.readerQueueLock.Free?
    case WLockQueue => s.writerQueueLock.Free?
    case RRelPop => s.writerQueueLock.Free?
    case WRelPop => s.writerQueueLock.Free?
    case RAsleep => false
    case WAsleep => false
    case WPopped => false
    case _ => true
  }

  /** The steps that move no thread but the one taking them. */
  predicate Local(p: Pc) {
    !(p.RRelPop? || p.WRelPop? || p.RRelWake? || p.WRelWake? || p.WRelDrain? || p.RAsleep? || p.WAsleep? || p.WPopped?)
  }

  /** Where a local step leaves its thread. `choice` picks read or write for an idle thread, and lets a
      weak compare-exchange fail although the values match. */
  function LocalPc(s: State, p: Pc, choice: bool): Pc
    requires Local(p)
  {
    match p
    case Idle => if choice then RLoad else WLoad
    case RLoad => if HasWriterBit(s.word) then RLockQueue else RLoadWaiting(s.word)
    case RLoadWaiting(cur) => if s.writersWaiting == 0 then RCas(cur) else RLockQueue
    case RCas(cur) => if s.word == cur && choice then RHold else RLoad
    case RLockQueue => RRecheck
    case RRecheck => if HasWriterBit(s.word) then RPush else RUnlock
    case RPush => RAsleep
    case RUnlock => RLoad
    case RHold => if s.word == 1 then RRelPop else Idle
    case WLoad => if s.word == 0 then WCas else WInc
    case WCas => if s.word == 0 && choice then WHold else WLoad
    case WInc => WLockQueue
    case WLockQueue => WRecheck
    case WRecheck => if s.word != 0 then WPush else WUnlock
    case WPush => WAsleep
    case WUnlock => WDec
    case WDec => WLoad
    case WHold => WRelPop
    case WRelLockReaders => WRelDrain
  }

  /** What a local step does to the shared words, the queues and their locks. */
  function LocalWord(s: State, p: Pc, choice: bool): nat {
    if p.RCas? && s.word == p.cur && choice then p.cur + 1
    else if p.RHold? then FetchSub(s.word, 1)
    else if p.WCas? && s.word == 0 && choice then WRITER_BIT
    else if p.WHold? then 0
    else s.word
  }

  function LocalStep(s: State, t: Tid, choice: bool): State
    requires t in s.pc && Local(s.pc[t])
  {
    var p := s.pc[t];
    State(
      s.pc[t := LocalPc(s, p, choice)],
      LocalWord(s, p, choice),
      if p.WInc? then s.writersWaiting + 1 else if p.WDec? then FetchSub(s.writersWaiting, 1) else s.writersWaiting,
      if p.WPush? then s.writerQueue + [t] else s.writerQueue,
      if p.RPush? then s.readerQueue + [t] else s.readerQueue,
      if p.WLockQueue? then Held(t) else if p.WPush? || p.WUnlock? then Free else s.writerQueueLock,
      if p.RLockQueue? || p.WRelLockReaders? then Held(t) else if p.RPush? || p.RUnlock? then Free
      else s.readerQueueLock)
  }

  /** Lock the writer queue, pop, unlock: one step, as nothing else is read or written under the lock. */
  function PopStep(s: State, t: Tid): State
    requires t in s.pc
  {
    var reader := s.pc[t].RRelPop?;
    if s.writerQueue == [] then s.(pc := s.pc[t := if reader then Idle else WRelLockReaders])
    else
      var w := s.writerQueue[0];
      s.(pc := s.pc[t := if reader then RRelWake(w) else WRelWake(w)][w := WPopped], writerQueue := s.writerQueue[1..])
  }

  function WakeStep(s: State, t: Tid, w: Tid): State {
    s.(pc := s.pc[t := Idle][w := WDec])
  }

  /** One turn of the loop that pops and wakes readers, or its end. */
  function DrainStep(s: State, t: Tid): State {
    if s.readerQueue == [] then s.(pc := s.pc[t := Idle], readerQueueLock := Free)
    else s.(pc := s.pc[s.readerQueue[0] := RLoad], readerQueue := s.readerQueue[1..])
  }

  function Next(s: State, t: Tid, choice: bool): State
    requires Enabled(s, t)
  {
    var p := s.pc[t];
    if p.RRelPop? || p.WRelPop? then PopStep(s, t)
    else if p.RRelWake? || p.WRelWake? then WakeStep(s, t, p.who)
    else if p.WRelDrain? then DrainStep(s, t)
    else LocalStep(s, t, choice)
  }

  // ---------------------------------------------------------------- invariant

  predicate Reading(p: Pc) { p.RHold? }
  predicate Writing(p: Pc) { p.WHold? }
  predicate SleepsForRead(p: Pc) { p.RAsleep? }
  predicate SleepsForWrite(p: Pc) { p.WAsleep? }
  predicate PushesForRead(p: Pc) { p.RPush? }
  predicate PushesForWrite(p: Pc) { p.WPush? }
  predicate Popped(p: Pc) { p.WPopped? }
  predicate HoldsWriterQueue(p: Pc) { p.WRecheck? || p.WPush? || p.WUnlock? }
  predicate HoldsReaderQueue(p: Pc) { p.RRecheck? || p.RPush? || p.RUnlock? || p.WRelDrain? }

  /** Between the increment and the decrement of writers_waiting. */
  predicate Counted(p: Pc) {
    p.WLockQueue? || p.WRecheck? || p.WPush? || p.WUnlock? || p.WAsleep? || p.WPopped? || p.WDec?
  }

  /** Awake in the acquire loop of write(), or about to be woken into it. */
  predicate AwakeWriter(p: Pc) {
    p.WLoad? || p.WCas? || p.WInc? || p.WLockQueue? || p.WRecheck? || p.WUnlock? || p.WPopped? || p.WDec?
  }

  /** Someone who will pop the writer queue, or a writer who will take the lock or see it taken. */
  predicate WriterHope(p: Pc) { p.RRelPop? || p.WRelPop? || AwakeWriter(p) }

  /** Someone who will drain the reader queue, or a writer whose own release will. */
  predicate ReaderHope(p: Pc) {
    p.WRelPop? || p.WRelLockReaders? || p.WRelDrain? || p.WPush? || p.WAsleep? || AwakeWriter(p)
  }

  /** A reader about to compare-exchange from a word that had the writer bit. */
  predicate Misread(p: Pc) { (p.RCas? || p.RLoadWaiting?) && HasWriterBit(p.cur) }

  predicate Wakes(p: Pc, w: Tid) { (p.RRelWake? || p.WRelWake?) && p.who == w }

  /** The word tells exactly which guards exist: the writer bit for a single writer alone, else the readers' number. */
  ghost predicate WordOk(s: State) { WordFits(s.word, Where(s.pc, Reading), Where(s.pc, Writing)) }

  ghost predicate WordFits(word: nat, readers: set<Tid>, writers: set<Tid>) {
    (word == WRITER_BIT && |writers| == 1 && readers == {}) || (word == |readers| && writers == {})
  }

  ghost predicate QueuesOk(s: State) {
    QueueOf(s.writerQueue, Where(s.pc, SleepsForWrite)) && QueueOf(s.readerQueue, Where(s.pc, SleepsForRead))
  }

  ghost predicate LocksOk(s: State) {
    Where(s.pc, HoldsWriterQueue) == Owners(s.writerQueueLock) &&
      Where(s.pc, HoldsReaderQueue) == Owners(s.readerQueueLock)
  }

  /** A sleeping or falling-asleep writer has the lock taken, a release under way, or another writer awake. */
  ghost predicate WritersWatched(s: State) {
    s.writerQueue != [] || Where(s.pc, PushesForWrite) != {} ==> s.word != 0 || Where(s.pc, WriterHope) != {}
  }

  /** A sleeping or falling-asleep reader has a writer inside, leaving, awake or itself queued. */
  ghost predicate ReadersWatched(s: State) {
    s.readerQueue != [] || Where(s.pc, PushesForRead) != {} ==> s.word == WRITER_BIT || Where(s.pc, ReaderHope) != {}
  }

  /** The parts no pop or wake can disturb. */
  ghost predicate Static(s: State) {
    && |s.pc.Keys| < WRITER_BIT
    && WordOk(s)
    && Where(s.pc, Misread) == {}
    && s.writersWaiting == |Where(s.pc, Counted)|
    && LocksOk(s)
  }

  ghost predicate Inv(s: State) {
    && Static(s)
    && QueuesOk(s)
    && WakersOk(s.pc, Wakes, Popped)
    && WritersWatched(s)
    && ReadersWatched(s)
  }

  // ---------------------------------------------------------------- preservation

  /** The word stays below 2^63 unless it is the writer bit, so the bit test is a comparison. */
  lemma WordRange(s: State)
    requires |s.pc.Keys| < WRITER_BIT && WordOk(s)
    ensures HasWriterBit(s.word) <==> s.word == WRITER_BIT
    ensures s.word == WRITER_BIT ==> |Where(s.pc, Writing)| == 1 && Where(s.pc, Reading) == {}
    ensures s.word != WRITER_BIT ==> s.word == |Where(s.pc, Reading)| < WRITER_BIT && Where(s.pc, Writing) == {}
  {
    WhereSize(s.pc, Reading);
  }

  /** Only a successful compare-exchange enters a guard, and only a drop leaves one. */
  lemma GuardFacts(s: State, p: Pc, choice: bool)
    requires Local(p)
    ensures LocalPc(s, p, choice).RHold? <==> p.RCas? && s.word == p.cur && choice
    ensures LocalPc(s, p, choice).WHold? <==> p.WCas? && s.word == 0 && choice
    ensures Misread(LocalPc(s, p, choice)) ==> Misread(p)
  {
  }

  lemma LocalWordKept(s: State, t: Tid, choice: bool)
    requires t in s.pc && Local(s.pc[t]) && |s.pc.Keys| < WRITER_BIT && WordOk(s) && Where(s.pc, Misread) == {}
    ensures WordOk(LocalStep(s, t, choice)) && Where(LocalStep(s, t, choice).pc, Misread) == {}
  {
    WordRange(s);
    var p, q := s.pc[t], LocalPc(s, s.pc[t], choice);
    GuardFacts(s, p, choice);
    WhereAfter(s.pc, t, q, Misread);
    assert t !in Where(s.pc, Misread);
    WordMove(s, LocalStep(s, t, choice), t, p, q);
  }

  lemma WordMove(s: State, n: State, t: Tid, p: Pc, q: Pc)
    requires t in s.pc && s.pc[t] == p && n.pc == s.pc[t := q]
    requires s.word == WRITER_BIT ==> |Where(s.pc, Writing)| == 1 && Where(s.pc, Reading) == {}
    requires s.word != WRITER_BIT ==> s.word == |Where(s.pc, Reading)| < WRITER_BIT && Where(s.pc, Writing) == {}
    requires q.RHold? ==> !p.RHold? && !p.WHold? && s.word != WRITER_BIT && n.word == s.word + 1
    requires q.WHold? ==> !p.RHold? && !p.WHold? && s.word == 0 && n.word == WRITER_BIT
    requires p.RHold? && s.word > 0 ==> n.word == s.word - 1
    requires p.WHold? ==> n.word == 0
    requires !q.RHold? && !q.WHold? && !p.RHold? && !p.WHold? ==> n.word == s.word
    ensures WordOk(n)
  {
    WhereAfter(s.pc, t, q, Reading);
    WhereAfter(s.pc, t, q, Writing);
    var readers, writers := Where(s.pc, Reading), Where(s.pc, Writing);
    assert (t in readers <==> p.RHold?) && (t in writers <==> p.WHold?);
    GuardSets(s.word, n.word, readers, writers, t, q.RHold?, q.WHold?);
  }

  /** The same of the sets of readers and writers, whichever of them t enters or leaves. */
  lemma GuardSets(word: nat, now: nat, readers: set<Tid>, writers: set<Tid>, t: Tid, reading: bool, writing: bool)
    requires word == WRITER_BIT ==> |writers| == 1 && readers == {}
    requires word != WRITER_BIT ==> word == |readers| < WRITER_BIT && writers == {}
    requires reading ==> t !in readers && !writing && word != WRITER_BIT && now == word + 1
    requires writing ==> t !in writers && word == 0 && now == WRITER_BIT
    requires t in readers && word > 0 ==> now == word - 1
    requires t in writers ==> now == 0
    requires !reading && !writing && t !in readers && t !in writers ==> now == word
    ensures WordFits(now, if reading then readers + {t} else readers - {t},
                     if writing then writers + {t} else writers - {t})
  {
    if reading {
      ReaderEnters(word, readers, writers, t);
    } else if writing {
      WriterEnters(readers, writers, t);
    } else if t in readers {
      ReaderLeaves(word, readers, writers, t);
    } else if t in writers {
      WriterLeaves(word, readers, writers, t);
    } else {
      assert readers - {t} == readers && writers - {t} == writers;
    }
  }

  /** One thread enters or leaves a guard, and the word moves with it. */
  lemma ReaderEnters(word: nat, readers: set<Tid>, writers: set<Tid>, t: Tid)
    requires t !in readers && word == |readers| && writers == {}
    ensures WordFits(word + 1, readers + {t}, writers - {t})
  {
  }

  lemma WriterEnters(readers: set<Tid>, writers: set<Tid>, t: Tid)
    requires |readers| == 0 && writers == {}
    ensures WordFits(WRITER_BIT, readers - {t}, writers + {t})
  {
    assert writers + {t} == {t};
  }

  lemma ReaderLeaves(word: nat, readers: set<Tid>, writers: set<Tid>, t: Tid)
    requires t in readers && word == |readers| && writers == {}
    ensures word > 0 && WordFits(word - 1, readers - {t}, writers - {t})
  {
  }

  lemma WriterLeaves(word: nat, readers: set<Tid>, writers: set<Tid>, t: Tid)
    requires t in writers && word == WRITER_BIT && |writers| == 1 && readers == {}
    ensures WordFits(0, readers - {t}, writers - {t})
  {
    Singleton(writers, t);
    assert writers - {t} == {};
  }

  lemma CountFacts(s: State, p: Pc, choice: bool)
    requires Local(p)
    ensures Counted(LocalPc(s, p, choice)) <==> p.WInc? || (Counted(p) && !p.WDec?)
    ensures HoldsWriterQueue(LocalPc(s, p, choice)) <==> p.WLockQueue? || p.WRecheck?
    ensures HoldsReaderQueue(LocalPc(s, p, choice)) <==> p.RLockQueue? || p.RRecheck? || p.WRelLockReaders?
  {
  }

  lemma CountMove(pc: map<Tid, Pc>, t: Tid, q: Pc, was: nat, now: nat)
    requires t in pc && was == |Where(pc, Counted)|
    requires now == if pc[t].WInc? then was + 1 else if pc[t].WDec? then FetchSub(was, 1) else was
    requires Counted(q) <==> pc[t].WInc? || (Counted(pc[t]) && !pc[t].WDec?)
    ensures now == |Where(pc[t := q], Counted)|
  {
    WhereAfter(pc, t, q, Counted);
    assert t in Where(pc, Counted) <==> Counted(pc[t]);
    if !pc[t].WInc? && !pc[t].WDec? { CalmClass(pc, t, q, Counted); }
  }

  lemma QueuesMove(s: State, n: State, t: Tid, p: Pc, q: Pc)
    requires t in s.pc && s.pc[t] == p && n.pc == s.pc[t := q] && QueuesOk(s) && !p.RAsleep? && !p.WAsleep?
    requires n.writerQueue == if q.WAsleep? then s.writerQueue + [t] else s.writerQueue
    requires n.readerQueue == if q.RAsleep? then s.readerQueue + [t] else s.readerQueue
    ensures QueuesOk(n)
  {
    WhereAfter(s.pc, t, q, SleepsForRead);
    WhereAfter(s.pc, t, q, SleepsForWrite);
    assert t !in Where(s.pc, SleepsForRead) && t !in Where(s.pc, SleepsForWrite);
    QueuePush(s.writerQueue, Where(s.pc, SleepsForWrite), t);
    QueuePush(s.readerQueue, Where(s.pc, SleepsForRead), t);
    assert Where(s.pc, SleepsForRead) - {t} == Where(s.pc, SleepsForRead);
    assert Where(s.pc, SleepsForWrite) - {t} == Where(s.pc, SleepsForWrite);
  }

  lemma LocalLocksKept(s: State, t: Tid, choice: bool)
    requires Enabled(s, t) && Local(s.pc[t]) && LocksOk(s)
    ensures LocksOk(LocalStep(s, t, choice))
  {
    var p, q, n := s.pc[t], LocalPc(s, s.pc[t], choice), LocalStep(s, t, choice);
    CountFacts(s, p, choice);
    LockMove(s.pc, t, q, HoldsWriterQueue, s.writerQueueLock, n.writerQueueLock);
    LockMove(s.pc, t, q, HoldsReaderQueue, s.readerQueueLock, n.readerQueueLock);
  }

  /** A writer's hope that goes leaves the word taken or another hope; no writer falls asleep over a free word. */
  lemma WriterHopeFacts(s: State, p: Pc, choice: bool)
    requires Local(p) && (p.RHold? ==> 0 < s.word)
    ensures var q, w := LocalPc(s, p, choice), LocalWord(s, p, choice);
            && (WriterHope(p) ==> WriterHope(q) || w != 0)
            && (s.word != 0 ==> w != 0 || WriterHope(q))
            && (q.WPush? ==> w != 0)
  {
  }

  /** Likewise for readers, who fall asleep only over the writer bit. */
  lemma ReaderHopeFacts(s: State, p: Pc, choice: bool)
    requires Local(p) && (HasWriterBit(s.word) <==> s.word == WRITER_BIT)
    requires p.RHold? || (p.RCas? && s.word == p.cur) ==> s.word < WRITER_BIT
    ensures var q, w := LocalPc(s, p, choice), LocalWord(s, p, choice);
            && (ReaderHope(p) ==> ReaderHope(q) || w == WRITER_BIT)
            && (s.word == WRITER_BIT ==> w == WRITER_BIT || ReaderHope(q))
            && (q.RPush? ==> w == WRITER_BIT)
  {
  }

  /** These facts are enough, whatever the step was. */
  lemma WatchedMove(s: State, n: State, t: Tid, p: Pc, q: Pc)
    requires t in s.pc && s.pc[t] == p && n.pc == s.pc[t := q] && WritersWatched(s) && ReadersWatched(s)
    requires WriterHope(p) ==> WriterHope(q) || n.word != 0
    requires s.word != 0 ==> n.word != 0 || WriterHope(q)
    requires q.WPush? ==> n.word != 0
    requires n.writerQueue == s.writerQueue || p.WPush?
    requires ReaderHope(p) ==> ReaderHope(q) || n.word == WRITER_BIT
    requires s.word == WRITER_BIT ==> n.word == WRITER_BIT || ReaderHope(q)
    requires q.RPush? ==> n.word == WRITER_BIT
    requires n.readerQueue == s.readerQueue || p.RPush?
    ensures WritersWatched(n) && ReadersWatched(n)
  {
    WhereAfter(s.pc, t, q, PushesForWrite);
    WhereAfter(s.pc, t, q, PushesForRead);
    WhereAfter(s.pc, t, q, WriterHope);
    WhereAfter(s.pc, t, q, ReaderHope);
    assert t in Where(s.pc, PushesForWrite) <==> p.WPush?;
    assert t in Where(s.pc, PushesForRead) <==> p.RPush?;
    assert t in Where(s.pc, WriterHope) <==> WriterHope(p);
    assert t in Where(s.pc, ReaderHope) <==> ReaderHope(p);
  }

  lemma LocalWatchedKept(s: State, t: Tid, choice: bool)
    requires Enabled(s, t) && Local(s.pc[t]) && |s.pc.Keys| < WRITER_BIT && WordOk(s)
    requires Where(s.pc, Misread) == {} && WritersWatched(s) && ReadersWatched(s)
    ensures WritersWatched(LocalStep(s, t, choice)) && ReadersWatched(LocalStep(s, t, choice))
  {
    WordRange(s);
    var p := s.pc[t];
    if p.RHold? { assert t in Where(s.pc, Reading); }
    assert t !in Where(s.pc, Misread);
    WriterHopeFacts(s, p, choice);
    ReaderHopeFacts(s, p, choice);
    WatchedMove(s, LocalStep(s, t, choice), t, p, LocalPc(s, p, choice));
  }

  lemma LocalStatic(s: State, t: Tid, choice: bool)
    requires Static(s) && Enabled(s, t) && Local(s.pc[t])
    ensures Static(LocalStep(s, t, choice))
  {
    LocalWordKept(s, t, choice);
    CountFacts(s, s.pc[t], choice);
    CountMove(s.pc, t, LocalPc(s, s.pc[t], choice), s.writersWaiting, LocalStep(s, t, choice).writersWaiting);
    LocalLocksKept(s, t, choice);
    assert LocalStep(s, t, choice).pc.Keys == s.pc.Keys;
  }

  lemma LocalKept(s: State, t: Tid, choice: bool)
    requires Inv(s) && Enabled(s, t) && Local(s.pc[t])
    ensures Inv(LocalStep(s, t, choice))
  {
    LocalStatic(s, t, choice);
    LocalQueues(s, t, choice);
    LocalWakers(s, t, choice);
    LocalWatchedKept(s, t, choice);
  }

  lemma LocalQueues(s: State, t: Tid, choice: bool)
    requires QueuesOk(s) && Enabled(s, t) && Local(s.pc[t])
    ensures QueuesOk(LocalStep(s, t, choice))
  {
    QueuesMove(s, LocalStep(s, t, choice), t, s.pc[t], LocalPc(s, s.pc[t], choice));
  }

  lemma LocalWakers(s: State, t: Tid, choice: bool)
    requires WakersOk(s.pc, Wakes, Popped) && Enabled(s, t) && Local(s.pc[t])
    ensures WakersOk(LocalStep(s, t, choice).pc, Wakes, Popped)
  {
    WakersCalm(s.pc, t, LocalPc(s, s.pc[t], choice), Wakes, Popped);
  }

  /** A step that moves t and u without touching guards, counts or queue locks. */
  lemma QuietMove(s: State, n: State, t: Tid, p: Pc, u: Tid, q: Pc)
    requires Static(s) && t in s.pc && u in s.pc && t != u
    requires n.pc == s.pc[t := p][u := q] && n.word == s.word && n.writersWaiting == s.writersWaiting
    requires n.writerQueueLock == s.writerQueueLock && n.readerQueueLock == s.readerQueueLock
    requires !Reading(s.pc[t]) && !Writing(s.pc[t]) && !Reading(p) && !Writing(p)
    requires !Reading(s.pc[u]) && !Writing(s.pc[u]) && !Reading(q) && !Writing(q)
    requires Counted(p) == Counted(s.pc[t]) && Counted(q) == Counted(s.pc[u])
    requires HoldsWriterQueue(p) == HoldsWriterQueue(s.pc[t]) && HoldsWriterQueue(q) == HoldsWriterQueue(s.pc[u])
    requires HoldsReaderQueue(p) == HoldsReaderQueue(s.pc[t]) && HoldsReaderQueue(q) == HoldsReaderQueue(s.pc[u])
    requires !Misread(p) && !Misread(q)
    ensures Static(n)
  {
    assert n.pc.Keys == s.pc.Keys;
    assert t !in Where(s.pc, Misread) && u !in Where(s.pc, Misread);
    WhereAfter2(s.pc, t, p, u, q, Reading);
    WhereAfter2(s.pc, t, p, u, q, Writing);
    WhereAfter2(s.pc, t, p, u, q, Misread);
    WhereAfter2(s.pc, t, p, u, q, Counted);
    WhereAfter2(s.pc, t, p, u, q, HoldsWriterQueue);
    WhereAfter2(s.pc, t, p, u, q, HoldsReaderQueue);
  }

  lemma PopWakers(pc: map<Tid, Pc>, t: Tid, p: Pc, w: Tid)
    requires WakersOk(pc, Wakes, Popped) && t in pc && w in pc && (pc[t].RRelPop? || pc[t].WRelPop?) && pc[w].WAsleep?
    requires p == RRelWake(w) || p == WRelWake(w)
    ensures WakersOk(pc[t := p][w := WPopped], Wakes, Popped)
  {
    WakersPop(pc, t, p, w, WPopped, Wakes, Popped);
  }

  lemma PopKept(s: State, t: Tid)
    requires Inv(s) && Enabled(s, t) && (s.pc[t].RRelPop? || s.pc[t].WRelPop?) && s.writerQueue != []
    ensures Inv(PopStep(s, t))
  {
    var n, w := PopStep(s, t), s.writerQueue[0];
    var p := if s.pc[t].RRelPop? then RRelWake(w) else WRelWake(w);
    PopQueues(s, n, t, p, w);
    PopStatic(s, n, t, p, w);
    PopWakers(s.pc, t, p, w);
    AwakeWatches(n, w);
  }

  lemma PopStatic(s: State, n: State, t: Tid, p: Pc, w: Tid)
    requires Static(s) && t in s.pc && w in s.pc && (s.pc[t].RRelPop? || s.pc[t].WRelPop?) && s.pc[w].WAsleep?
    requires p == if s.pc[t].RRelPop? then RRelWake(w) else WRelWake(w)
    requires n == s.(pc := s.pc[t := p][w := WPopped], writerQueue := n.writerQueue)
    ensures Static(n)
  {
    QuietMove(s, n, t, p, w, WPopped);
  }

  /** An awake or popped writer is hope enough for every sleeper. */
  lemma AwakeWatches(s: State, w: Tid)
    requires w in s.pc && AwakeWriter(s.pc[w])
    ensures WritersWatched(s) && ReadersWatched(s)
  {
    assert w in Where(s.pc, WriterHope) && w in Where(s.pc, ReaderHope);
  }

  lemma PopQueues(s: State, n: State, t: Tid, p: Pc, w: Tid)
    requires QueuesOk(s) && s.writerQueue != [] && w == s.writerQueue[0]
    requires t in s.pc && !s.pc[t].RAsleep? && !s.pc[t].WAsleep? && !p.RAsleep? && !p.WAsleep?
    requires n.writerQueue == s.writerQueue[1..] && n.readerQueue == s.readerQueue
    requires n.pc == s.pc[t := p][w := WPopped]
    ensures w in s.pc && s.pc[w].WAsleep? && t != w && QueuesOk(n)
  {
    assert w in Where(s.pc, SleepsForWrite);
    QueuePop(s.writerQueue, Where(s.pc, SleepsForWrite));
    WhereAfter2(s.pc, t, p, w, WPopped, SleepsForWrite);
    WhereAfter2(s.pc, t, p, w, WPopped, SleepsForRead);
    assert Where(s.pc[t := p][w := WPopped], SleepsForWrite) == Where(s.pc, SleepsForWrite) - {w};
  }

  /** A step of one thread that touches no count and is no part of a wake-up. */
  lemma CalmMove(s: State, n: State, t: Tid, p: Pc, q: Pc)
    requires Static(s) && t in s.pc && s.pc[t] == p && n.pc == s.pc[t := q] && n.word == s.word
    requires n.writersWaiting == s.writersWaiting && n.writerQueueLock == s.writerQueueLock
    requires Counted(p) == Counted(q) && HoldsWriterQueue(p) == HoldsWriterQueue(q)
    requires (HoldsReaderQueue(p) == HoldsReaderQueue(q) && n.readerQueueLock == s.readerQueueLock)
          || (HoldsReaderQueue(p) && !HoldsReaderQueue(q) && n.readerQueueLock == Free)
    requires !Misread(q) && !Reading(p) && !Writing(p) && !Reading(q) && !Writing(q)
    ensures Static(n)
  {
    assert n.pc.Keys == s.pc.Keys;
    CalmClass(s.pc, t, q, Reading);
    CalmClass(s.pc, t, q, Writing);
    CalmClass(s.pc, t, q, Counted);
    WhereAfter(s.pc, t, q, Misread);
    LockMove(s.pc, t, q, HoldsWriterQueue, s.writerQueueLock, n.writerQueueLock);
    LockMove(s.pc, t, q, HoldsReaderQueue, s.readerQueueLock, n.readerQueueLock);
  }

  /** Popping an empty queue: the lock is free, so nobody is about to push either. */
  lemma EmptyPopKept(s: State, t: Tid)
    requires Inv(s) && Enabled(s, t) && (s.pc[t].RRelPop? || s.pc[t].WRelPop?) && s.writerQueue == []
    ensures Inv(PopStep(s, t))
  {
    var n, p, q := PopStep(s, t), s.pc[t], PopStep(s, t).pc[t];
    EmptyPopStatic(s, n, t, q);
    QueuesMove(s, n, t, p, q);
    WakersCalm(s.pc, t, q, Wakes, Popped);
    EmptyPopWatched(s, n, t, q);
  }

  lemma EmptyPopStatic(s: State, n: State, t: Tid, q: Pc)
    requires Static(s) && t in s.pc && (s.pc[t].RRelPop? || s.pc[t].WRelPop?)
    requires n == s.(pc := s.pc[t := q]) && q == if s.pc[t].RRelPop? then Idle else WRelLockReaders
    ensures Static(n)
  {
    CalmMove(s, n, t, s.pc[t], q);
  }

  lemma EmptyPopWatched(s: State, n: State, t: Tid, q: Pc)
    requires t in s.pc && (s.pc[t].RRelPop? || s.pc[t].WRelPop?) && s.writerQueue == [] && s.writerQueueLock.Free?
    requires LocksOk(s)
    requires n == s.(pc := s.pc[t := q]) && ReadersWatched(s) && q == if s.pc[t].RRelPop? then Idle else WRelLockReaders
    ensures WritersWatched(n) && ReadersWatched(n)
  {
    WhereAfter(s.pc, t, q, PushesForWrite);
    WhereAfter(s.pc, t, q, PushesForRead);
    WhereAfter(s.pc, t, q, ReaderHope);
    assert Where(s.pc, PushesForWrite) <= Where(s.pc, HoldsWriterQueue);
    assert t in Where(s.pc, ReaderHope) <==> s.pc[t].WRelPop?;
    assert t !in Where(s.pc, PushesForRead);
  }

  lemma WakeWakers(pc: map<Tid, Pc>, t: Tid, w: Tid)
    requires WakersOk(pc, Wakes, Popped) && t in pc && Wakes(pc[t], w)
    ensures w in pc && pc[w].WPopped? && t != w
    ensures WakersOk(pc[t := Idle][w := WDec], Wakes, Popped)
  {
    assert w in Where(pc, Popped);
    WakersWake(pc, t, Idle, w, WDec, Wakes, Popped);
  }

  lemma WakeQueues(s: State, t: Tid, w: Tid)
    requires QueuesOk(s) && t in s.pc && Wakes(s.pc[t], w) && w in s.pc && s.pc[w].WPopped? && t != w
    ensures QueuesOk(WakeStep(s, t, w))
  {
    WhereAfter2(s.pc, t, Idle, w, WDec, SleepsForWrite);
    WhereAfter2(s.pc, t, Idle, w, WDec, SleepsForRead);
  }

  lemma WakeKept(s: State, t: Tid, w: Tid)
    requires Inv(s) && t in s.pc && Wakes(s.pc[t], w)
    ensures Inv(WakeStep(s, t, w))
  {
    var n := WakeStep(s, t, w);
    WakeWakers(s.pc, t, w);
    QuietMove(s, n, t, Idle, w, WDec);
    WakeQueues(s, t, w);
    AwakeWatches(n, w);
  }

  lemma DrainKept(s: State, t: Tid)
    requires Inv(s) && t in s.pc && s.pc[t].WRelDrain? && s.readerQueue != []
    ensures Inv(DrainStep(s, t))
  {
    var n, r := DrainStep(s, t), s.readerQueue[0];
    DrainQueues(s, n, r);
    CalmMove(s, n, r, RAsleep, RLoad);
    WakersCalm(s.pc, r, RLoad, Wakes, Popped);
    DrainWatched(s, n, t, r);
  }

  lemma DrainWatched(s: State, n: State, t: Tid, r: Tid)
    requires t in s.pc && s.pc[t].WRelDrain? && r in s.pc && s.pc[r] == RAsleep && WritersWatched(s)
    requires n.pc == s.pc[r := RLoad] && n.word == s.word && n.writerQueue == s.writerQueue
    ensures WritersWatched(n) && ReadersWatched(n)
  {
    CalmClass(s.pc, r, RLoad, PushesForWrite);
    CalmClass(s.pc, r, RLoad, WriterHope);
    assert t in Where(n.pc, ReaderHope);
  }

  lemma DrainQueues(s: State, n: State, r: Tid)
    requires QueuesOk(s) && s.readerQueue != [] && r == s.readerQueue[0]
    requires n.pc == s.pc[r := RLoad] && n.readerQueue == s.readerQueue[1..] && n.writerQueue == s.writerQueue
    ensures r in s.pc && s.pc[r] == RAsleep && QueuesOk(n)
  {
    assert r in Where(s.pc, SleepsForRead);
    QueuePop(s.readerQueue, Where(s.pc, SleepsForRead));
    WhereAfter(s.pc, r, RLoad, SleepsForRead);
    WhereAfter(s.pc, r, RLoad, SleepsForWrite);
    assert r !in Where(s.pc, SleepsForWrite);
    assert Where(s.pc, SleepsForWrite) - {r} == Where(s.pc, SleepsForWrite);
  }

  /** The drain ends with the reader queue empty and, the lock being held, nobody about to push. */
  lemma DrainEndKept(s: State, t: Tid)
    requires Inv(s) && t in s.pc && s.pc[t].WRelDrain? && s.readerQueue == []
    ensures Inv(DrainStep(s, t))
  {
    var n, p := DrainStep(s, t), s.pc[t];
    CalmMove(s, n, t, p, Idle);
    QueuesMove(s, n, t, p, Idle);
    WakersCalm(s.pc, t, Idle, Wakes, Popped);
    DrainEndWatched(s, n, t);
  }

  lemma DrainEndWatched(s: State, n: State, t: Tid)
    requires t in s.pc && s.pc[t].WRelDrain? && s.readerQueue == [] && LocksOk(s) && WritersWatched(s)
    requires n == s.(pc := s.pc[t := Idle], readerQueueLock := Free)
    ensures WritersWatched(n) && ReadersWatched(n)
  {
    WhereAfter(s.pc, t, Idle, PushesForWrite);
    WhereAfter(s.pc, t, Idle, PushesForRead);
    WhereAfter(s.pc, t, Idle, WriterHope);
    assert t in Where(s.pc, HoldsReaderQueue) && t !in Where(s.pc, PushesForRead) && t !in Where(s.pc, WriterHope);
    assert Where(s.pc, PushesForRead) <= Where(s.pc, HoldsReaderQueue);
  }

  /** Every step of every thread keeps the invariant. */
  lemma StepKept(s: State, t: Tid, choice: bool)
    requires Inv(s) && Enabled(s, t)
    ensures Inv(Next(s, t, choice))
  {
    var p := s.pc[t];
    if p.RRelPop? || p.WRelPop? {
      if s.writerQueue == [] { EmptyPopKept(s, t); } else { PopKept(s, t); }
    } else if p.RRelWake? || p.WRelWake? {
      WakeKept(s, t, p.who);
    } else if p.WRelDrain? {
      if s.readerQueue == [] { DrainEndKept(s, t); } else { DrainKept(s, t); }
    } else {
      LocalKept(s, t, choice);
    }
  }

  // ---------------------------------------------------------------- whole runs

  lemma InitialInv(threads: set<Tid>)
    requires |threads| < WRITER_BIT
    ensures Inv(Initial(threads))
  {
    var s := Initial(threads);
    assert s.pc.Keys == threads;
    assert Where(s.pc, Reading) == {} && Where(s.pc, Counted) == {};
  }

  /** A schedule: which thread moves next, and how it resolves its choice. */
  ghost predicate Feasible(s: State, schedule: seq<(Tid, bool)>)
    decreases |schedule|
  {
    schedule == [] || (Enabled(s, schedule[0].0) && Feasible(Next(s, schedule[0].0, schedule[0].1), schedule[1..]))
  }

  ghost function Run(s: State, schedule: seq<(Tid, bool)>): State
    requires Feasible(s, schedule)
    decreases |schedule|
  {
    if schedule == [] then s else Run(Next(s, schedule[0].0, schedule[0].1), schedule[1..])
  }

  lemma {:induction false} RunInv(s: State, schedule: seq<(Tid, bool)>)
    requires Inv(s) && Feasible(s, schedule)
    ensures Inv(Run(s, schedule))
    decreases |schedule|
  {
    if schedule != [] {
      StepKept(s, schedule[0].0, schedule[0].1);
      RunInv(Next(s, schedule[0].0, schedule[0].1), schedule[1..]);
    }
  }

  /** In every run of any threads: the word is the writer bit exactly when one write guard and no read guard
      exists, otherwise it is the number of read guards and there is no write guard. */
  lemma Exclusion(threads: set<Tid>, schedule: seq<(Tid, bool)>)
    requires |threads| < WRITER_BIT && Feasible(Initial(threads), schedule)
    ensures var s := Run(Initial(threads), schedule);
            && (s.word == WRITER_BIT <==> |Where(s.pc, Writing)| == 1 && Where(s.pc, Reading) == {})
            && (s.word != WRITER_BIT ==> Where(s.pc, Writing) == {} && s.word == |Where(s.pc, Reading)|)
  {
    InitialInv(threads);
    RunInv(Initial(threads), schedule);
    WordRange(Run(Initial(threads), schedule));
  }

  /** Not in an acquire loop and not mid-release: idle, asleep, or popped and waiting for someone's wake call. */
  predicate AtRest(p: Pc) { p.Idle? || p.RAsleep? || p.WAsleep? || p.WPopped? }

  lemma RestMeansIdle(s: State)
    requires Inv(s) && forall t :: t in s.pc ==> AtRest(s.pc[t])
    ensures s.writerQueue == [] && s.readerQueue == [] && s.word == 0 && forall t :: t in s.pc ==> s.pc[t].Idle?
  {
    RestSets(s.pc);
    assert s.word == 0 by { assert |Where(s.pc, Reading)| == 0; }
    NoWakerNoPopped(s.pc, Wakes, Popped);
    assert s.writerQueue == [] && Where(s.pc, SleepsForWrite) == {};
    assert s.readerQueue == [] && Where(s.pc, SleepsForRead) == {};
    forall t | t in s.pc ensures s.pc[t].Idle? {
      assert t !in Where(s.pc, SleepsForWrite) && t !in Where(s.pc, SleepsForRead) && t !in Where(s.pc, Popped);
    }
  }

  lemma RestSets(pc: map<Tid, Pc>)
    requires forall t :: t in pc ==> AtRest(pc[t])
    ensures Where(pc, Reading) == {} && Where(pc, Writing) == {}
    ensures Where(pc, WriterHope) <= Where(pc, Popped)
    ensures Where(pc, ReaderHope) <= Where(pc, Popped) + Where(pc, SleepsForWrite)
  {
  }

  /** When every thread is at rest nobody is asleep at all and the lock is free: no waiter is ever stranded,
      whatever barging readers and writers did on the way. */
  lemma NobodyStranded(threads: set<Tid>, schedule: seq<(Tid, bool)>)
    requires |threads| < WRITER_BIT && Feasible(Initial(threads), schedule)
    ensures var s := Run(Initial(threads), schedule);
            (forall t :: t in s.pc ==> AtRest(s.pc[t])) ==>
              s.writerQueue == [] && s.readerQueue == [] && s.word == 0 && forall t :: t in s.pc ==> s.pc[t].Idle?
  {
    InitialInv(threads);
    RunInv(Initial(threads), schedule);
    var s := Run(Initial(threads), schedule);
    if forall t :: t in s.pc ==> AtRest(s.pc[t]) {
      RestMeansIdle(s);
    }
  }

  /** While anyone is between calls' ends, either a guard is held or some thread can move: no deadlock. */
  lemma SomeoneCanMove(threads: set<Tid>, schedule: seq<(Tid, bool)>)
    requires |threads| < WRITER_BIT && Feasible(Initial(threads), schedule)
    ensures var s := Run(Initial(threads), schedule);
            (exists t :: t in s.pc && !s.pc[t].Idle?) ==> exists u :: Enabled(s, u) && !s.pc[u].Idle?
  {
    InitialInv(threads);
    RunInv(Initial(threads), schedule);
    NobodyStranded(threads, schedule);
    var s := Run(Initial(threads), schedule);
    if exists t :: t in s.pc && !s.pc[t].Idle? {
      var t :| t in s.pc && !AtRest(s.pc[t]);
      if !Enabled(s, t) {
        var l := if s.pc[t].RLockQueue? || s.pc[t].WRelLockReaders? then s.readerQueueLock else s.writerQueueLock;
        assert l.owner in Owners(l);
        assert Enabled(s, l.owner) && !s.pc[l.owner].Idle?;
      }
    }
  }

  // ---------------------------------------------------------------- writers go first

  /** A writer is waiting now and after every step. */
  ghost predicate WriterWaits(s: State, schedule: seq<(Tid, bool)>)
    requires Feasible(s, schedule)
    decreases |schedule|
  {
    && s.writersWaiting > 0
    && (schedule == [] || WriterWaits(Next(s, schedule[0].0, schedule[0].1), schedule[1..]))
  }

  /** While a writer waits, whatever anyone does, no thread that was not already past the check gets a read guard. */
  lemma {:induction false} WaitingWriterKeepsOut(s: State, schedule: seq<(Tid, bool)>, t: Tid)
    requires Feasible(s, schedule) && WriterWaits(s, schedule) && t in s.pc && !s.pc[t].RHold? && !s.pc[t].RCas?
    ensures t in Run(s, schedule).pc && !Run(s, schedule).pc[t].RHold? && !Run(s, schedule).pc[t].RCas?
    decreases |schedule|
  {
    if schedule != [] {
      StaysOut(s, schedule[0].0, schedule[0].1, t);
      WaitingWriterKeepsOut(Next(s, schedule[0].0, schedule[0].1), schedule[1..], t);
    }
  }

  lemma StaysOut(s: State, u: Tid, choice: bool, t: Tid)
    requires Enabled(s, u) && s.writersWaiting > 0 && t in s.pc && !s.pc[t].RHold? && !s.pc[t].RCas?
    ensures t in Next(s, u, choice).pc && !Next(s, u, choice).pc[t].RHold? && !Next(s, u, choice).pc[t].RCas?
  {
  }

  // ---------------------------------------------------------------- a call ends in its guard

  predicate InRead(p: Pc) {
    p.RLoad? || p.RLoadWaiting? || p.RCas? || p.RLockQueue? || p.RRecheck? || p.RPush? || p.RUnlock? || p.RAsleep?
  }

  predicate InWrite(p: Pc) { p.WLoad? || p.WCas? || p.WInc? || Counted(p) }

  predicate Goes(p: Pc, q: Pc) {
    && (InRead(p) ==> InRead(q) || q.RHold?)
    && (InWrite(p) ==> InWrite(q) || q.WHold?)
  }

  /** Whoever steps, a thread in `read` stays in it until it has a read guard, and one in `write` until it has its. */
  lemma CallsEndInGuards(s: State, u: Tid, choice: bool, t: Tid)
    requires Inv(s) && Enabled(s, u) && t in s.pc
    ensures t in Next(s, u, choice).pc && Goes(s.pc[t], Next(s, u, choice).pc[t])
  {
    if Local(s.pc[u]) {
      LocalGoes(s, s.pc[u], choice);
    } else {
      WakesGo(s, u, t);
    }
  }

  lemma LocalGoes(s: State, p: Pc, choice: bool)
    requires Local(p)
    ensures Goes(p, LocalPc(s, p, choice))
  {
  }

  lemma WakesGo(s: State, u: Tid, t: Tid)
    requires QueuesOk(s) && WakersOk(s.pc, Wakes, Popped) && Enabled(s, u) && !Local(s.pc[u]) && t in s.pc
    ensures t in Next(s, u, true).pc && Goes(s.pc[t], Next(s, u, true).pc[t])
  {
    if s.pc[u].WRelDrain? && s.readerQueue != [] {
      assert s.readerQueue[0] in Where(s.pc, SleepsForRead);
    } else if s.pc[u].RRelWake? || s.pc[u].WRelWake? {
      assert Wakes(s.pc[u], s.pc[u].who) && s.pc[u].who in Where(s.pc, Popped);
    } else if (s.pc[u].RRelPop? || s.pc[u].WRelPop?) && s.writerQueue != [] {
      assert s.writerQueue[0] in Where(s.pc, SleepsForWrite);
    }
  }

  // ---------------------------------------------------------------- calls that nobody interrupts

  /** Thread t takes n steps, and every compare-exchange that can succeed does. */
  function Alone(t: Tid, n: nat): seq<(Tid, bool)> {
    if n == 0 then [] else [(t, true)] + Alone(t, n - 1)
  }

  lemma FirstStep(s: State, t: Tid, choice: bool, rest: seq<(Tid, bool)>)
    requires Enabled(s, t) && Feasible(Next(s, t, choice), rest)
    ensures Feasible(s, [(t, choice)] + rest) && Run(s, [(t, choice)] + rest) == Run(Next(s, t, choice), rest)
  {
    assert ([(t, choice)] + rest)[1..] == rest;
  }

  /** t at p goes to q in one step that it may take. */
  lemma OneStep(s: State, t: Tid, n: nat)
    requires n > 0 && Enabled(s, t) && Feasible(Next(s, t, true), Alone(t, n - 1))
    ensures Feasible(s, Alone(t, n)) && Run(s, Alone(t, n)) == Run(Next(s, t, true), Alone(t, n - 1))
  {
    FirstStep(s, t, true, Alone(t, n - 1));
  }

  /** With no writer in or waiting, a reader gets its guard. */
  lemma ReaderAlone(s: State, t: Tid)
    requires t in s.pc && s.pc[t].Idle? && s.word < WRITER_BIT && s.writersWaiting == 0
    ensures Feasible(s, Alone(t, 4))
    ensures Run(s, Alone(t, 4)) == s.(pc := s.pc[t := RHold], word := s.word + 1)
  {
    NoWriterBit(s.word);
    var s1 := Next(s, t, true);
    assert s1.pc[t] == RLoad;
    var s2 := Next(s1, t, true);
    assert s2.pc == s.pc[t := RLoadWaiting(s.word)];
    ReaderEntersAt(s2, t);
    OneStep(s1, t, 3);
    OneStep(s, t, 4);
    assert s2.pc[t := RHold] == s.pc[t := RHold];
  }

  lemma ReaderEntersAt(s: State, t: Tid)
    requires t in s.pc && s.pc[t] == RLoadWaiting(s.word) && s.writersWaiting == 0
    ensures Feasible(s, Alone(t, 2))
    ensures Run(s, Alone(t, 2)) == s.(pc := s.pc[t := RHold], word := s.word + 1)
  {
    var s1 := Next(s, t, true);
    assert s1.pc[t] == RCas(s.word);
    assert Next(s1, t, true).pc == s.pc[t := RHold];
    OneStep(s1, t, 1);
    OneStep(s, t, 2);
  }

  lemma NoWriterBit(w: nat)
    ensures w < WRITER_BIT ==> !HasWriterBit(w)
    ensures w == WRITER_BIT ==> HasWriterBit(w)
  {
  }

  /** With nobody in, a writer gets its guard, whoever waits. */
  lemma WriterAlone(s: State, t: Tid)
    requires t in s.pc && s.pc[t].Idle? && s.word == 0
    ensures Feasible(s, [(t, false)] + Alone(t, 2))
    ensures Run(s, [(t, false)] + Alone(t, 2)) == s.(pc := s.pc[t := WHold], word := WRITER_BIT)
  {
    var s1 := Next(s, t, false);
    var s2 := Next(s1, t, true);
    assert s1.pc[t] == WLoad && s2.pc[t] == WCas;
    assert Next(s2, t, true).pc == s.pc[t := WHold];
    OneStep(s2, t, 1);
    OneStep(s1, t, 2);
    FirstStep(s, t, false, Alone(t, 2));
  }

  /** With a writer in, a reader goes to sleep at the end of the readers' queue. */
  lemma ReaderSleeps(s: State, t: Tid)
    requires t in s.pc && s.pc[t].Idle? && s.word == WRITER_BIT && s.readerQueueLock.Free?
    ensures Feasible(s, Alone(t, 5))
    ensures Run(s, Alone(t, 5)) == s.(pc := s.pc[t := RAsleep], readerQueue := s.readerQueue + [t])
  {
    NoWriterBit(s.word);
    var s1 := Next(s, t, true);
    assert s1.pc[t] == RLoad;
    var s2 := Next(s1, t, true);
    assert s2.pc == s.pc[t := RLockQueue];
    ReaderQueues(s2, t);
    OneStep(s1, t, 4);
    OneStep(s, t, 5);
    assert s2.pc[t := RAsleep] == s.pc[t := RAsleep];
  }

  lemma ReaderQueues(s: State, t: Tid)
    requires t in s.pc && s.pc[t].RLockQueue? && s.word == WRITER_BIT && s.readerQueueLock.Free?
    ensures Feasible(s, Alone(t, 3))
    ensures Run(s, Alone(t, 3)) == s.(pc := s.pc[t := RAsleep], readerQueue := s.readerQueue + [t])
  {
    var s1 := Next(s, t, true);
    var s2 := Next(s1, t, true);
    assert s1.pc[t] == RRecheck && s2.pc[t] == RPush;
    assert Next(s2, t, true).pc == s.pc[t := RAsleep];
    OneStep(s2, t, 1);
    OneStep(s1, t, 2);
    OneStep(s, t, 3);
  }

  /** With someone in, a writer is counted as waiting and goes to sleep at the end of the writers' queue. */
  lemma WriterSleeps(s: State, t: Tid)
    requires t in s.pc && s.pc[t].Idle? && s.word != 0 && s.writerQueueLock.Free?
    ensures Feasible(s, [(t, false)] + Alone(t, 5))
    ensures Run(s, [(t, false)] + Alone(t, 5)) ==
            s.(pc := s.pc[t := WAsleep], writersWaiting := s.writersWaiting + 1, writerQueue := s.writerQueue + [t])
  {
    var s1 := Next(s, t, false);
    assert s1.pc[t] == WLoad;
    WriterCounts(s1, t);
    FirstStep(s, t, false, Alone(t, 5));
    assert s1.pc[t := WAsleep] == s.pc[t := WAsleep];
  }

  lemma WriterCounts(s: State, t: Tid)
    requires t in s.pc && s.pc[t].WLoad? && s.word != 0 && s.writerQueueLock.Free?
    ensures Feasible(s, Alone(t, 5))
    ensures Run(s, Alone(t, 5)) ==
            s.(pc := s.pc[t := WAsleep], writersWaiting := s.writersWaiting + 1, writerQueue := s.writerQueue + [t])
  {
    var s1 := Next(s, t, true);
    var s2 := Next(s1, t, true);
    assert s1.pc[t] == WInc && s2.pc[t] == WLockQueue;
    WriterQueues(s2, t);
    OneStep(s1, t, 4);
    OneStep(s, t, 5);
    assert s2.pc[t := WAsleep] == s.pc[t := WAsleep];
  }

  lemma WriterQueues(s: State, t: Tid)
    requires t in s.pc && s.pc[t].WLockQueue? && s.word != 0 && s.writerQueueLock.Free?
    ensures Feasible(s, Alone(t, 3))
    ensures Run(s, Alone(t, 3)) == s.(pc := s.pc[t := WAsleep], writerQueue := s.writerQueue + [t])
  {
    var s1 := Next(s, t, true);
    var s2 := Next(s1, t, true);
    assert s1.pc[t] == WRecheck && s2.pc[t] == WPush;
    assert Next(s2, t, true).pc == s.pc[t := WAsleep];
    OneStep(s2, t, 1);
    OneStep(s1, t, 2);
    OneStep(s, t, 3);
  }

  /** A reader that is not the last to leave just leaves. */
  lemma ReaderLeavesOthers(s: State, t: Tid)
    requires t in s.pc && s.pc[t].RHold? && s.word > 1
    ensures Feasible(s, Alone(t, 1)) && Run(s, Alone(t, 1)) == s.(pc := s.pc[t := Idle], word := s.word - 1)
  {
    assert Next(s, t, true) == s.(pc := s.pc[t := Idle], word := s.word - 1);
    OneStep(s, t, 1);
  }

  /** The last reader to leave wakes the writer that has waited longest, and no one else. */
  lemma LastReaderWakes(s: State, t: Tid, w: Tid)
    requires t in s.pc && s.pc[t].RHold? && s.word == 1 && s.writerQueueLock.Free? && t != w
    requires s.writerQueue != [] && s.writerQueue[0] == w
    ensures Feasible(s, Alone(t, 3))
    ensures Run(s, Alone(t, 3)) == s.(pc := s.pc[t := Idle][w := WDec], word := 0, writerQueue := s.writerQueue[1..])
  {
    var s1 := s.(pc := s.pc[t := RRelPop], word := 0);
    var s2 := s1.(pc := s.pc[t := RRelWake(w)][w := WPopped], writerQueue := s.writerQueue[1..]);
    var s3 := s2.(pc := s.pc[t := Idle][w := WDec]);
    assert Next(s, t, true) == s1;
    assert s1.pc[t := RRelWake(w)][w := WPopped] == s2.pc && Next(s1, t, true) == s2;
    assert s2.pc[t := Idle][w := WDec] == s3.pc && Next(s2, t, true) == s3;
    OneStep(s2, t, 1);
    OneStep(s1, t, 2);
    OneStep(s, t, 3);
  }

  /** A writer that leaves wakes the writer that has waited longest, and leaves the readers asleep. */
  lemma WriterWakesWriter(s: State, t: Tid, w: Tid)
    requires t in s.pc && s.pc[t].WHold? && s.writerQueueLock.Free? && t != w
    requires s.writerQueue != [] && s.writerQueue[0] == w
    ensures Feasible(s, Alone(t, 3))
    ensures Run(s, Alone(t, 3)) == s.(pc := s.pc[t := Idle][w := WDec], word := 0, writerQueue := s.writerQueue[1..])
  {
    var s1 := s.(pc := s.pc[t := WRelPop], word := 0);
    var s2 := s1.(pc := s.pc[t := WRelWake(w)][w := WPopped], writerQueue := s.writerQueue[1..]);
    var s3 := s2.(pc := s.pc[t := Idle][w := WDec]);
    assert Next(s, t, true) == s1;
    assert s1.pc[t := WRelWake(w)][w := WPopped] == s2.pc && Next(s1, t, true) == s2;
    assert s2.pc[t := Idle][w := WDec] == s3.pc && Next(s2, t, true) == s3;
    OneStep(s2, t, 1);
    OneStep(s1, t, 2);
    OneStep(s, t, 3);
  }

  /** All of these threads back at the top of their acquire loop. */
  function Awake(pc: map<Tid, Pc>, readers: seq<Tid>): map<Tid, Pc>
    decreases |readers|
  {
    if readers == [] then pc else Awake(pc[readers[0] := RLoad], readers[1..])
  }

  lemma {:induction false} AwakeFacts(pc: map<Tid, Pc>, readers: seq<Tid>, u: Tid)
    ensures u in readers ==> u in Awake(pc, readers) && Awake(pc, readers)[u] == RLoad
    ensures u !in readers ==> (u in Awake(pc, readers) <==> u in pc)
    ensures u !in readers && u in pc ==> Awake(pc, readers)[u] == pc[u]
    decreases |readers|
  {
    if readers != [] { AwakeFacts(pc[readers[0] := RLoad], readers[1..], u); }
  }

  /** The drain wakes the sleeping readers one and all. */
  lemma {:induction false} DrainsAll(s: State, t: Tid)
    requires t in s.pc && s.pc[t].WRelDrain? && t !in s.readerQueue
    ensures Feasible(s, Alone(t, |s.readerQueue| + 1))
    ensures Run(s, Alone(t, |s.readerQueue| + 1)) ==
            s.(pc := Awake(s.pc, s.readerQueue)[t := Idle], readerQueue := [], readerQueueLock := Free)
    decreases |s.readerQueue|
  {
    var n := Next(s, t, true);
    if s.readerQueue != [] { DrainsAll(n, t); }
    OneStep(s, t, |s.readerQueue| + 1);
  }

  /** A writer that leaves with no writer waiting wakes every sleeping reader. */
  lemma WriterWakesReaders(s: State, t: Tid)
    requires t in s.pc && s.pc[t].WHold? && s.writerQueueLock.Free? && s.readerQueueLock.Free?
    requires s.writerQueue == [] && t !in s.readerQueue
    ensures var n := |s.readerQueue| + 4;
            && Feasible(s, Alone(t, n)) && t in Run(s, Alone(t, n)).pc && Run(s, Alone(t, n)).pc[t].Idle?
            && Run(s, Alone(t, n)).word == 0 && Run(s, Alone(t, n)).readerQueue == []
            && forall u :: u in s.readerQueue ==> u in Run(s, Alone(t, n)).pc && Run(s, Alone(t, n)).pc[u].RLoad?
  {
    var s1, s2 := s.(pc := s.pc[t := WRelPop], word := 0), s.(pc := s.pc[t := WRelLockReaders], word := 0);
    var s3, n := s2.(pc := s.pc[t := WRelDrain], readerQueueLock := Held(t)), |s.readerQueue| + 4;
    assert Next(s, t, true) == s1 && Next(s1, t, true) == s2 && Next(s2, t, true) == s3;
    DrainsAll(s3, t);
    OneStep(s2, t, n - 2);
    OneStep(s1, t, n - 1);
    OneStep(s, t, n);
    forall u | u in s.readerQueue
      ensures u in Run(s, Alone(t, n)).pc && Run(s, Alone(t, n)).pc[u].RLoad?
    {
      AwakeFacts(s3.pc, s.readerQueue, u);
    }
  }

  /** A writer just woken stops being counted and, if the lock is free by then, takes it. */
  lemma WokenWriterTakes(s: State, w: Tid)
    requires w in s.pc && s.pc[w].WDec? && s.word == 0 && s.writersWaiting > 0
    ensures Feasible(s, Alone(w, 3))
    ensures Run(s, Alone(w, 3)) ==
            s.(pc := s.pc[w := WHold], word := WRITER_BIT, writersWaiting := s.writersWaiting - 1)
  {
    var s1 := Next(s, w, true);
    var s2 := Next(s1, w, true);
    assert s1.pc[w] == WLoad && s2.pc[w] == WCas;
    assert Next(s2, w, true).pc == s.pc[w := WHold];
    OneStep(s2, w, 1);
    OneStep(s1, w, 2);
    OneStep(s, w, 3);
  }
}
