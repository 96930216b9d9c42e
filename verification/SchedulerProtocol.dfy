/**
 All cores' schedulers together, interleaved at the steps other cores can see: a thread marking
 itself blocked, a waker's store to the state, its push to a queue or a mailbox, one mailbox entry
 drained, one pick. A thread has a home core and is queued, mailed and run only there.
 */
module SchedulerProtocol {
  import opened Wrappers
  import opened ReadyQueue

  /** Where a thread that is not an idle thread can be found. */
  datatype Where = OnCpu | InQueue | InMail | InHand(waker: nat) | Nowhere

  datatype Thread = Thread(home: nat, priority: nat)

  datatype Core = Core(levels: Levels, mail: seq<nat>, current: nat, idle: nat)

  /**
   `hands` are wakers between their store to the state and their push; `at` is the place each thread is meant to be in.
   */
  datatype Sys = Sys(threads: map<nat, Thread>, state: map<nat, ThreadState>, cores: seq<Core>, hands: map<nat, nat>,
                     at: map<nat, Where>)

  // ---------------------------------------------------------------- invariant

  predicate NoDup(s: seq<nat>) { forall i, j :: 0 <= i < j < |s| ==> s[i] != s[j] }

  predicate ThreadOk(s: Sys, t: nat)
    requires t in s.threads
  {
    && s.threads[t].home < |s.cores| && s.threads[t].priority < LEVELS && t in s.state && t in s.at
    && match s.state[t]
       case Running => s.at[t] == OnCpu && s.cores[s.threads[t].home].current == t
       case Ready => s.at[t] == InQueue || s.at[t] == InMail ||
         (s.at[t].InHand? && s.at[t].waker in s.hands && s.hands[s.at[t].waker] == t)
       case Blocked => s.at[t] == Nowhere
       case Terminated => s.at[t] == Nowhere
  }

  /** t is queued on core c at level p. */
  predicate Belongs(s: Sys, t: nat, c: nat, p: nat) {
    t in s.threads && t in s.at && s.at[t] == InQueue && s.threads[t] == Thread(c, p)
  }

  ghost predicate LevelOk(s: Sys, c: nat, p: nat)
    requires c < |s.cores| && p < LEVELS
  {
    NoDup(s.cores[c].levels[p]) && forall t :: t in s.cores[c].levels[p] <==> Belongs(s, t, c, p)
  }

  ghost predicate MailOkAt(s: Sys, c: nat)
    requires c < |s.cores|
  {
    && NoDup(s.cores[c].mail)
    && forall t :: t in s.cores[c].mail <==> t in s.threads && t in s.at && s.at[t] == InMail && s.threads[t].home == c
  }

  ghost predicate CoreOk(s: Sys, c: nat)
    requires c < |s.cores|
  {
    && s.cores[c].idle !in s.threads && s.cores[c].idle in s.state && s.cores[c].current in s.state
    && (s.cores[c].current == s.cores[c].idle ||
        (s.cores[c].current in s.threads && s.threads[s.cores[c].current].home == c))
    && QueuesAt(s, c)
  }

  /** The queues of core c hold exactly the threads placed in them. */
  ghost predicate QueuesAt(s: Sys, c: nat)
    requires c < |s.cores|
  {
    MailOkAt(s, c) && forall p :: 0 <= p < LEVELS ==> LevelOk(s, c, p)
  }

  /** Every runnable thread is in exactly one place: its cpu, its queue, its mailbox, or a waker's hands. */
  ghost predicate Inv(s: Sys) {
    && s.at.Keys == s.threads.Keys
    && (forall t :: t in s.threads ==> ThreadOk(s, t))
    && (forall c :: 0 <= c < |s.cores| ==> CoreOk(s, c))
    && (forall c, d :: 0 <= c < d < |s.cores| ==> s.cores[c].idle != s.cores[d].idle)
    && (forall w :: w in s.hands ==> s.hands[w] in s.threads && s.at[s.hands[w]] == InHand(w))
  }

  // ---------------------------------------------------------------- steps

  datatype Step =
    | Stop(core: nat, state: ThreadState)
    | WakeBegin(waker: nat, thread: nat)
    | WakeEnd(waker: nat, core: nat)
    | DrainOne(core: nat)
    | PickNext(core: nat)
    | Spawn(thread: nat, home: nat, priority: nat)

  predicate Enabled(s: Sys, step: Step)
  {
    match step
    case Stop(c, st) =>
      && c < |s.cores| && s.cores[c].current in s.threads && s.cores[c].current in s.state
      && s.state[s.cores[c].current] == Running && (st == Blocked || st == Terminated)
    case WakeBegin(w, t) => w !in s.hands && t in s.threads && t in s.state && s.state[t] == Blocked
    case WakeEnd(w, c) => w in s.hands && s.hands[w] in s.threads && s.threads[s.hands[w]].home < |s.cores| &&
      s.threads[s.hands[w]].priority < LEVELS
    case DrainOne(c) => c < |s.cores| && s.cores[c].mail != [] && s.cores[c].mail[0] in s.threads &&
      s.threads[s.cores[c].mail[0]].priority < LEVELS
    case PickNext(c) =>
      && c < |s.cores| && s.cores[c].current in s.state
      && (s.cores[c].current != s.cores[c].idle ==>
            s.cores[c].current in s.threads && s.threads[s.cores[c].current].priority < LEVELS)
    case Spawn(t, home, priority) => t !in s.threads && t !in s.state && home < |s.cores| && priority < LEVELS
  }

  function Priorities(s: Sys): map<nat, nat> { map t | t in s.threads :: s.threads[t].priority }

  /** Where the threads are after a pick. */
  function PickAt(at: map<nat, Where>, current: nat, idle: nat, running: bool, next: nat): map<nat, Where> {
    var requeued := if running && current != idle && current != next then at[current := InQueue] else at;
    if next == idle then requeued else requeued[next := OnCpu]
  }

  function Take(s: Sys, step: Step): Sys
    requires Enabled(s, step)
  {
    match step
    case Stop(c, st) =>
      s.(state := s.state[s.cores[c].current := st], at := s.at[s.cores[c].current := Nowhere])
    case WakeBegin(w, t) => s.(state := s.state[t := Ready], at := s.at[t := InHand(w)], hands := s.hands[w := t])
    case WakeEnd(w, c) =>
      var t := s.hands[w];
      var home := s.threads[t].home;
      if c == home then
        s.(cores := s.cores[home := s.cores[home].(levels := LevelPush(s.cores[home].levels, s.threads[t].priority,
            t))],
           at := s.at[t := InQueue], hands := s.hands - {w})
      else
        s.(cores := s.cores[home := s.cores[home].(mail := s.cores[home].mail + [t])],
           at := s.at[t := InMail], hands := s.hands - {w})
    case DrainOne(c) =>
      var core := s.cores[c];
      var t := core.mail[0];
      s.(cores := s.cores[c := core.(mail := core.mail[1..],
                                     levels := LevelPush(core.levels, s.threads[t].priority, t))],
         state := s.state[t := Ready], at := s.at[t := InQueue])
    case PickNext(c) =>
      var core := s.cores[c];
      var picked := Pick(core.levels, s.state, Priorities(s), core.current, core.idle);
      s.(cores := s.cores[c := core.(levels := picked.levels, current := picked.next)], state := picked.state,
         at := PickAt(s.at, core.current, core.idle, s.state[core.current] == Running, picked.next))
    case Spawn(t, home, priority) =>
      s.(threads := s.threads[t := Thread(home, priority)], state := s.state[t := Ready], at := s.at[t := InMail],
         cores := s.cores[home := s.cores[home].(mail := s.cores[home].mail + [t])])
  }

  // ---------------------------------------------------------------- each step keeps it

  lemma NoDupAppend(q: seq<nat>, t: nat)
    requires NoDup(q) && t !in q
    ensures NoDup(q + [t])
  {
  }

  lemma NoDupTail(q: seq<nat>)
    requires NoDup(q) && q != []
    ensures NoDup(q[1..]) && forall t :: t in q[1..] <==> t in q && t != q[0]
  {
  }

  /** Only thread t may be elsewhere or new. */
  ghost predicate Only(s: Sys, s': Sys, t: nat) {
    forall u :: u != t ==>
      && (u in s.threads <==> u in s'.threads) && (u in s.at <==> u in s'.at)
      && (u in s.threads ==> s'.threads[u] == s.threads[u]) && (u in s.at ==> s'.at[u] == s.at[u])
  }

  /** t is in no queue of core c. */
  predicate Outside(s: Sys, t: nat, c: nat) {
    t in s.threads && t in s.at && s.threads[t].home == c ==> s.at[t] != InQueue && s.at[t] != InMail
  }

  lemma Untouched(s: Sys, s': Sys, c: nat, t: nat)
    requires c < |s.cores| && c < |s'.cores| && QueuesAt(s, c) && Only(s, s', t)
    requires s'.cores[c].levels == s.cores[c].levels && s'.cores[c].mail == s.cores[c].mail
    requires Outside(s, t, c) && Outside(s', t, c)
    ensures QueuesAt(s', c)
  {
    forall p | 0 <= p < LEVELS
      ensures LevelOk(s', c, p)
    {
      assert LevelOk(s, c, p);
      forall u
        ensures u in s'.cores[c].levels[p] <==> Belongs(s', u, c, p)
      {
        assert u in s.cores[c].levels[p] <==> Belongs(s, u, c, p);
      }
    }
    forall u
      ensures u in s'.cores[c].mail <==> u in s'.threads && u in s'.at && s'.at[u] == InMail && s'.threads[u].home == c
    {
      assert u in s.cores[c].mail <==> u in s.threads && u in s.at && s.at[u] == InMail && s.threads[u].home == c;
    }
  }

  lemma Pushed(s: Sys, s': Sys, c: nat, t: nat, p: nat)
    requires c < |s.cores| && c < |s'.cores| && QueuesAt(s, c) && Only(s, s', t) && p < LEVELS
    requires Outside(s, t, c) && Belongs(s', t, c, p)
    requires s'.cores[c].levels == LevelPush(s.cores[c].levels, p, t) && s'.cores[c].mail == s.cores[c].mail
    ensures QueuesAt(s', c)
  {
    forall q | 0 <= q < LEVELS
      ensures LevelOk(s', c, q)
    {
      assert LevelOk(s, c, q);
      assert t in s.cores[c].levels[q] <==> Belongs(s, t, c, q);
      if q == p { NoDupAppend(s.cores[c].levels[p], t); }
      forall u
        ensures u in s'.cores[c].levels[q] <==> Belongs(s', u, c, q)
      {
        assert u in s.cores[c].levels[q] <==> Belongs(s, u, c, q);
      }
    }
    forall u
      ensures u in s'.cores[c].mail <==> u in s'.threads && u in s'.at && s'.at[u] == InMail && s'.threads[u].home == c
    {
      assert u in s.cores[c].mail <==> u in s.threads && u in s.at && s.at[u] == InMail && s.threads[u].home == c;
    }
  }

  lemma Popped(s: Sys, s': Sys, c: nat, p: nat)
    requires c < |s.cores| && c < |s'.cores| && QueuesAt(s, c) && p < LEVELS && s.cores[c].levels[p] != []
    requires Only(s, s', s.cores[c].levels[p][0]) && Outside(s', s.cores[c].levels[p][0], c)
    requires s'.cores[c].levels == s.cores[c].levels[p := s.cores[c].levels[p][1..]]
    requires s'.cores[c].mail == s.cores[c].mail
    ensures QueuesAt(s', c)
  {
    var t := s.cores[c].levels[p][0];
    assert LevelOk(s, c, p) && t in s.cores[c].levels[p];
    forall q | 0 <= q < LEVELS
      ensures LevelOk(s', c, q)
    {
      assert LevelOk(s, c, q);
      NoDupTail(s.cores[c].levels[p]);
      forall u
        ensures u in s'.cores[c].levels[q] <==> Belongs(s', u, c, q)
      {
        assert u in s.cores[c].levels[q] <==> Belongs(s, u, c, q);
      }
    }
    forall u
      ensures u in s'.cores[c].mail <==> u in s'.threads && u in s'.at && s'.at[u] == InMail && s'.threads[u].home == c
    {
      assert u in s.cores[c].mail <==> u in s.threads && u in s.at && s.at[u] == InMail && s.threads[u].home == c;
    }
  }

  lemma Mailed(s: Sys, s': Sys, c: nat, t: nat)
    requires c < |s.cores| && c < |s'.cores| && QueuesAt(s, c) && Only(s, s', t) && Outside(s, t, c)
    requires t in s'.threads && t in s'.at && s'.at[t] == InMail && s'.threads[t].home == c
    requires s'.cores[c].levels == s.cores[c].levels && s'.cores[c].mail == s.cores[c].mail + [t]
    ensures QueuesAt(s', c)
  {
    forall q | 0 <= q < LEVELS
      ensures LevelOk(s', c, q)
    {
      assert LevelOk(s, c, q);
      forall u
        ensures u in s'.cores[c].levels[q] <==> Belongs(s', u, c, q)
      {
        assert u in s.cores[c].levels[q] <==> Belongs(s, u, c, q);
      }
    }
    NoDupAppend(s.cores[c].mail, t);
    forall u
      ensures u in s'.cores[c].mail <==> u in s'.threads && u in s'.at && s'.at[u] == InMail && s'.threads[u].home == c
    {
      assert u in s.cores[c].mail <==> u in s.threads && u in s.at && s.at[u] == InMail && s.threads[u].home == c;
    }
  }

  lemma Unmailed(s: Sys, s': Sys, c: nat)
    requires c < |s.cores| && c < |s'.cores| && QueuesAt(s, c) && s.cores[c].mail != []
    requires Only(s, s', s.cores[c].mail[0]) && Outside(s', s.cores[c].mail[0], c)
    requires s'.cores[c].levels == s.cores[c].levels && s'.cores[c].mail == s.cores[c].mail[1..]
    ensures QueuesAt(s', c)
  {
    var t := s.cores[c].mail[0];
    assert t in s.cores[c].mail;
    forall q | 0 <= q < LEVELS
      ensures LevelOk(s', c, q)
    {
      assert LevelOk(s, c, q);
      forall u
        ensures u in s'.cores[c].levels[q] <==> Belongs(s', u, c, q)
      {
        assert u in s.cores[c].levels[q] <==> Belongs(s, u, c, q);
      }
    }
    NoDupTail(s.cores[c].mail);
    forall u
      ensures u in s'.cores[c].mail <==> u in s'.threads && u in s'.at && s'.at[u] == InMail && s'.threads[u].home == c
    {
      assert u in s.cores[c].mail <==> u in s.threads && u in s.at && s.at[u] == InMail && s.threads[u].home == c;
    }
  }

  lemma StopKept(s: Sys, step: Step)
    requires Inv(s) && step.Stop? && Enabled(s, step)
    ensures Inv(Take(s, step))
  {
    var s' := Take(s, step);
    var t := s.cores[step.core].current;
    assert ThreadOk(s, t);
    forall c | 0 <= c < |s'.cores|
      ensures CoreOk(s', c)
    {
      assert CoreOk(s, c);
      Untouched(s, s', c, t);
    }
    forall u | u in s'.threads
      ensures ThreadOk(s', u)
    {
      assert ThreadOk(s, u);
    }
  }

  lemma WakeBeginKept(s: Sys, step: Step)
    requires Inv(s) && step.WakeBegin? && Enabled(s, step)
    ensures Inv(Take(s, step))
  {
    var s' := Take(s, step);
    var t := step.thread;
    assert ThreadOk(s, t);
    forall c | 0 <= c < |s'.cores|
      ensures CoreOk(s', c)
    {
      assert CoreOk(s, c);
      Untouched(s, s', c, t);
    }
    forall u | u in s'.threads
      ensures ThreadOk(s', u)
    {
      assert ThreadOk(s, u);
    }
  }

  lemma WakeEndKept(s: Sys, step: Step)
    requires Inv(s) && step.WakeEnd? && Enabled(s, step)
    ensures Inv(Take(s, step))
  {
    var s' := Take(s, step);
    var t := s.hands[step.waker];
    var home := s.threads[t].home;
    assert ThreadOk(s, t);
    forall c | 0 <= c < |s'.cores|
      ensures CoreOk(s', c)
    {
      assert CoreOk(s, c);
      if c != home {
        Untouched(s, s', c, t);
      } else if step.core == home {
        Pushed(s, s', c, t, s.threads[t].priority);
      } else {
        Mailed(s, s', c, t);
      }
    }
    forall u | u in s'.threads
      ensures ThreadOk(s', u)
    {
      assert ThreadOk(s, u);
    }
  }

  lemma DrainKept(s: Sys, step: Step)
    requires Inv(s) && step.DrainOne? && Enabled(s, step)
    ensures Inv(Take(s, step))
  {
    var s' := Take(s, step);
    var t := s.cores[step.core].mail[0];
    assert CoreOk(s, step.core) && t in s.cores[step.core].mail;
    assert ThreadOk(s, t);
    var between := s.(cores := s.cores[step.core := s.cores[step.core].(mail := s.cores[step.core].mail[1..])],
                      at := s.at[t := Nowhere]);
    forall c | 0 <= c < |s'.cores|
      ensures CoreOk(s', c)
    {
      assert CoreOk(s, c);
      if c != step.core {
        Untouched(s, s', c, t);
      } else {
        Unmailed(s, between, c);
        Pushed(between, s', c, t, s.threads[t].priority);
      }
    }
    forall u | u in s'.threads
      ensures ThreadOk(s', u)
    {
      assert ThreadOk(s, u);
    }
  }

  lemma SpawnKept(s: Sys, step: Step)
    requires Inv(s) && step.Spawn? && Enabled(s, step)
    ensures Inv(Take(s, step))
  {
    var s' := Take(s, step);
    var t := step.thread;
    forall c | 0 <= c < |s'.cores|
      ensures CoreOk(s', c)
    {
      assert CoreOk(s, c);
      if c != step.home { Untouched(s, s', c, t); } else { Mailed(s, s', c, t); }
    }
    forall u | u in s'.threads
      ensures ThreadOk(s', u)
    {
      if u != t { assert ThreadOk(s, u); }
    }
  }

  /** The first half of a pick: the queue gives up its first thread, which is nowhere for a moment. */
  function Unqueued(s: Sys, c: nat): Sys
    requires c < |s.cores|
  {
    var (popped, rest) := LevelPop(s.cores[c].levels);
    if popped.None? then s
    else s.(cores := s.cores[c := s.cores[c].(levels := rest)], at := s.at[popped.value := Nowhere])
  }

  /** and the thread that ran goes back to the end of its level, if it still can. */
  function Requeued(s: Sys, c: nat): Sys
    requires Enabled(s, PickNext(c))
  {
    var (popped, rest) := LevelPop(s.cores[c].levels);
    var m, t := Unqueued(s, c), s.cores[c].current;
    if popped.Some? && t != s.cores[c].idle && s.state[t] == Running && t != popped.value then
      m.(cores := m.cores[c := m.cores[c].(levels := LevelPush(rest, s.threads[t].priority, t))],
         at := m.at[t := InQueue])
    else m
  }

  lemma UnqueuedOk(s: Sys, c: nat)
    requires Inv(s) && c < |s.cores|
    ensures |Unqueued(s, c).cores| == |s.cores| && Unqueued(s, c).threads == s.threads
    ensures forall d :: 0 <= d < |s.cores| ==> QueuesAt(Unqueued(s, c), d)
    ensures var popped := LevelPop(s.cores[c].levels).0;
            popped.Some? ==>
              popped.value in s.threads && s.threads[popped.value].home == c && s.state[popped.value] == Ready &&
                s.at[popped.value] == InQueue
  {
    var m := Unqueued(s, c);
    var p := Lowest(s.cores[c].levels, 0);
    assert CoreOk(s, c);
    if p < LEVELS {
      var t := s.cores[c].levels[p][0];
      assert LevelOk(s, c, p) && t in s.cores[c].levels[p] && Belongs(s, t, c, p);
      assert ThreadOk(s, t);
      forall d | 0 <= d < |s.cores|
        ensures QueuesAt(m, d)
      {
        assert CoreOk(s, d);
        if d == c { Popped(s, m, c, p); } else { Untouched(s, m, d, t); }
      }
    } else {
      forall d | 0 <= d < |s.cores|
        ensures QueuesAt(m, d)
      {
        assert CoreOk(s, d);
      }
    }
  }

  lemma RequeuedOk(s: Sys, c: nat)
    requires Inv(s) && Enabled(s, PickNext(c))
    ensures |Requeued(s, c).cores| == |s.cores| && Requeued(s, c).threads == s.threads
    ensures forall d :: 0 <= d < |s.cores| ==> QueuesAt(Requeued(s, c), d)
  {
    var m, r, t := Unqueued(s, c), Requeued(s, c), s.cores[c].current;
    UnqueuedOk(s, c);
    assert CoreOk(s, c);
    if r != m {
      assert ThreadOk(s, t);
      forall d | 0 <= d < |s.cores|
        ensures QueuesAt(r, d)
      {
        if d == c { Pushed(m, r, c, t, s.threads[t].priority); } else { Untouched(m, r, d, t); }
      }
    }
  }

  /** The switch from the current thread of core c to next, with the given queues. */
  function Switched(s: Sys, c: nat, next: nat, levels: Levels): Sys
    requires c < |s.cores| && s.cores[c].current in s.state
  {
    var core := s.cores[c];
    var running := s.state[core.current] == Running;
    s.(cores := s.cores[c := core.(levels := levels, current := next)],
       state := (if running then s.state[core.current := Ready] else s.state)[next := Running],
       at := PickAt(s.at, core.current, core.idle, running, next))
  }

  /** Who may be next: the first of the queue, the thread that runs, or the idle thread if it does not. */
  ghost predicate NextOk(s: Sys, c: nat, next: nat) {
    && c < |s.cores| && s.cores[c].current in s.state
    && if next == s.cores[c].idle then s.cores[c].current == next || s.state[s.cores[c].current] != Running ||
         LevelPop(s.cores[c].levels).0.Some?
       else
         && next in s.threads && s.threads[next].home == c && next in s.state && next in s.at
         && ((s.state[next] == Ready && s.at[next] == InQueue) ||
             (next == s.cores[c].current && s.state[next] == Running))
  }

  lemma PickIs(s: Sys, c: nat)
    requires Inv(s) && Enabled(s, PickNext(c))
    ensures var picked := Pick(s.cores[c].levels, s.state, Priorities(s), s.cores[c].current, s.cores[c].idle);
            && Take(s, PickNext(c)) == Switched(s, c, picked.next, picked.levels)
            && NextOk(s, c, picked.next) && picked.levels == Requeued(s, c).cores[c].levels
            && (LevelPop(s.cores[c].levels).0.Some? ==> picked.next == LevelPop(s.cores[c].levels).0.value)
            && (LevelPop(s.cores[c].levels).0.None? ==>
                  picked.next == if s.state[s.cores[c].current] == Running then s.cores[c].current else s.cores[c].idle)
  {
    UnqueuedOk(s, c);
    assert CoreOk(s, c);
    var prev := s.cores[c].current;
    if prev in s.threads { assert ThreadOk(s, prev); }
  }

  lemma PickOnly(s: Sys, c: nat)
    requires Inv(s) && Enabled(s, PickNext(c))
    ensures var s', m := Take(s, PickNext(c)), Requeued(s, c);
            Only(m, s', s'.cores[c].current)
  {
    UnqueuedOk(s, c);
    PickIs(s, c);
    assert CoreOk(s, c);
    var prev := s.cores[c].current;
    if prev in s.threads { assert ThreadOk(s, prev); }
  }

  lemma PickQueues(s: Sys, c: nat)
    requires Inv(s) && Enabled(s, PickNext(c))
    ensures forall d :: 0 <= d < |s.cores| ==> QueuesAt(Take(s, PickNext(c)), d)
  {
    var s', m := Take(s, PickNext(c)), Requeued(s, c);
    var next := s'.cores[c].current;
    RequeuedOk(s, c);
    PickIs(s, c);
    PickOnly(s, c);
    assert CoreOk(s, c);
    NextOutside(s, c, next);
    forall d | 0 <= d < |s'.cores|
      ensures QueuesAt(s', d)
    {
      Untouched(m, s', d, next);
    }
  }

  /** The next thread is in no queue once the pick has taken it out. */
  lemma NextOutside(s: Sys, c: nat, next: nat)
    requires Inv(s) && Enabled(s, PickNext(c)) && next == Take(s, PickNext(c)).cores[c].current
    ensures forall d: nat :: Outside(Requeued(s, c), next, d) && Outside(Take(s, PickNext(c)), next, d)
  {
    UnqueuedOk(s, c);
    PickIs(s, c);
    assert CoreOk(s, c);
    if next in s.threads { assert ThreadOk(s, next); }
  }

  lemma SwitchThreads(s: Sys, c: nat, next: nat, levels: Levels, t: nat)
    requires Inv(s) && NextOk(s, c, next) && t in s.threads
    ensures ThreadOk(Switched(s, c, next, levels), t)
  {
    assert ThreadOk(s, t);
    assert CoreOk(s, c);
    var prev := s.cores[c].current;
    if prev in s.threads { assert ThreadOk(s, prev); }
  }

  lemma SwitchHands(s: Sys, c: nat, next: nat, levels: Levels, w: nat)
    requires Inv(s) && NextOk(s, c, next) && w in s.hands
    ensures var s' := Switched(s, c, next, levels); s'.hands[w] in s'.at && s'.at[s'.hands[w]] == InHand(w)
  {
    assert ThreadOk(s, s.hands[w]);
    assert CoreOk(s, c);
    var prev := s.cores[c].current;
    if prev in s.threads { assert ThreadOk(s, prev); }
  }

  lemma PickKept(s: Sys, c: nat)
    requires Inv(s) && Enabled(s, PickNext(c))
    ensures Inv(Take(s, PickNext(c)))
  {
    var s' := Take(s, PickNext(c));
    var next, levels := s'.cores[c].current, s'.cores[c].levels;
    PickIs(s, c);
    PickQueues(s, c);
    forall t | t in s'.threads
      ensures ThreadOk(s', t)
    {
      SwitchThreads(s, c, next, levels, t);
    }
    forall w | w in s'.hands
      ensures s'.hands[w] in s'.at && s'.at[s'.hands[w]] == InHand(w)
    {
      SwitchHands(s, c, next, levels, w);
    }
    forall d | 0 <= d < |s'.cores|
      ensures CoreOk(s', d)
    {
      SwitchCores(s, c, next, levels, d);
    }
    SwitchIdles(s, c, next, levels);
  }

  lemma SwitchCores(s: Sys, c: nat, next: nat, levels: Levels, d: nat)
    requires Inv(s) && NextOk(s, c, next) && d < |s.cores| && QueuesAt(Switched(s, c, next, levels), d)
    ensures CoreOk(Switched(s, c, next, levels), d)
  {
    assert CoreOk(s, d) && CoreOk(s, c);
  }

  lemma SwitchIdles(s: Sys, c: nat, next: nat, levels: Levels)
    requires Inv(s) && NextOk(s, c, next)
    ensures var s' := Switched(s, c, next, levels);
            && s'.at.Keys == s'.threads.Keys
            && forall d, e :: 0 <= d < e < |s'.cores| ==> s'.cores[d].idle != s'.cores[e].idle
  {
    assert CoreOk(s, c);
  }

  lemma StepKept(s: Sys, step: Step)
    requires Inv(s) && Enabled(s, step)
    ensures Inv(Take(s, step))
  {
    match step
    case Stop(_, _) => StopKept(s, step);
    case WakeBegin(_, _) => WakeBeginKept(s, step);
    case WakeEnd(_, _) => WakeEndKept(s, step);
    case DrainOne(_) => DrainKept(s, step);
    case PickNext(c) => PickKept(s, c);
    case Spawn(_, _, _) => SpawnKept(s, step);
  }

  // ---------------------------------------------------------------- what follows

  function Run(s: Sys, steps: seq<Step>): Sys
    requires Legal(s, steps)
    decreases |steps|
  {
    if steps == [] then s else Run(Take(s, steps[0]), steps[1..])
  }

  predicate Legal(s: Sys, steps: seq<Step>)
    decreases |steps|
  {
    steps == [] || (Enabled(s, steps[0]) && Legal(Take(s, steps[0]), steps[1..]))
  }

  lemma {:induction false} EveryRunKept(s: Sys, steps: seq<Step>)
    requires Inv(s) && Legal(s, steps)
    ensures Inv(Run(s, steps))
    decreases |steps|
  {
    if steps != [] {
      StepKept(s, steps[0]);
      EveryRunKept(Take(s, steps[0]), steps[1..]);
    }
  }

  predicate OnQueue(s: Sys, t: nat, c: int, p: int) {
    0 <= c < |s.cores| && 0 <= p < LEVELS && t in s.cores[c].levels[p]
  }

  predicate OnMail(s: Sys, t: nat, c: int) { 0 <= c < |s.cores| && t in s.cores[c].mail }

  predicate Held(s: Sys, t: nat, w: nat) { w in s.hands && s.hands[w] == t }

  /** A runnable thread is in one place and a stopped one in none, whatever queue of whatever core one looks at. */
  lemma OnePlace(s: Sys, t: nat)
    requires Inv(s) && t in s.threads
    ensures var home, p := s.threads[t].home, s.threads[t].priority;
            && (forall c, q :: OnQueue(s, t, c, q) ==> c == home && q == p)
            && (forall c :: OnMail(s, t, c) ==> c == home)
            && (s.state[t] == Running ==>
                  s.cores[home].current == t && !OnQueue(s, t, home, p) && !OnMail(s, t, home) &&
                    forall w: nat :: !Held(s, t, w))
            && (s.state[t] == Ready && OnQueue(s, t, home, p) ==>
                  !OnMail(s, t, home) && forall w: nat :: !Held(s, t, w))
            && (s.state[t] == Ready && OnMail(s, t, home) ==> forall w: nat :: !Held(s, t, w))
            && (s.state[t] == Ready ==> OnQueue(s, t, home, p) || OnMail(s, t, home) || exists w: nat :: Held(s, t, w))
            && (forall w: nat, v: nat :: Held(s, t, w) && Held(s, t, v) ==> w == v)
            && (s.state[t] == Blocked || s.state[t] == Terminated ==>
                  !OnQueue(s, t, home, p) && !OnMail(s, t, home) && forall w: nat :: !Held(s, t, w))
  {
    assert ThreadOk(s, t);
    forall c: nat, q: nat | c < |s.cores| && q < LEVELS
      ensures OnQueue(s, t, c, q) <==> Belongs(s, t, c, q)
    {
      assert CoreOk(s, c) && LevelOk(s, c, q);
    }
    forall c: nat | c < |s.cores|
      ensures OnMail(s, t, c) <==> s.at[t] == InMail && s.threads[t].home == c
    {
      assert CoreOk(s, c);
    }
    assert CoreOk(s, s.threads[t].home) && LevelOk(s, s.threads[t].home, s.threads[t].priority);
    if s.state[t] == Ready && s.at[t].InHand? { assert Held(s, t, s.at[t].waker); }
  }

  /** A waker on the thread's own core puts it at the end of its level; any other posts it as the last letter to that
      core. No other queue, mailbox or running thread changes. */
  lemma WakeLands(s: Sys, w: nat, c: nat)
    requires Inv(s) && Enabled(s, WakeEnd(w, c))
    ensures var t, s' := s.hands[w], Take(s, WakeEnd(w, c));
            var thread := s.threads[t];
            && |s'.cores| == |s.cores| && s'.state == s.state && t in s.state && s.state[t] == Ready && w !in s'.hands
            && (forall d :: 0 <= d < |s.cores| ==>
                  s'.cores[d].current == s.cores[d].current && s'.cores[d].idle == s.cores[d].idle)
            && (forall d :: 0 <= d < |s.cores| ==>
                  s'.cores[d].mail ==
                  if d == thread.home && c != thread.home then s.cores[d].mail + [t] else s.cores[d].mail)
            && (forall d, p :: 0 <= d < |s.cores| && 0 <= p < LEVELS ==>
                  s'.cores[d].levels[p] ==
                  if d == c == thread.home && p == thread.priority then s.cores[d].levels[p] + [t]
                  else s.cores[d].levels[p])
  {
    assert ThreadOk(s, s.hands[w]);
  }

  /** The thread a core runs next is, of those in its queue, one with the least priority number. */
  lemma MostUrgentRuns(s: Sys, c: nat, t: nat)
    requires Inv(s) && Enabled(s, PickNext(c)) && t in s.threads && s.at[t] == InQueue && s.threads[t].home == c
    ensures var next := Take(s, PickNext(c)).cores[c].current;
            && next in s.threads && s.at[next] == InQueue && s.threads[next].home == c
            && s.threads[next].priority <= s.threads[t].priority
  {
    var levels := s.cores[c].levels;
    PickIs(s, c);
    UnqueuedOk(s, c);
    PopsFirst(levels);
    assert CoreOk(s, c) && ThreadOk(s, t);
    assert LevelOk(s, c, s.threads[t].priority) && Belongs(s, t, c, s.threads[t].priority);
    var p :| FirstOf(levels, LevelPop(levels).1, p, LevelPop(levels).0.value);
    assert LevelOk(s, c, p) && levels[p][0] in levels[p];
  }

  /** A core goes idle only when its queue is empty and the thread it ran cannot go on. */
  lemma IdleOnlyWithoutWork(s: Sys, c: nat)
    requires Inv(s) && Enabled(s, PickNext(c)) && Take(s, PickNext(c)).cores[c].current == s.cores[c].idle
    ensures forall t :: t in s.threads && s.threads[t].home == c ==> s.state[t] != Running && s.at[t] != InQueue
  {
    PickIs(s, c);
    UnqueuedOk(s, c);
    assert CoreOk(s, c);
    assert LevelPop(s.cores[c].levels).0.None?;
    forall t | t in s.threads && s.threads[t].home == c
      ensures s.state[t] != Running && s.at[t] != InQueue
    {
      assert ThreadOk(s, t);
      assert LevelOk(s, c, s.threads[t].priority);
      assert s.cores[c].levels[s.threads[t].priority] == [];
      assert Belongs(s, t, c, s.threads[t].priority) <==> t in s.cores[c].levels[s.threads[t].priority];
    }
  }

  lemma CanDrain(s: Sys, c: nat)
    requires Inv(s) && c < |s.cores| && s.cores[c].mail != []
    ensures Enabled(s, DrainOne(c)) && Inv(Take(s, DrainOne(c)))
  {
    assert CoreOk(s, c) && s.cores[c].mail[0] in s.cores[c].mail;
    assert ThreadOk(s, s.cores[c].mail[0]);
    StepKept(s, DrainOne(c));
  }

  /** The mailbox loop of `schedule`, undisturbed. */
  ghost function Drained(s: Sys, c: nat): Sys
    requires Inv(s) && c < |s.cores|
    decreases if c < |s.cores| then |s.cores[c].mail| else 0
  {
    if s.cores[c].mail == [] then s else CanDrain(s, c); Drained(Take(s, DrainOne(c)), c)
  }

  lemma {:induction false} DrainedFacts(s: Sys, c: nat, t: nat)
    requires Inv(s) && c < |s.cores| && t in s.threads
    ensures var s' := Drained(s, c);
            && Inv(s') && s'.threads == s.threads && |s'.cores| == |s.cores|
            && s'.cores[c].mail == [] && s'.cores[c].current == s.cores[c].current &&
                 s'.cores[c].idle == s.cores[c].idle
            && s'.state[t] == s.state[t]
            && s'.at[t] == if s.at[t] == InMail && s.threads[t].home == c then InQueue else s.at[t]
    decreases |s.cores[c].mail|
  {
    assert CoreOk(s, c) && ThreadOk(s, t);
    assert t in s.cores[c].mail <==> s.at[t] == InMail && s.threads[t].home == c;
    if s.cores[c].mail != [] {
      CanDrain(s, c);
      assert s.cores[c].mail[0] in s.cores[c].mail && ThreadOk(s, s.cores[c].mail[0]);
      DrainedFacts(Take(s, DrainOne(c)), c, t);
    }
  }

  lemma CanPick(s: Sys, c: nat)
    requires Inv(s) && c < |s.cores|
    ensures Enabled(s, PickNext(c))
  {
    assert CoreOk(s, c);
    if s.cores[c].current in s.threads { assert ThreadOk(s, s.cores[c].current); }
  }

  predicate Runnable(s: Sys, t: nat) {
    t in s.threads && t in s.state && (s.state[t] == Ready || s.state[t] == Running)
  }

  /** A step that does not stop the thread leaves it runnable on its home core. */
  lemma StaysRunnable(s: Sys, step: Step, t: nat)
    requires Inv(s) && Enabled(s, step) && Runnable(s, t) && !(step.Stop? && s.cores[step.core].current == t)
    ensures Runnable(Take(s, step), t) && Take(s, step).threads[t] == s.threads[t]
  {
    assert ThreadOk(s, t);
  }

  /** No step of the run stops the thread. */
  predicate NeverStopped(s: Sys, steps: seq<Step>, t: nat)
    requires Legal(s, steps)
    decreases |steps|
  {
    steps == [] ||
    (!(steps[0].Stop? && s.cores[steps[0].core].current == t) && NeverStopped(Take(s, steps[0]), steps[1..], t))
  }

  lemma {:induction false} RunnableAlong(s: Sys, steps: seq<Step>, t: nat)
    requires Inv(s) && Legal(s, steps) && NeverStopped(s, steps, t) && Runnable(s, t)
    ensures Inv(Run(s, steps)) && Runnable(Run(s, steps), t) && Run(s, steps).threads[t] == s.threads[t]
    ensures |Run(s, steps).cores| == |s.cores|
    decreases |steps|
  {
    if steps != [] {
      var next := Take(s, steps[0]);
      StaysRunnable(s, steps[0], t);
      StepKept(s, steps[0]);
      assert Legal(next, steps[1..]) && NeverStopped(next, steps[1..], t);
      RunnableAlong(next, steps[1..], t);
    }
  }

  /** A runnable thread that no waker is still carrying runs next or waits in its level once its core has scheduled. */
  lemma RunnableIsServed(s: Sys, c: nat, t: nat)
    requires Inv(s) && c < |s.cores| && Runnable(s, t) && s.threads[t].home == c && !s.at[t].InHand?
    ensures Inv(Drained(s, c)) && Enabled(Drained(s, c), PickNext(c))
    ensures var s' := Take(Drained(s, c), PickNext(c));
            && Runnable(s', t) && (s'.state[t] == Running ==> s'.cores[c].current == t)
            && (s'.state[t] == Ready ==> OnQueue(s', t, c, s.threads[t].priority))
  {
    var drained := Drained(s, c);
    DrainedFacts(s, c, t);
    CanPick(drained, c);
    PickedWhere(drained, c, t);
  }

  lemma PickedWhere(s: Sys, c: nat, t: nat)
    requires Inv(s) && Enabled(s, PickNext(c)) && Runnable(s, t) && s.threads[t].home == c
    requires s.at[t] == InQueue || s.at[t] == OnCpu
    ensures var s' := Take(s, PickNext(c));
            && Runnable(s', t) && (s'.state[t] == Running ==> s'.cores[c].current == t)
            && (s'.state[t] == Ready ==> OnQueue(s', t, c, s.threads[t].priority))
  {
    PickKept(s, c);
    StaysRunnable(s, PickNext(c), t);
    PickedPlace(s, c, t);
    RunnablePlace(Take(s, PickNext(c)), c, t);
  }

  lemma PickedPlace(s: Sys, c: nat, t: nat)
    requires Inv(s) && Enabled(s, PickNext(c)) && t in s.threads && (s.at[t] == InQueue || s.at[t] == OnCpu)
    ensures var s' := Take(s, PickNext(c)); t in s'.at && (s'.at[t] == InQueue || s'.at[t] == OnCpu)
    ensures |Take(s, PickNext(c)).cores| == |s.cores|
  {
  }

  lemma RunnablePlace(s: Sys, c: nat, t: nat)
    requires Inv(s) && c < |s.cores| && Runnable(s, t) && s.threads[t].home == c
    requires (s.at[t] == InQueue || s.at[t] == OnCpu)
    ensures s.cores[c].current == t || OnQueue(s, t, c, s.threads[t].priority)
    ensures s.state[t] == Running ==> s.cores[c].current == t
    ensures s.state[t] == Ready ==> OnQueue(s, t, c, s.threads[t].priority)
  {
    assert ThreadOk(s, t) && CoreOk(s, c) && LevelOk(s, c, s.threads[t].priority);
    assert t in s.cores[c].levels[s.threads[t].priority] <==> Belongs(s, t, c, s.threads[t].priority);
  }

  /**
   A wake-up is never lost: from the waker's store on, in any run of any cores that does not stop the thread again,
   in particular while the thread is still on its way into its own `schedule`, it stays runnable in one place, and
   once no waker carries it the next schedule of its core runs it or leaves it in its level.
   */
  lemma WakeIsKept(s: Sys, w: nat, t: nat, steps: seq<Step>)
    requires Inv(s) && Enabled(s, WakeBegin(w, t)) && Legal(Take(s, WakeBegin(w, t)), steps)
    requires NeverStopped(Take(s, WakeBegin(w, t)), steps, t)
    ensures var s' := Run(Take(s, WakeBegin(w, t)), steps); var c := s.threads[t].home;
            && Inv(s') && Runnable(s', t) && c < |s'.cores| && s'.threads[t] == s.threads[t]
            && (!s'.at[t].InHand? ==>
                  && Inv(Drained(s', c)) && Enabled(Drained(s', c), PickNext(c))
                  && var after := Take(Drained(s', c), PickNext(c));
                     after.cores[c].current == t || OnQueue(after, t, c, s.threads[t].priority))
  {
    var s1 := Take(s, WakeBegin(w, t));
    assert ThreadOk(s, t);
    StepKept(s, WakeBegin(w, t));
    RunnableAlong(s1, steps, t);
    var s' := Run(s1, steps);
    assert ThreadOk(s', t);
    if !s'.at[t].InHand? { RunnableIsServed(s', s.threads[t].home, t); }
  }

  // ---------------------------------------------------------------- the protocol and the class

  lemma PrioritiesSame(s: Sys, c: nat)
    requires Inv(s) && c < |s.cores|
    ensures MailOk(s.cores[c].mail, Priorities(s))
  {
    assert CoreOk(s, c);
    forall t | t in s.cores[c].mail
      ensures t in Priorities(s) && Priorities(s)[t] < LEVELS
    {
      assert ThreadOk(s, t);
    }
  }

  /** Draining step by step is the drain that `SchedulerState.Schedule` computes, so that its pick is this one. */
  lemma {:induction false} DrainedIsDrain(s: Sys, c: nat)
    requires Inv(s) && c < |s.cores|
    ensures MailOk(s.cores[c].mail, Priorities(s)) && |Drained(s, c).cores| == |s.cores|
    ensures Drained(s, c).threads == s.threads
    ensures Drained(s, c).cores[c].levels == Drain(s.cores[c].levels, s.cores[c].mail, Priorities(s))
    ensures Drained(s, c).state == Readied(s.state, s.cores[c].mail)
    decreases |s.cores[c].mail|
  {
    PrioritiesSame(s, c);
    if s.cores[c].mail != [] {
      CanDrain(s, c);
      var s' := Take(s, DrainOne(c));
      assert Priorities(s') == Priorities(s);
      DrainedIsDrain(s', c);
    }
  }

  // ---------------------------------------------------------------- the start

  /**
   Every core runs its one bootstrap thread beside an idle thread of its own, with empty queues and no wake under way.
   */
  ghost predicate Initial(s: Sys) {
    && s.hands == map[] && s.at.Keys == s.threads.Keys
    && (forall c :: 0 <= c < |s.cores| ==> InitialCore(s, c))
    && (forall c, d :: 0 <= c < d < |s.cores| ==> s.cores[c].idle != s.cores[d].idle)
    && (forall t :: t in s.threads ==> InitialThread(s, t))
  }

  ghost predicate InitialCore(s: Sys, c: nat)
    requires c < |s.cores|
  {
    var core := s.cores[c];
    && core.mail == [] && (forall p :: 0 <= p < LEVELS ==> core.levels[p] == [])
    && core.current in s.threads && s.threads[core.current].home == c && core.current in s.state
    && core.idle !in s.threads && core.idle in s.state
  }

  ghost predicate InitialThread(s: Sys, t: nat)
    requires t in s.threads && s.at.Keys == s.threads.Keys
  {
    && s.threads[t].home < |s.cores| && s.threads[t].priority < LEVELS && s.cores[s.threads[t].home].current == t
    && t in s.state && s.state[t] == Running && s.at[t] == OnCpu
  }

  lemma InitialInv(s: Sys)
    requires Initial(s)
    ensures Inv(s)
  {
    forall t | t in s.threads
      ensures ThreadOk(s, t) && s.at[t] == OnCpu
    {
      assert InitialThread(s, t);
    }
    forall c | 0 <= c < |s.cores|
      ensures CoreOk(s, c)
    {
      assert InitialCore(s, c);
      forall p | 0 <= p < LEVELS
        ensures LevelOk(s, c, p)
      {
        assert s.cores[c].levels[p] == [];
      }
    }
  }

  /** One core, bootstrap thread 1, idle thread 2. */
  lemma OneCoreStarts()
    ensures Initial(Sys(map[1 := Thread(0, 0)], map[1 := Running, 2 := Ready], [Core(seq(LEVELS, p => []), [], 1, 2)],
                        map[], map[1 := OnCpu]))
  {
  }
}
