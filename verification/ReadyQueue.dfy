/**
 One core's scheduler: the 32-level ready queue with its bitmap, the mailbox, and `schedule`. Threads
 are numbered from 1, 0 being the null pointer; a thread's one `next` field links it into whichever
 queue it is on.
 */
module ReadyQueue {
  import opened Wrappers

  const LEVELS: nat := 32

  datatype ThreadState = Running | Ready | Blocked | Terminated

  /** The threads of each priority, first come first. */
  type Levels = s: seq<seq<nat>> | |s| == LEVELS witness seq(32, i => [])

  // ---------------------------------------------------------------- queues as sequences

  function LevelPush(levels: Levels, p: nat, item: nat): Levels
    requires p < LEVELS
  {
    levels[p := levels[p] + [item]]
  }

  /** The lowest non-empty level, or 32. */
  function Lowest(levels: Levels, from: nat): (p: nat)
    requires from <= LEVELS
    ensures from <= p <= LEVELS && (p < LEVELS ==> levels[p] != []) && forall q :: from <= q < p ==> levels[q] == []
    decreases LEVELS - from
  {
    if from == LEVELS || levels[from] != [] then from else Lowest(levels, from + 1)
  }

  function LevelPop(levels: Levels): (Option<nat>, Levels) {
    var p := Lowest(levels, 0);
    if p == LEVELS then (None, levels) else (Some(levels[p][0]), levels[p := levels[p][1..]])
  }

  /** Thread t was the first of level p, no level below p had any, and it alone is gone. */
  predicate FirstOf(was: Levels, now: Levels, p: int, t: nat) {
    && 0 <= p < LEVELS && was[p] != [] && t == was[p][0] && now == was[p := was[p][1..]]
    && forall q :: 0 <= q < p ==> was[q] == []
  }

  lemma PopsFirst(levels: Levels)
    ensures LevelPop(levels).0.None? <==> forall p :: 0 <= p < LEVELS ==> levels[p] == []
    ensures LevelPop(levels).0.None? ==> LevelPop(levels).1 == levels
    ensures LevelPop(levels).0.Some? ==> exists p :: FirstOf(levels, LevelPop(levels).1, p, LevelPop(levels).0.value)
  {
    var p := Lowest(levels, 0);
    if p < LEVELS { assert FirstOf(levels, LevelPop(levels).1, p, levels[p][0]); }
  }

  function Total(levels: seq<seq<nat>>): nat {
    if levels == [] then 0 else |levels[0]| + Total(levels[1..])
  }

  lemma {:induction false} TotalUpdate(levels: seq<seq<nat>>, p: nat, items: seq<nat>)
    requires p < |levels|
    ensures Total(levels[p := items]) == Total(levels) - |levels[p]| + |items|
    decreases |levels|
  {
    if p == 0 {
      assert levels[p := items][1..] == levels[1..];
    } else {
      assert levels[p := items][1..] == levels[1..][p - 1 := items];
      TotalUpdate(levels[1..], p - 1, items);
    }
  }

  /** Everything in the mailbox goes to the end of its level, in order. */
  function Drain(levels: Levels, mail: seq<nat>, priority: map<nat, nat>): Levels
    requires forall t :: t in mail ==> t in priority && priority[t] < LEVELS
    decreases |mail|
  {
    if mail == [] then levels
    else Drain(LevelPush(levels, priority[mail[0]], mail[0]), mail[1..], priority)
  }

  /** Ready after leaving the mailbox. */
  function Readied(state: map<nat, ThreadState>, mail: seq<nat>): map<nat, ThreadState>
    decreases |mail|
  {
    if mail == [] then state else Readied(state[mail[0] := Ready], mail[1..])
  }

  /** What `schedule` picks once the mailbox is empty: the next thread, the queue and the states it leaves. */
  datatype Picked = Picked(next: nat, levels: Levels, state: map<nat, ThreadState>)

  function Pick(levels: Levels, state: map<nat, ThreadState>, priority: map<nat, nat>, current: nat, idle: nat): Picked
    requires current in state && (current != idle ==> current in priority && priority[current] < LEVELS)
  {
    var (popped, rest) := LevelPop(levels);
    var running := state[current] == Running;
    var next := if popped.Some? then popped.value else if running then current else idle;
    var requeue := running && current != idle && current != next;
    Picked(next,
           if requeue then LevelPush(rest, priority[current], current) else rest,
           (if running then state[current := Ready] else state)[next := Running])
  }

  // ---------------------------------------------------------------- first come, first served

  datatype QueueOp = PushOp(level: nat, item: nat) | PopOp

  /** The threads that come out of the queue, in order, in a run of pushes and pops. */
  function Outs(levels: Levels, ops: seq<QueueOp>): seq<nat>
    requires forall i :: 0 <= i < |ops| && ops[i].PushOp? ==> ops[i].level < LEVELS
    decreases |ops|
  {
    if ops == [] then []
    else if ops[0].PushOp? then Outs(LevelPush(levels, ops[0].level, ops[0].item), ops[1..])
    else
      var (popped, rest) := LevelPop(levels);
      (if popped.Some? then [popped.value] else []) + Outs(rest, ops[1..])
  }

  /** In one level t comes before u, and u is queued nowhere else. */
  ghost predicate Ahead(levels: Levels, p: nat, t: nat, u: nat) {
    && p < LEVELS
    && (exists i, j :: 0 <= i < j < |levels[p]| && levels[p][i] == t && levels[p][j] == u)
    && (forall q, i, j :: 0 <= q < LEVELS && 0 <= i < |levels[q]| && levels[q][i] == u ==>
          q == p && (0 <= j < |levels[p]| && levels[p][j] == u ==> i == j))
  }

  /** A thread pushed behind another of its level is behind it. */
  lemma PushedBehind(levels: Levels, p: nat, t: nat, u: nat)
    requires p < LEVELS && t in levels[p] && forall q :: 0 <= q < LEVELS ==> u !in levels[q]
    ensures Ahead(LevelPush(levels, p, u), p, t, u)
  {
    var now := LevelPush(levels, p, u);
    var i :| 0 <= i < |levels[p]| && levels[p][i] == t;
    assert now[p][i] == t && now[p][|levels[p]|] == u;
    forall q, i | 0 <= q < LEVELS && 0 <= i < |levels[q]|
      ensures now[q][i] == levels[q][i] != u
    {
      assert levels[q][i] in levels[q];
    }
  }

  lemma StaysAhead(levels: Levels, p: nat, t: nat, u: nat, op: QueueOp)
    requires Ahead(levels, p, t, u) && (op.PushOp? ==> op.level < LEVELS && op.item != u)
    ensures op.PushOp? ==> Ahead(LevelPush(levels, op.level, op.item), p, t, u)
    ensures op.PopOp? ==> LevelPop(levels).0.Some? && LevelPop(levels).0.value != u
    ensures op.PopOp? && LevelPop(levels).0.value != t ==> Ahead(LevelPop(levels).1, p, t, u)
  {
    var i, j :| 0 <= i < j < |levels[p]| && levels[p][i] == t && levels[p][j] == u;
    if op.PushOp? {
      var now := LevelPush(levels, op.level, op.item);
      assert now[p][i] == t && now[p][j] == u;
    } else {
      PopAhead(levels, p, t, u, i, j);
    }
  }

  lemma PopAhead(levels: Levels, p: nat, t: nat, u: nat, i: nat, j: nat)
    requires Ahead(levels, p, t, u) && i < j < |levels[p]| && levels[p][i] == t && levels[p][j] == u
    ensures LevelPop(levels).0.Some? && LevelPop(levels).0.value != u
    ensures LevelPop(levels).0.value != t ==> Ahead(LevelPop(levels).1, p, t, u)
  {
    PopsFirst(levels);
    var now := LevelPop(levels).1;
    var l :| FirstOf(levels, now, l, LevelPop(levels).0.value);
    assert levels[l][0] == u ==> l == p && 0 == j;
    if levels[l][0] != t {
      if l == p {
        assert now[p][i - 1] == t && now[p][j - 1] == u;
      } else {
        assert now[p][i] == t && now[p][j] == u;
      }
      forall q, k | 0 <= q < LEVELS && 0 <= k < |now[q]| && now[q][k] == u
        ensures q == p && k == if l == p then j - 1 else j
      {
        assert levels[q][if q == l then k + 1 else k] == u;
      }
    }
  }

  /** Whatever else is pushed and popped, of two threads of one level the one that came first comes out first. */
  lemma {:induction false} FirstInFirstOut(levels: Levels, p: nat, t: nat, u: nat, ops: seq<QueueOp>, n: nat)
    requires Ahead(levels, p, t, u)
    requires forall i :: 0 <= i < |ops| && ops[i].PushOp? ==> ops[i].level < LEVELS && ops[i].item != u
    requires n < |Outs(levels, ops)| && Outs(levels, ops)[n] == u
    ensures exists m :: 0 <= m < n && Outs(levels, ops)[m] == t
    decreases |ops|
  {
    StaysAhead(levels, p, t, u, ops[0]);
    if ops[0].PushOp? {
      FirstInFirstOut(LevelPush(levels, ops[0].level, ops[0].item), p, t, u, ops[1..], n);
    } else {
      var (popped, rest) := LevelPop(levels);
      assert Outs(levels, ops) == [popped.value] + Outs(rest, ops[1..]);
      if popped.value == t {
        assert Outs(levels, ops)[0] == t;
      } else {
        FirstInFirstOut(rest, p, t, u, ops[1..], n - 1);
        var m :| 0 <= m < n - 1 && Outs(rest, ops[1..])[m] == t;
        assert Outs(levels, ops)[m + 1] == t;
      }
    }
  }

  // ---------------------------------------------------------------- chains of next fields

  function Nth(items: seq<nat>, i: int): nat {
    if 0 <= i < |items| then items[i] else 0
  }

  predicate LinkAt(next: map<nat, nat>, items: seq<nat>, i: int)
    requires 0 <= i < |items|
  {
    items[i] in next && next[items[i]] == Nth(items, i + 1)
  }

  /** head and tail are the ends of a chain of next fields through exactly these threads. */
  predicate Chained(next: map<nat, nat>, head: nat, tail: nat, items: seq<nat>) {
    && 0 !in items && head == Nth(items, 0) && tail == Nth(items, |items| - 1)
    && (forall i, j :: 0 <= i < j < |items| ==> items[i] != items[j])
    && (forall i {:trigger LinkAt(next, items, i)} :: 0 <= i < |items| ==> LinkAt(next, items, i))
  }

  lemma ChainedKept(next: map<nat, nat>, next': map<nat, nat>, head: nat, tail: nat, items: seq<nat>)
    requires Chained(next, head, tail, items)
    requires forall t :: t in items && t in next ==> t in next' && next'[t] == next[t]
    ensures Chained(next', head, tail, items)
  {
    forall i | 0 <= i < |items|
      ensures LinkAt(next', items, i)
    {
      assert LinkAt(next, items, i);
    }
  }

  /** The next fields after the push of both queue kinds. */
  function Appended(next: map<nat, nat>, tail: nat, item: nat): map<nat, nat> {
    if tail == 0 then next[item := 0] else next[item := 0][tail := item]
  }

  lemma ChainedPush(next: map<nat, nat>, head: nat, tail: nat, items: seq<nat>, item: nat)
    requires Chained(next, head, tail, items) && item !in items && item != 0
    ensures Chained(Appended(next, tail, item), if tail == 0 then item else head, item, items + [item])
  {
    var all := items + [item];
    forall i | 0 <= i < |all|
      ensures LinkAt(Appended(next, tail, item), all, i)
    {
      if i < |items| - 1 { assert LinkAt(next, items, i); }
    }
  }

  lemma ChainedPop(next: map<nat, nat>, head: nat, tail: nat, items: seq<nat>)
    requires Chained(next, head, tail, items) && items != []
    ensures head != 0 && head in next && (next[head] == 0 <==> |items| == 1)
    ensures Chained(next[head := 0], next[head], if next[head] == 0 then 0 else tail, items[1..])
  {
    assert LinkAt(next, items, 0);
    var next', rest := next[head := 0], items[1..];
    forall i | 0 <= i < |rest|
      ensures LinkAt(next', rest, i)
    {
      assert LinkAt(next, items, i + 1);
    }
  }

  // ---------------------------------------------------------------- all queues of a core

  /** The chain of level p. */
  predicate LevelAt(next: map<nat, nat>, heads: seq<nat>, tails: seq<nat>, levels: Levels, p: int)
    requires 0 <= p < LEVELS == |heads| == |tails|
  {
    Chained(next, heads[p], tails[p], levels[p])
  }

  predicate QueuesOk(next: map<nat, nat>, heads: seq<nat>, tails: seq<nat>, levels: Levels, mailHead: nat,
                     mailTail: nat,
                     mail: seq<nat>, priority: map<nat, nat>)
  {
    && LEVELS == |heads| == |tails|
    && (forall p {:trigger LevelAt(next, heads, tails, levels, p)} :: 0 <= p < LEVELS ==>
          LevelAt(next, heads, tails, levels, p))
    && Chained(next, mailHead, mailTail, mail)
    && (forall p, t :: 0 <= p < LEVELS && t in levels[p] ==> t in priority && priority[t] == p && t !in mail)
    && (forall t :: t in mail ==> t in priority && priority[t] < LEVELS)
  }

  predicate Queued(levels: Levels, mail: seq<nat>, t: nat) {
    t in mail || exists p :: 0 <= p < LEVELS && t in levels[p]
  }

  lemma PushQueues(next: map<nat, nat>, heads: seq<nat>, tails: seq<nat>, levels: Levels, mailHead: nat, mailTail: nat,
                   mail: seq<nat>, priority: map<nat, nat>, item: nat)
    requires QueuesOk(next, heads, tails, levels, mailHead, mailTail, mail, priority)
    requires item != 0 && item in priority && priority[item] < LEVELS && !Queued(levels, mail, item)
    ensures var p := priority[item];
            QueuesOk(Appended(next, tails[p], item), if tails[p] == 0 then heads[p := item]
                       else heads, tails[p := item],
                     LevelPush(levels, p, item), mailHead, mailTail, mail, priority)
  {
    var p := priority[item];
    var next', heads', tails', levels' := Appended(next, tails[p], item), if tails[p] == 0 then heads[p := item]
    else heads, tails[p := item], LevelPush(levels, p, item);
    assert LevelAt(next, heads, tails, levels, p);
    assert tails[p] != 0 ==> tails[p] in levels[p];
    forall q | 0 <= q < LEVELS
      ensures LevelAt(next', heads', tails', levels', q)
    {
      assert LevelAt(next, heads, tails, levels, q);
      if q == p {
        ChainedPush(next, heads[p], tails[p], levels[p], item);
      } else {
        assert item !in levels[q];
        if tails[p] != 0 { assert tails[p] in levels[p] && priority[tails[p]] == p; }
        ChainedKept(next, next', heads[q], tails[q], levels[q]);
      }
    }
    ChainedKept(next, next', mailHead, mailTail, mail);
  }

  lemma PopQueues(next: map<nat, nat>, heads: seq<nat>, tails: seq<nat>, levels: Levels, mailHead: nat, mailTail: nat,
                  mail: seq<nat>, priority: map<nat, nat>, p: nat)
    requires QueuesOk(next, heads, tails, levels, mailHead, mailTail, mail, priority) && p < LEVELS && levels[p] != []
    ensures var t := levels[p][0];
            && t == heads[p] && t != 0 && t in next && (next[t] == 0 <==> |levels[p]| == 1)
            && QueuesOk(next[t := 0], heads[p := next[t]], if next[t] == 0 then tails[p := 0]
                          else tails, levels[p := levels[p][1..]],
                        mailHead, mailTail, mail, priority)
            && !Queued(levels[p := levels[p][1..]], mail, t)
  {
    var t := levels[p][0];
    assert LevelAt(next, heads, tails, levels, p);
    assert t in levels[p] && priority[t] == p;
    ChainedPop(next, heads[p], tails[p], levels[p]);
    var next', heads', tails', levels' := next[t := 0], heads[p := next[t]], if next[t] == 0 then tails[p := 0]
    else tails, levels[p := levels[p][1..]];
    forall q | 0 <= q < LEVELS
      ensures LevelAt(next', heads', tails', levels', q)
    {
      assert LevelAt(next, heads, tails, levels, q);
      if q != p {
        assert t !in levels[q];
        ChainedKept(next, next', heads[q], tails[q], levels[q]);
      }
    }
    assert t !in mail;
    ChainedKept(next, next', mailHead, mailTail, mail);
  }

  lemma MailPushQueues(next: map<nat, nat>, heads: seq<nat>, tails: seq<nat>, levels: Levels, mailHead: nat,
                       mailTail: nat,
                       mail: seq<nat>, priority: map<nat, nat>, item: nat)
    requires QueuesOk(next, heads, tails, levels, mailHead, mailTail, mail, priority)
    requires item != 0 && item in priority && priority[item] < LEVELS && !Queued(levels, mail, item)
    ensures QueuesOk(Appended(next, mailTail, item), heads, tails, levels, if mailTail == 0 then item
                       else mailHead, item, mail + [item], priority)
  {
    var next' := Appended(next, mailTail, item);
    assert mailTail != 0 ==> mailTail in mail;
    forall q | 0 <= q < LEVELS
      ensures LevelAt(next', heads, tails, levels, q)
    {
      assert LevelAt(next, heads, tails, levels, q);
      ChainedKept(next, next', heads[q], tails[q], levels[q]);
    }
    ChainedPush(next, mailHead, mailTail, mail, item);
  }

  lemma MailPopQueues(next: map<nat, nat>, heads: seq<nat>, tails: seq<nat>, levels: Levels, mailHead: nat,
                      mailTail: nat,
                      mail: seq<nat>, priority: map<nat, nat>)
    requires QueuesOk(next, heads, tails, levels, mailHead, mailTail, mail, priority) && mail != []
    ensures var t := mail[0];
            && t == mailHead && t != 0 && t in next
            && QueuesOk(next[t := 0], heads, tails, levels, next[t], if next[t] == 0 then 0
                          else mailTail, mail[1..], priority)
            && !Queued(levels, mail[1..], t)
  {
    var t := mail[0];
    assert t in mail;
    ChainedPop(next, mailHead, mailTail, mail);
    var next' := next[t := 0];
    assert forall u :: u in mail[1..] ==> u in mail;
    forall q | 0 <= q < LEVELS
      ensures LevelAt(next', heads, tails, levels, q)
    {
      assert LevelAt(next, heads, tails, levels, q);
      ChainedKept(next, next', heads[q], tails[q], levels[q]);
    }
  }

  // ---------------------------------------------------------------- the scheduler of a core

  class SchedulerState {
    const heads: array<nat>
    const tails: array<nat>
    /** Bit p of `active_priorities`. */
    var active: seq<bool>
    var queueLength: nat
    var mailHead: nat
    var mailTail: nat
    var mailLength: nat
    /** The fields of the threads of this core. */
    var next: map<nat, nat>
    var state: map<nat, ThreadState>
    const priority: map<nat, nat>
    const idle: nat
    var current: nat
    ghost var levels: Levels
    ghost var mail: seq<nat>

    /** The queues are chained, the bitmap marks the non-empty levels and the counters count. */
    ghost predicate Valid()
      reads this, heads, tails
    {
      && heads != tails && QueuesOk(next, heads[..], tails[..], levels, mailHead, mailTail, mail, priority)
      && |active| == LEVELS && (forall p :: 0 <= p < LEVELS ==> (active[p] <==> levels[p] != []))
      && queueLength == Total(levels) && mailLength == |mail|
    }

    constructor (priority: map<nat, nat>, idle: nat, current: nat)
      requires current in priority
      ensures Valid() && levels == seq(LEVELS, i => []) && mail == [] && this.current == current && this.idle == idle
      ensures this.priority == priority && state == map[current := Running, idle := Ready]
    {
      heads := new nat[LEVELS](i => 0);
      tails := new nat[LEVELS](i => 0);
      active := seq(LEVELS, i => false);
      queueLength, mailHead, mailTail, mailLength := 0, 0, 0, 0;
      next, state := map[], map[current := Running, idle := Ready];
      this.priority, this.idle, this.current := priority, idle, current;
      levels, mail := seq(LEVELS, i => []), [];
      new;
      forall p | 0 <= p < LEVELS
        ensures LevelAt(next, heads[..], tails[..], levels, p)
      {
      }
      EmptyTotal(levels);
    }

    /** Append a thread at its priority. */
    method Push(item: nat)
      requires Valid() && (item != 0 ==> item in priority && priority[item] < LEVELS && !Queued(levels, mail, item))
      modifies this`next, this`active, this`queueLength, this`levels, heads, tails
      ensures Valid() && levels == if item == 0 then old(levels) else LevelPush(old(levels), priority[item], item)
    {
      if item == 0 { return; }
      var p := priority[item];
      PushQueues(next, heads[..], tails[..], levels, mailHead, mailTail, mail, priority, item);
      ghost var hs, ts := heads[..], tails[..];
      next := next[item := 0];
      if tails[p] == 0 {
        heads[p] := item;
        tails[p] := item;
      } else {
        next := next[tails[p] := item];
        tails[p] := item;
      }
      queueLength := queueLength + 1;
      active := active[p := true];
      TotalUpdate(levels, p, levels[p] + [item]);
      levels := LevelPush(levels, p, item);
      assert heads[..] == if ts[p] == 0 then hs[p := item] else hs;
      assert tails[..] == ts[p := item];
    }

    /** Take the first thread of the lowest non-empty level. */
    method Pop() returns (r: nat)
      requires Valid()
      modifies this`next, this`active, this`queueLength, this`levels, heads, tails
      ensures Valid() && (r != 0 ==> !Queued(levels, mail, r))
      ensures r == 0 <==> forall p :: 0 <= p < LEVELS ==> old(levels)[p] == []
      ensures r == 0 ==> levels == old(levels)
      ensures r != 0 ==> exists p :: FirstOf(old(levels), levels, p, r)
      ensures (if r == 0 then None else Some(r), levels) == LevelPop(old(levels))
    {
      var p := TrailingZeros(active);
      if p == LEVELS { return 0; }
      r := TakeFirst(p);
      assert FirstOf(old(levels), levels, p, r);
    }

    /** The head of a level whose bit is set: it is never null there. */
    method TakeFirst(p: nat) returns (r: nat)
      requires Valid() && p < LEVELS && levels[p] != []
      modifies this`next, this`active, this`queueLength, this`levels, heads, tails
      ensures Valid() && r != 0 && r == old(levels)[p][0] && levels == old(levels)[p := old(levels)[p][1..]]
      ensures !Queued(levels, mail, r)
    {
      PopQueues(next, heads[..], tails[..], levels, mailHead, mailTail, mail, priority, p);
      ghost var hs, ts := heads[..], tails[..];
      TotalUpdate(levels, p, levels[p][1..]);
      r := heads[p];
      var second := next[r];
      heads[p] := second;
      if second == 0 {
        tails[p] := 0;
        active := active[p := false];
      }
      assert heads[..] == hs[p := second] && tails[..] == if second == 0 then ts[p := 0] else ts;
      next := next[r := 0];
      queueLength := queueLength - 1;
      levels := levels[p := levels[p][1..]];
    }

    /** `trailing_zeros` of the bitmap, 32 if no bit is set. */
    method TrailingZeros(bits: seq<bool>) returns (p: nat)
      requires Valid() && bits == active
      ensures p == Lowest(levels, 0)
    {
      p := 0;
      while p < LEVELS && !bits[p]
        invariant p <= LEVELS && Lowest(levels, 0) == Lowest(levels, p)
      {
        p := p + 1;
      }
    }

    /** A push to the mailbox, by a core that holds its lock. */
    method Mail(item: nat)
      requires Valid() && item != 0 && item in priority && priority[item] < LEVELS && !Queued(levels, mail, item)
      modifies this`next, this`mailHead, this`mailTail, this`mailLength, this`mail
      ensures Valid() && mail == old(mail) + [item]
    {
      MailPushQueues(next, heads[..], tails[..], levels, mailHead, mailTail, mail, priority, item);
      next := next[item := 0];
      if mailTail == 0 {
        mailHead := item;
        mailTail := item;
      } else {
        next := next[mailTail := item];
        mailTail := item;
      }
      mailLength := mailLength + 1;
      mail := mail + [item];
    }

    method Unmail() returns (r: nat)
      requires Valid()
      modifies this`next, this`mailHead, this`mailTail, this`mailLength, this`mail
      ensures Valid()
      ensures old(mail) == [] ==> r == 0 && mail == []
      ensures old(mail) != [] ==> r != 0 && r == old(mail)[0] && mail == old(mail)[1..] && !Queued(levels, mail, r)
    {
      if mailHead == 0 { return 0; }
      MailPopQueues(next, heads[..], tails[..], levels, mailHead, mailTail, mail, priority);
      r := mailHead;
      mailHead := next[r];
      if mailHead == 0 { mailTail := 0; }
      next := next[r := 0];
      mailLength := mailLength - 1;
      mail := mail[1..];
    }

    /** `schedule` up to the context switch: drain the mailbox, pick, requeue the thread that was running. */
    method Schedule()
      requires Valid() && current != 0 && current in state
      requires (current != idle ==> current in priority && priority[current] < LEVELS)
      requires state[current] == Running ==> !Queued(levels, mail, current)
      modifies this, heads, tails
      ensures Valid() && mail == []
      ensures MailOk(old(mail), priority)
      ensures old(current) in Readied(old(state), old(mail))
      ensures Picked(current, levels, state) ==
              Pick(Drain(old(levels), old(mail), priority), Readied(old(state), old(mail)), priority, old(current),
                   idle)
      ensures (exists t :: Queued(old(levels), old(mail), t)) ==> Urgent(old(levels), old(mail), priority, current)
      ensures (forall t :: !Queued(old(levels), old(mail), t)) ==>
                current == if old(state[current]) == Running then old(current) else idle
    {
      ghost var was, letters, ready := levels, mail, Readied(state, mail);
      DrainMail();
      Choose();
      PickIsUrgent(was, letters, priority, ready, old(current), idle);
      if forall t :: !Queued(was, letters, t) {
        assert letters == [] by { if letters != [] { assert Queued(was, letters, letters[0]); } }
      }
    }

    /** The part of `schedule` after the mailbox: pick the next thread and requeue the one that ran. */
    method Choose()
      requires Valid() && current != 0 && current in state
      requires (current != idle ==> current in priority && priority[current] < LEVELS)
      requires state[current] == Running ==> !Queued(levels, mail, current)
      modifies this`next, this`active, this`queueLength, this`levels, this`state, this`current, heads, tails
      ensures Valid()
      ensures Picked(current, levels, state) == Pick(old(levels), old(state), priority, old(current), idle)
    {
      var popped := Pop();
      var prev: nat := current;
      var chosen: nat := popped;
      if chosen == 0 { chosen := if state[prev] == Running then prev else idle; }
      if state[prev] == Running {
        state := state[prev := Ready];
        if prev != idle && prev != chosen { Push(prev); }
      }
      current := chosen;
      state := state[chosen := Running];
    }

    method DrainMail()
      requires Valid() && current in state
      modifies this`next, this`mailHead, this`mailTail, this`mailLength, this`mail, this`active, this`queueLength,
        this`levels, this`state, heads, tails
      ensures Valid() && mail == []
      ensures MailOk(old(mail), priority) && levels == Drain(old(levels), old(mail), priority)
      ensures state == Readied(old(state), old(mail))
      ensures current in state
      ensures state[current] == Running && !old(Queued(levels, mail, current)) ==> !Queued(levels, mail, current)
      ensures state[current] == Running ==> old(state[current]) == Running
    {
      DrainMembers(levels, mail, priority, current);
      ReadiedFacts(state, mail, current);
      DrainAll();
    }

    method DrainAll()
      requires Valid()
      modifies this`next, this`mailHead, this`mailTail, this`mailLength, this`mail, this`active, this`queueLength,
        this`levels, this`state, heads, tails
      ensures Valid() && mail == [] && MailOk(old(mail), priority)
      ensures levels == Drain(old(levels), old(mail), priority) && state == Readied(old(state), old(mail))
    {
      ghost var goal, ready := Drain(levels, mail, priority), Readied(state, mail);
      while true
        invariant Valid() && Drain(levels, mail, priority) == goal && Readied(state, mail) == ready
        decreases |mail|
      {
        var item := Unmail();
        if item == 0 { break; }
        state := state[item := Ready];
        Push(item);
      }
    }
  }

  /** Of all the threads queued or mailed, t has the least priority number. */
  ghost predicate Urgent(levels: Levels, mail: seq<nat>, priority: map<nat, nat>, t: nat) {
    && Queued(levels, mail, t) && t in priority
    && forall u :: Queued(levels, mail, u) ==> u in priority && priority[t] <= priority[u]
  }

  ghost predicate LevelsFit(levels: Levels, priority: map<nat, nat>) {
    forall p, t :: 0 <= p < LEVELS && t in levels[p] ==> t in priority && priority[t] == p
  }

  lemma {:induction false} DrainFits(levels: Levels, mail: seq<nat>, priority: map<nat, nat>)
    requires MailOk(mail, priority) && LevelsFit(levels, priority)
    ensures LevelsFit(Drain(levels, mail, priority), priority)
    decreases |mail|
  {
    if mail != [] { DrainFits(LevelPush(levels, priority[mail[0]], mail[0]), mail[1..], priority); }
  }

  /** What is popped first has the least priority number. */
  lemma PopIsLeast(levels: Levels, priority: map<nat, nat>)
    requires LevelsFit(levels, priority)
    ensures LevelPop(levels).0.None? <==> forall t :: !Queued(levels, [], t)
    ensures LevelPop(levels).0.Some? ==> Urgent(levels, [], priority, LevelPop(levels).0.value)
  {
    PopsFirst(levels);
    if LevelPop(levels).0.Some? {
      var p :| FirstOf(levels, LevelPop(levels).1, p, LevelPop(levels).0.value);
      var t := levels[p][0];
      assert t in levels[p] && Queued(levels, [], t);
      forall u | Queued(levels, [], u)
        ensures u in priority && priority[t] <= priority[u]
      {
        var q :| 0 <= q < LEVELS && u in levels[q];
      }
    }
  }

  /**
   The thread that runs next is the most urgent one there is; without any, the running one goes on or the core idles.
   */
  lemma PickIsUrgent(levels: Levels, mail: seq<nat>, priority: map<nat, nat>, state: map<nat, ThreadState>,
                     current: nat,
                     idle: nat)
    requires MailOk(mail, priority) && LevelsFit(levels, priority)
    requires current in state && (current != idle ==> current in priority && priority[current] < LEVELS)
    ensures var next := Pick(Drain(levels, mail, priority), state, priority, current, idle).next;
            && ((exists t :: Queued(levels, mail, t)) ==> Urgent(levels, mail, priority, next))
            && ((forall t :: !Queued(levels, mail, t)) ==> next == if state[current] == Running then current else idle)
  {
    var drained := Drain(levels, mail, priority);
    DrainFits(levels, mail, priority);
    PopIsLeast(drained, priority);
    forall t
      ensures Queued(drained, [], t) <==> Queued(levels, mail, t)
    {
      DrainMembers(levels, mail, priority, t);
    }
  }

  predicate MailOk(mail: seq<nat>, priority: map<nat, nat>) {
    forall t :: t in mail ==> t in priority && priority[t] < LEVELS
  }

  /** Draining brings no thread in that was not queued. */
  lemma {:induction false} DrainMembers(levels: Levels, mail: seq<nat>, priority: map<nat, nat>, t: nat)
    requires MailOk(mail, priority)
    ensures Queued(Drain(levels, mail, priority), [], t) <==> Queued(levels, mail, t)
    decreases |mail|
  {
    if mail != [] {
      var p := priority[mail[0]];
      var pushed := LevelPush(levels, p, mail[0]);
      DrainMembers(pushed, mail[1..], priority, t);
      assert mail == [mail[0]] + mail[1..];
      forall q | 0 <= q < LEVELS
        ensures t in pushed[q] <==> t in levels[q] || (q == p && t == mail[0])
      {
      }
      if t == mail[0] { assert t in pushed[p]; }
      if exists q :: 0 <= q < LEVELS && t in levels[q] {
        var q :| 0 <= q < LEVELS && t in levels[q];
        assert t in pushed[q];
      }
    }
  }

  /** The threads of one priority in the mailbox, in the order they came. */
  function LettersFor(mail: seq<nat>, priority: map<nat, nat>, p: nat): seq<nat> {
    if mail == [] then []
    else
      var n := |mail| - 1;
      LettersFor(mail[..n], priority, p) + if mail[n] in priority && priority[mail[n]] == p then [mail[n]] else []
  }

  lemma {:induction false} LettersFrom(mail: seq<nat>, priority: map<nat, nat>, p: nat)
    requires mail != []
    ensures LettersFor(mail, priority, p) ==
            (if mail[0] in priority && priority[mail[0]] == p then [mail[0]] else []) +
            LettersFor(mail[1..], priority, p)
    decreases |mail|
  {
    var n := |mail| - 1;
    if n > 0 {
      LettersFrom(mail[..n], priority, p);
      assert mail[..n][1..] == mail[1..][..n - 1];
    } else {
      assert LettersFor(mail[..0], priority, p) == [] && LettersFor(mail[1..], priority, p) == [];
    }
  }

  /** A drained level is what it was, followed by its letters in the order in which they were posted. */
  lemma {:induction false} DrainAppends(levels: Levels, mail: seq<nat>, priority: map<nat, nat>, p: nat)
    requires MailOk(mail, priority) && p < LEVELS
    ensures Drain(levels, mail, priority)[p] == levels[p] + LettersFor(mail, priority, p)
    decreases |mail|
  {
    if mail != [] {
      LettersFrom(mail, priority, p);
      DrainAppends(LevelPush(levels, priority[mail[0]], mail[0]), mail[1..], priority, p);
    }
  }

  /** A thread that is interrupted while it could run on waits as the last of its level; all other levels, and those
      that stop, are left to the pop. */
  lemma PreemptedWaitsLast(levels: Levels, state: map<nat, ThreadState>, priority: map<nat, nat>, current: nat,
                           idle: nat)
    requires current in state && (current != idle ==> current in priority && priority[current] < LEVELS)
    ensures var picked, rest := Pick(levels, state, priority, current, idle), LevelPop(levels).1;
            if state[current] == Running && current != idle && picked.next != current
            then
              && picked.state[current] == Ready
              && (forall q :: 0 <= q < LEVELS ==>
                    picked.levels[q] == if q == priority[current] then rest[q] + [current] else rest[q])
            else picked.levels == rest
  {
  }

  lemma {:induction false} ReadiedFacts(state: map<nat, ThreadState>, mail: seq<nat>, t: nat)
    ensures t in state ==> t in Readied(state, mail)
    ensures t in mail ==> t in Readied(state, mail) && Readied(state, mail)[t] == Ready
    ensures t !in mail && t in state ==> Readied(state, mail)[t] == state[t]
    decreases |mail|
  {
    if mail != [] { ReadiedFacts(state[mail[0] := Ready], mail[1..], t); }
  }

  lemma {:induction false} EmptyTotal(levels: seq<seq<nat>>)
    requires forall p :: 0 <= p < |levels| ==> levels[p] == []
    ensures Total(levels) == 0
    decreases |levels|
  {
    if levels != [] { EmptyTotal(levels[1..]); }
  }
}
