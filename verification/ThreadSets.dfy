/** Bookkeeping shared by the lock protocols: threads by program counter, queue locks, wait queues. */
module ThreadSets {

  type Tid = nat

  /** A wait queue's ticket lock. */
  datatype Lock = Free | Held(owner: Tid)

  ghost function Owners(l: Lock): set<Tid> {
    if l.Free? then {} else {l.owner}
  }

  /** The threads whose program counter is in the class c. */
  ghost function Where<P>(pc: map<Tid, P>, c: P -> bool): set<Tid> {
    set t | t in pc && c(pc[t])
  }

  lemma WhereAfter<P>(pc: map<Tid, P>, t: Tid, p: P, c: P -> bool)
    ensures Where(pc[t := p], c) == if c(p) then Where(pc, c) + {t} else Where(pc, c) - {t}
  {
  }

  lemma CalmClass<P>(pc: map<Tid, P>, t: Tid, p: P, c: P -> bool)
    requires t in pc && c(pc[t]) == c(p)
    ensures Where(pc[t := p], c) == Where(pc, c)
  {
  }

  /** Taking a free lock, keeping it, or giving it back. */
  lemma LockMove<P>(pc: map<Tid, P>, t: Tid, p: P, holds: P -> bool, was: Lock, now: Lock)
    requires t in pc && Where(pc, holds) == Owners(was)
    requires || (holds(p) == holds(pc[t]) && now == was)
             || (!holds(pc[t]) && holds(p) && was.Free? && now == Held(t))
             || (holds(pc[t]) && !holds(p) && now.Free?)
    ensures Where(pc[t := p], holds) == Owners(now)
  {
    WhereAfter(pc, t, p, holds);
    assert t in Where(pc, holds) <==> holds(pc[t]);
  }

  lemma WhereSize<P>(pc: map<Tid, P>, c: P -> bool)
    ensures |Where(pc, c)| <= |pc.Keys|
  {
    assert Where(pc, c) <= pc.Keys;
    assert pc.Keys == Where(pc, c) + (pc.Keys - Where(pc, c));
  }

  lemma Singleton(a: set<Tid>, t: Tid)
    requires |a| == 1 && t in a
    ensures a == {t}
  {
    assert |a - {t}| == 0;
  }

  /** The intrusive queue holds each sleeping thread once. */
  ghost predicate QueueOf(q: seq<Tid>, members: set<Tid>) {
    && (forall i, j :: 0 <= i < j < |q| ==> q[i] != q[j])
    && (forall t :: t in q <==> t in members)
  }

  lemma QueuePush(q: seq<Tid>, members: set<Tid>, t: Tid)
    requires QueueOf(q, members) && t !in members
    ensures QueueOf(q + [t], members + {t})
  {
  }

  lemma QueuePop(q: seq<Tid>, members: set<Tid>)
    requires QueueOf(q, members) && q != []
    ensures q[0] in members && QueueOf(q[1..], members - {q[0]})
  {
    assert q == [q[0]] + q[1..];
  }

  // ---------------------------------------------------------------- wake-ups in flight

  /** Both thread sets after two threads have moved. */
  lemma WhereAfter2<P>(pc: map<Tid, P>, t: Tid, p: P, u: Tid, q: P, c: P -> bool)
    requires t in pc && u in pc && t != u
    ensures forall x :: x in Where(pc[t := p][u := q], c) <==>
              if x == t then c(p) else if x == u then c(q) else x in Where(pc, c)
    ensures c(p) == c(pc[t]) && c(q) == c(pc[u]) ==> Where(pc[t := p][u := q], c) == Where(pc, c)
  {
  }

  /** A thread taken off its queue but not yet woken has exactly one thread about to wake it. */
  ghost predicate WakersOk<P>(pc: map<Tid, P>, wakes: (P, Tid) -> bool, popped: P -> bool) {
    && (forall t, w :: t in pc && wakes(pc[t], w) ==> w in Where(pc, popped))
    && (forall t, u, w :: t in pc && u in pc && wakes(pc[t], w) && wakes(pc[u], w) ==> t == u)
    && (forall w :: w in Where(pc, popped) ==> exists t :: t in pc && wakes(pc[t], w))
  }

  /** A move between program counters that are neither popped nor waking leaves the wakers alone. */
  lemma WakersCalm<P>(pc: map<Tid, P>, t: Tid, q: P, wakes: (P, Tid) -> bool, popped: P -> bool)
    requires t in pc && WakersOk(pc, wakes, popped) && !popped(pc[t]) && !popped(q)
    requires forall x :: !wakes(pc[t], x) && !wakes(q, x)
    ensures WakersOk(pc[t := q], wakes, popped)
  {
    CalmClass(pc, t, q, popped);
    var pc' := pc[t := q];
    forall w | w in Where(pc, popped) ensures exists u :: u in pc' && wakes(pc'[u], w) {
      var u :| u in pc && wakes(pc[u], w);
      assert wakes(pc'[u], w);
    }
  }

  /** Thread t pops w and undertakes to wake it. */
  lemma WakersPop<P>(pc: map<Tid, P>, t: Tid, p: P, w: Tid, q: P, wakes: (P, Tid) -> bool, popped: P -> bool)
    requires WakersOk(pc, wakes, popped) && t in pc && w in pc && t != w
    requires !popped(pc[t]) && !popped(pc[w]) && !popped(p) && popped(q)
    requires forall x :: !wakes(pc[t], x) && !wakes(pc[w], x) && !wakes(q, x) && (wakes(p, x) <==> x == w)
    ensures WakersOk(pc[t := p][w := q], wakes, popped)
  {
    var pc' := pc[t := p][w := q];
    WhereAfter2(pc, t, p, w, q, popped);
    assert w !in Where(pc, popped) && t !in Where(pc, popped);
    forall x | x in Where(pc', popped) && x != w ensures exists u :: u in pc' && wakes(pc'[u], x) {
      assert x in Where(pc, popped);
      var u :| u in pc && wakes(pc[u], x);
      assert wakes(pc'[u], x);
    }
    assert wakes(pc'[t], w);
    forall u: Tid, x: Tid | u in pc' && wakes(pc'[u], x) ensures x in Where(pc', popped) {
      if u != t { assert wakes(pc[u], x); assert x in Where(pc, popped); }
    }
    forall u: Tid, v: Tid, x: Tid | u in pc' && v in pc' && wakes(pc'[u], x) && wakes(pc'[v], x) ensures u == v {
      if u != t { assert wakes(pc[u], x); }
      if v != t { assert wakes(pc[v], x); }
    }
  }

  /** Thread t wakes w. */
  lemma WakersWake<P>(pc: map<Tid, P>, t: Tid, p: P, w: Tid, q: P, wakes: (P, Tid) -> bool, popped: P -> bool)
    requires WakersOk(pc, wakes, popped) && t in pc && wakes(pc[t], w) && w in pc && t != w
    requires popped(pc[w]) && !popped(pc[t]) && !popped(p) && !popped(q)
    requires forall x :: !wakes(pc[w], x) && !wakes(p, x) && !wakes(q, x) && (wakes(pc[t], x) <==> x == w)
    ensures WakersOk(pc[t := p][w := q], wakes, popped)
  {
    var pc' := pc[t := p][w := q];
    WhereAfter2(pc, t, p, w, q, popped);
    assert t !in Where(pc, popped);
    forall x | x in Where(pc', popped) ensures exists u :: u in pc' && wakes(pc'[u], x) {
      assert x in Where(pc, popped);
      var u :| u in pc && wakes(pc[u], x);
      assert wakes(pc'[u], x);
    }
    forall u: Tid, x: Tid | u in pc' && wakes(pc'[u], x) ensures wakes(pc[u], x) && x in Where(pc', popped) {
      assert u != t && u != w && wakes(pc[u], x);
      assert x in Where(pc, popped) && x != w;
    }
  }

  /** With nobody waking, nobody is popped. */
  lemma NoWakerNoPopped<P>(pc: map<Tid, P>, wakes: (P, Tid) -> bool, popped: P -> bool)
    requires WakersOk(pc, wakes, popped) && forall t, w :: t in pc ==> !wakes(pc[t], w)
    ensures Where(pc, popped) == {}
  {
    forall w ensures w !in Where(pc, popped) { }
  }
}
