/** Giving back the tables of a process: the three nested loops over its lower half, then the root. */
module Teardown {
  import opened Wrappers
  import opened PageTable

  type Homes = map<nat, Place>

  // ---------------------------------------------------------------- what the loops have freed

  predicate BelowL3(p: Place, root: nat, i: nat) { !p.Root? && p.space == User(root) && p.l4 < i }

  predicate BelowL2(p: Place, root: nat, i: nat, j: nat) {
    (p.L2? || p.L1?) && p.space == User(root) && p.l4 == i && p.l3 < j
  }

  predicate BelowL1(p: Place, root: nat, i: nat, j: nat, k: nat) {
    p.L1? && p.space == User(root) && p.l4 == i && p.l3 == j && p.l2 < k
  }

  /** Everything under the first i entries of the root. */
  ghost function DoneL3(home: Homes, root: nat, i: nat): set<nat> { set t | t in home && BelowL3(home[t], root, i) }

  /** and everything under the first j entries of its entry i, */
  ghost function DoneL2(home: Homes, root: nat, i: nat, j: nat): set<nat> {
    DoneL3(home, root, i) + set t | t in home && BelowL2(home[t], root, i, j)
  }

  /** and under the first k entries of entry j in there. */
  ghost function DoneL1(home: Homes, root: nat, i: nat, j: nat, k: nat): set<nat> {
    DoneL2(home, root, i, j) + set t | t in home && BelowL1(home[t], root, i, j, k)
  }

  /** Exactly the frames done have been given back. */
  ghost predicate Freed(mem: Memory, T: Tables, home: Homes, free: set<nat>, done: set<nat>)
    reads mem
  {
    mem.tables == T - done && mem.home == home - done && mem.free == free + done
  }

  ghost predicate Whole(T: Tables, home: Homes, free: set<nat>, root: nat) {
    Tree(T, home) && AllReached(T, home) && IsRoot(home, root) && free !! T.Keys
  }

  // ---------------------------------------------------------------- one table per place

  lemma L3At(T: Tables, home: Homes, root: nat, i: nat, t: nat)
    requires Tree(T, home) && AllReached(T, home) && IsRoot(home, root) && i < USER_ENTRIES && t in home
    ensures home[t] == L3(User(root), i) <==> Next(T, root, i) == Some(t)
  {
    assert Reached(T, home, t);
    WalkPlaces(T, home, root, Indexes(i, 0, 0, 0));
  }

  lemma L2At(T: Tables, home: Homes, root: nat, i: nat, j: nat, t3: nat, t: nat)
    requires Tree(T, home) && AllReached(T, home) && IsRoot(home, root) && i < USER_ENTRIES && j < ENTRIES && t in home
    requires Next(T, root, i) == Some(t3)
    ensures home[t] == L2(User(root), i, j) <==> Next(T, t3, j) == Some(t)
  {
    assert Reached(T, home, t);
    WalkPlaces(T, home, root, Indexes(i, j, 0, 0));
  }

  lemma L1At(T: Tables, home: Homes, root: nat, i: nat, j: nat, k: nat, t3: nat, t2: nat, t: nat)
    requires Tree(T, home) && AllReached(T, home) && IsRoot(home, root) && i < USER_ENTRIES && j < ENTRIES
    requires k < ENTRIES && t in home
    requires Next(T, root, i) == Some(t3) && Next(T, t3, j) == Some(t2)
    ensures home[t] == L1(User(root), i, j, k) <==> Next(T, t2, k) == Some(t) && !At(T, t2, k).flags.huge
  {
    assert Reached(T, home, t);
    WalkPlaces(T, home, root, Indexes(i, j, k, 0));
  }

  // ---------------------------------------------------------------- the loops

  method FreeOne(mem: Memory, f: nat, ghost T: Tables, ghost home: Homes, ghost free: set<nat>, ghost done: set<nat>)
    requires Freed(mem, T, home, free, done) && f in T && f !in done && free !! T.Keys
    modifies mem
    ensures Freed(mem, T, home, free, done + {f})
  {
    mem.Free(f);
    assert T - done - {f} == T - (done + {f}) && home - done - {f} == home - (done + {f});
  }

  /** A table not yet given back still reads as at the start. */
  lemma StillThere(T: Tables, done: set<nat>, t: nat, i: nat)
    requires t !in done
    ensures At(T - done, t, i) == At(T, t, i)
  {
  }

  method FreeL1s(mem: Memory, t2: nat, ghost T: Tables, ghost home: Homes, ghost free: set<nat>, ghost root: nat,
                 ghost i: nat, ghost j: nat, ghost t3: nat)
    requires Whole(T, home, free, root) && i < USER_ENTRIES && j < ENTRIES
    requires Next(T, root, i) == Some(t3) && Next(T, t3, j) == Some(t2)
    requires Freed(mem, T, home, free, DoneL2(home, root, i, j))
    modifies mem
    ensures Freed(mem, T, home, free, DoneL2(home, root, i, j + 1))
  {
    DoneL1Start(home, root, i, j);
    ghost var done := DoneL1(home, root, i, j, 0);
    for k := 0 to 512
      invariant done == DoneL1(home, root, i, j, k) && Freed(mem, T, home, free, done)
    {
      DoneL1Step(T, home, root, i, j, k, t3, t2);
      StillThere(T, done, t2, k);
      var e := At(mem.tables, t2, k);
      if e.flags.present && !e.flags.huge {
        FreeOne(mem, e.frame, T, home, free, done);
      }
      done := DoneL1(home, root, i, j, k + 1);
    }
    DoneL1End(T, home, root, i, j, t3, t2);
    FreeOne(mem, t2, T, home, free, done);
  }

  lemma DoneL1Start(home: Homes, root: nat, i: nat, j: nat)
    ensures DoneL1(home, root, i, j, 0) == DoneL2(home, root, i, j)
  {
  }

  lemma DoneL1Step(T: Tables, home: Homes, root: nat, i: nat, j: nat, k: nat, t3: nat, t2: nat)
    requires Tree(T, home) && AllReached(T, home) && IsRoot(home, root) && i < USER_ENTRIES && j < ENTRIES
    requires k < ENTRIES
    requires Next(T, root, i) == Some(t3) && Next(T, t3, j) == Some(t2)
    ensures t2 !in DoneL1(home, root, i, j, k)
    ensures var e := At(T, t2, k);
            if e.flags.present && !e.flags.huge then
              && e.frame in home && e.frame !in DoneL1(home, root, i, j, k)
              && DoneL1(home, root, i, j, k + 1) == DoneL1(home, root, i, j, k) + {e.frame}
            else DoneL1(home, root, i, j, k + 1) == DoneL1(home, root, i, j, k)
  {
    WalkPlaces(T, home, root, Indexes(i, j, k, 0));
    forall t | t in home
      ensures home[t] == L1(User(root), i, j, k) <==> Next(T, t2, k) == Some(t) && !At(T, t2, k).flags.huge
    {
      L1At(T, home, root, i, j, k, t3, t2, t);
    }
  }

  lemma DoneL1End(T: Tables, home: Homes, root: nat, i: nat, j: nat, t3: nat, t2: nat)
    requires Tree(T, home) && AllReached(T, home) && IsRoot(home, root) && i < USER_ENTRIES && j < ENTRIES
    requires Next(T, root, i) == Some(t3) && Next(T, t3, j) == Some(t2)
    ensures t2 in home && t2 !in DoneL1(home, root, i, j, 512)
    ensures DoneL2(home, root, i, j + 1) == DoneL1(home, root, i, j, 512) + {t2}
  {
    WalkPlaces(T, home, root, Indexes(i, j, 0, 0));
    forall t | t in home
      ensures home[t] == L2(User(root), i, j) <==> t == t2
      ensures home[t].L1? && home[t].space == User(root) ==> home[t].l2 < 512
    {
      L2At(T, home, root, i, j, t3, t);
      assert Reached(T, home, t);
    }
  }

  method FreeL2s(mem: Memory, t3: nat, ghost T: Tables, ghost home: Homes, ghost free: set<nat>, ghost root: nat,
                 ghost i: nat)
    requires Whole(T, home, free, root) && i < USER_ENTRIES && Next(T, root, i) == Some(t3)
    requires Freed(mem, T, home, free, DoneL3(home, root, i))
    modifies mem
    ensures Freed(mem, T, home, free, DoneL3(home, root, i + 1))
  {
    DoneL2Start(home, root, i);
    ghost var done := DoneL2(home, root, i, 0);
    for j := 0 to 512
      invariant done == DoneL2(home, root, i, j) && Freed(mem, T, home, free, done)
    {
      DoneL2Step(T, home, root, i, j, t3);
      StillThere(T, done, t3, j);
      var e := At(mem.tables, t3, j);
      if e.flags.present {
        FreeL1s(mem, e.frame, T, home, free, root, i, j, t3);
      }
      done := DoneL2(home, root, i, j + 1);
    }
    DoneL2End(T, home, root, i, t3);
    FreeOne(mem, t3, T, home, free, done);
  }

  lemma DoneL2Start(home: Homes, root: nat, i: nat)
    ensures DoneL2(home, root, i, 0) == DoneL3(home, root, i)
  {
  }

  /** An absent entry has nothing below it. */
  lemma DoneL2Step(T: Tables, home: Homes, root: nat, i: nat, j: nat, t3: nat)
    requires Tree(T, home) && AllReached(T, home) && IsRoot(home, root) && i < USER_ENTRIES && j < ENTRIES
    requires Next(T, root, i) == Some(t3)
    ensures t3 !in DoneL2(home, root, i, j)
    ensures !At(T, t3, j).flags.present ==> DoneL2(home, root, i, j + 1) == DoneL2(home, root, i, j)
  {
    L3Place(T, home, root, i, t3);
    if !At(T, t3, j).flags.present {
      forall t | t in home
        ensures !((home[t].L2? || home[t].L1?) && home[t].space == User(root) && home[t].l4 == i && home[t].l3 == j)
      {
        assert Reached(T, home, t);
      }
    }
  }

  lemma L3Place(T: Tables, home: Homes, root: nat, i: nat, t3: nat)
    requires Tree(T, home) && IsRoot(home, root) && i < USER_ENTRIES && Next(T, root, i) == Some(t3)
    ensures t3 in home && home[t3] == L3(User(root), i)
  {
    WalkPlaces(T, home, root, Indexes(i, 0, 0, 0));
  }

  lemma DoneL2End(T: Tables, home: Homes, root: nat, i: nat, t3: nat)
    requires Tree(T, home) && AllReached(T, home) && IsRoot(home, root) && i < USER_ENTRIES
    requires Next(T, root, i) == Some(t3)
    ensures t3 in home && t3 !in DoneL2(home, root, i, 512)
    ensures DoneL3(home, root, i + 1) == DoneL2(home, root, i, 512) + {t3}
  {
    L3Place(T, home, root, i, t3);
    forall t | t in home
      ensures home[t] == L3(User(root), i) <==> t == t3
      ensures (home[t].L1? || home[t].L2?) && home[t].space == User(root) ==> home[t].l3 < 512
    {
      L3At(T, home, root, i, t);
      assert Reached(T, home, t);
    }
  }

  /** A table of the process's own: its root, or one below the lower half of it. */
  predicate Mine(p: Place, root: nat) {
    if p.Root? then p.root == root else p.space == User(root)
  }

  ghost function OwnTables(home: Homes, root: nat): set<nat> {
    set t | t in home && Mine(home[t], root)
  }

  /** The last part of `teardown`: every table of the process is given back, once, and nothing else. */
  method FreeTables(mem: Memory, root: nat)
    requires mem.Valid() && AllReached(mem.tables, mem.home) && IsRoot(mem.home, root)
    modifies mem
    ensures mem.free == old(mem.free) + OwnTables(old(mem.home), root)
    ensures mem.home == old(mem.home) - OwnTables(old(mem.home), root)
    ensures mem.Valid() && AllReached(mem.tables, mem.home)
    ensures forall r, x {:trigger Walk(mem.tables, r, x)} :: IsRoot(old(mem.home), r) && r != root && InRange(x) ==>
              Walk(mem.tables, r, x) == old(Walk(mem.tables, r, x))
  {
    ghost var T, home, free := mem.tables, mem.home, mem.free;
    ghost var done := DoneL3(home, root, 0);
    assert done == {};
    for i := 0 to 256
      invariant done == DoneL3(home, root, i) && Freed(mem, T, home, free, done)
    {
      DoneL3Step(T, home, root, i);
      StillThere(T, done, root, i);
      var e := At(mem.tables, root, i);
      if e.flags.present {
        FreeL2s(mem, e.frame, T, home, free, root, i);
      }
      done := DoneL3(home, root, i + 1);
    }
    DoneL3End(T, home, root);
    FreeOne(mem, root, T, home, free, done);
    RemoveSpace(T, home, root);
  }

  lemma DoneL3Step(T: Tables, home: Homes, root: nat, i: nat)
    requires Tree(T, home) && AllReached(T, home) && IsRoot(home, root) && i < USER_ENTRIES
    ensures root !in DoneL3(home, root, i)
    ensures !At(T, root, i).flags.present ==> DoneL3(home, root, i + 1) == DoneL3(home, root, i)
  {
    if !At(T, root, i).flags.present {
      forall t | t in home
        ensures !(!home[t].Root? && home[t].space == User(root) && home[t].l4 == i)
      {
        assert Reached(T, home, t);
      }
    }
  }

  lemma DoneL3End(T: Tables, home: Homes, root: nat)
    requires Tree(T, home) && AllReached(T, home) && IsRoot(home, root)
    ensures root in home && root !in DoneL3(home, root, 256)
    ensures OwnTables(home, root) == DoneL3(home, root, 256) + {root}
  {
    forall t | t in home && !home[t].Root? && home[t].space == User(root)
      ensures home[t].l4 < 256
    {
      assert Reached(T, home, t);
    }
  }

  lemma RemoveWalk(T: Tables, home: Homes, root: nat, r: nat, x: Indexes)
    requires Tree(T, home) && IsRoot(home, root) && IsRoot(home, r) && r != root && InRange(x)
    ensures var T' := T - OwnTables(home, root);
            Walk(T', r, x) == Walk(T, r, x) && Next(T', r, x.l4) == Next(T, r, x.l4) &&
              L2Table(T', r, x) == L2Table(T, r, x) && L1Table(T', r, x) == L1Table(T, r, x)
  {
    WalkPlaces(T, home, r, x);
    var own := OwnTables(home, root);
    StillThere(T, own, r, x.l4);
    var l3 := Next(T, r, x.l4);
    if l3.Some? {
      StillThere(T, own, l3.value, x.l3);
      var l2 := L2Table(T, r, x);
      if l2.Some? {
        StillThere(T, own, l2.value, x.l2);
        if L1Table(T, r, x).Some? { StillThere(T, own, L1Table(T, r, x).value, x.l1); }
      }
    }
  }

  /** Taking a process's own tables away leaves a tree, and every other root's walks. */
  lemma RemoveSpace(T: Tables, home: Homes, root: nat)
    requires Tree(T, home) && AllReached(T, home) && IsRoot(home, root)
    ensures var own := OwnTables(home, root);
            && Tree(T - own, home - own) && AllReached(T - own, home - own)
            && forall r, x {:trigger Walk(T - own, r, x)} :: IsRoot(home, r) && r != root && InRange(x) ==>
                 Walk(T - own, r, x) == Walk(T, r, x)
  {
    var own := OwnTables(home, root);
    var T', home' := T - own, home - own;
    forall t, i: nat | t in T' && i < ENTRIES && Links(home'[t], At(T', t, i))
      ensures At(T', t, i).frame in T' && home'[At(T', t, i).frame] == Child(home'[t], i)
    {
      StillThere(T, own, t, i);
    }
    forall r, x | IsRoot(home, r) && r != root && InRange(x)
      ensures Walk(T', r, x) == Walk(T, r, x)
    {
      RemoveWalk(T, home, root, r, x);
    }
    forall t | t in home'
      ensures Reached(T', home', t)
    {
      assert Reached(T, home, t);
      var p := home[t];
      if !p.Root? && p.space.User? {
        RemoveWalk(T, home, root, p.space.root, Indexes(p.l4, if p.L3? then 0 else p.l3, if p.L1? then p.l2 else 0, 0));
      }
    }
  }
}
