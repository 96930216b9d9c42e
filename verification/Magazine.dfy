/**
 Per-core magazines in front of the buddy allocator, and who owns each 4 KiB frame. A core works on
 its own magazine with interrupts off and holds the allocator's lock for a whole refill or flush, so
 the cores' operations interleave as whole operations.
 */
module Magazine {
  import opened Wrappers
  import opened Bits
  import opened BuddySpec
  import opened BuddyAllocator

  const MAG_CAPACITY: nat := 256

  function Blocks(s: seq<nat>): set<(nat, nat)> { set f | f in s :: (f, 0) }

  lemma BlocksAdd(s: seq<nat>, f: nat)
    ensures Blocks(s + [f]) == Blocks(s) + {(f, 0)}
  {
  }

  /** An allocation under the lock: a block that was free. */
  method TakeBlock(pmm: Allocator, order: nat) returns (r: Option<nat>)
    requires pmm.Valid() && order <= ORDER_MAX
    modifies pmm`mem, pmm`lists, pmm`live, pmm.freelist, pmm.pfndb
    ensures pmm.Valid()
    ensures r.None? ==> pmm.live == old(pmm.live) && pmm.lists == old(pmm.lists)
    ensures r.None? && order == 0 ==> forall f: nat :: !IsFree(pmm.lists, f)
    ensures r.None? ==> Crowded(pmm.managed, pmm.live, order)
    ensures r.Some? ==> (r.value, order) !in old(pmm.live) && pmm.live == old(pmm.live) + {(r.value, order)}
  {
    ghost var s := State(pmm.lists, pmm.live);
    r := pmm.AllocOrder(order);
    TakenWasFree(pmm.pfndb.Length, pmm.managed, s, order);
    FailureMeansNoRoom(pmm.pfndb.Length, pmm.managed, s, order);
  }

  /** Every aligned run of that order holds a frame that is not the allocator's or not in its hands. */
  ghost predicate Crowded(managed: set<nat>, live: set<(nat, nat)>, k: nat) {
    forall r :: Aligned(r, k) ==> exists f :: InBlock(f, r, k) && (f !in managed || IsLive(live, f))
  }

  lemma TakenWasFree(limit: nat, managed: set<nat>, s: State, order: nat)
    requires Inv(limit, managed, s) && order <= ORDER_MAX
    ensures var r := Alloc(s.lists, order).0;
            if r.Some? then (r.value, order) !in s.live else order == 0 ==> forall f: nat :: !IsFree(s.lists, f)
  {
    var r := Alloc(s.lists, order).0;
    AllocKeeps(limit, s.lists, order);
    if r.Some? {
      assert InBlock(r.value, r.value, order);
      FreeIsNotLive(limit, managed, s, r.value);
    } else if order == 0 {
      AllocComplete(limit, s.lists, 0);
      forall f: nat
        ensures !IsFree(s.lists, f)
      {
        assert !WhollyFree(s.lists, f, 0);
      }
    }
  }

  /** A free of a held block under the lock; the double-free panic cannot fire. */
  method GiveBlock(pmm: Allocator, f: nat, order: nat)
    requires pmm.Valid() && order <= ORDER_MAX && (f, order) in pmm.live
    modifies pmm`mem, pmm`lists, pmm`live, pmm.freelist, pmm.pfndb
    ensures pmm.Valid() && pmm.live == old(pmm.live) - {(f, order)}
  {
    var panicked := pmm.FreeOrder(f, order);
  }

  class Magazine {
    const pages: array<nat>
    var count: nat

    ghost predicate Ok()
      reads this
    {
      pages.Length == MAG_CAPACITY && count <= MAG_CAPACITY
    }

    /** The frames in the slots below count. */
    ghost function Contents(): seq<nat>
      requires Ok()
      reads this, pages
    {
      pages[..count]
    }

    constructor ()
      ensures Ok() && Contents() == [] && fresh(pages)
    {
      pages := new nat[MAG_CAPACITY](i => 0);
      count := 0;
    }

    /** Pop a frame, or refill half the magazine and take one more; None is the panic of an exhausted allocator. */
    method Alloc(pmm: Allocator) returns (r: Option<nat>)
      requires Ok() && pmm.Valid() && pages != pmm.freelist
      modifies this`count, pages, pmm`mem, pmm`lists, pmm`live, pmm.freelist, pmm.pfndb
      ensures Ok() && pmm.Valid()
      ensures old(count) > 0 ==> r.Some? && old(Contents()) == Contents() + [r.value] && pmm.live == old(pmm.live)
      ensures old(count) == 0 && r.Some? ==> count == MAG_CAPACITY / 2 - 1 && NoDup(Contents() + [r.value])
      ensures old(count) == 0 && r.Some? ==>
                pmm.live == old(pmm.live) + Blocks(Contents() + [r.value]) &&
                  Blocks(Contents() + [r.value]) !! old(pmm.live)
      ensures r.None? ==> forall f: nat :: !IsFree(pmm.lists, f)
    {
      if count > 0 {
        count := count - 1;
        var ret := pages[count];
        pages[count] := 0;
        r := Some(ret);
      } else {
        var full := Refill(pmm);
        if !full { return None; }
        r := TakeBlock(pmm, 0);
        if r.Some? { BlocksAdd(Contents(), r.value); }
      }
    }

    method Refill(pmm: Allocator) returns (ok: bool)
      requires Ok() && count == 0 && pmm.Valid() && pages != pmm.freelist
      modifies this`count, pages, pmm`mem, pmm`lists, pmm`live, pmm.freelist, pmm.pfndb
      ensures Ok() && pmm.Valid()
      ensures ok ==> count == MAG_CAPACITY / 2 - 1
      ensures NoDup(Contents()) && Blocks(Contents()) !! old(pmm.live) && pmm.live == old(pmm.live) + Blocks(Contents())
      ensures !ok ==> forall f: nat :: !IsFree(pmm.lists, f)
    {
      for n := 0 to MAG_CAPACITY / 2 - 1
        invariant Ok() && count == n && pmm.Valid() && pmm.freelist == old(pmm.freelist) && pmm.pfndb == old(pmm.pfndb)
        invariant NoDup(Contents()) && Blocks(Contents()) !! old(pmm.live)
        invariant pmm.live == old(pmm.live) + Blocks(Contents())
      {
        ghost var was := Contents();
        var block := TakeBlock(pmm, 0);
        if block.None? { return false; }
        pages[count] := block.value;
        count := count + 1;
        assert Contents() == was + [block.value];
        BlocksAdd(was, block.value);
        assert forall i :: 0 <= i < |was| ==> (was[i], 0) in Blocks(was);
      }
      ok := true;
    }

    /** Push a frame, first giving half the magazine back if it is full. */
    method Free(pmm: Allocator, frame: nat)
      requires Ok() && pmm.Valid() && pages != pmm.freelist
      requires NoDup(Contents()) && Blocks(Contents()) <= pmm.live
      modifies this`count, pages, pmm`mem, pmm`lists, pmm`live, pmm.freelist, pmm.pfndb
      ensures Ok() && pmm.Valid()
      ensures var keep := if old(count) < MAG_CAPACITY then old(count) else MAG_CAPACITY / 2;
              && Contents() == old(Contents())[..keep] + [frame]
              && pmm.live == old(pmm.live) - Blocks(old(Contents())[keep..])
    {
      if count == MAG_CAPACITY {
        Flush(pmm);
      }
      pages[count] := frame;
      count := count + 1;
    }

    method Flush(pmm: Allocator)
      requires Ok() && count == MAG_CAPACITY && pmm.Valid() && pages != pmm.freelist
      requires NoDup(Contents()) && Blocks(Contents()) <= pmm.live
      modifies this`count, pmm`mem, pmm`lists, pmm`live, pmm.freelist, pmm.pfndb
      ensures Ok() && count == MAG_CAPACITY / 2 && pmm.Valid() && Contents() == old(Contents())[..count]
      ensures pmm.live == old(pmm.live) - Blocks(old(Contents())[count..])
    {
      ghost var all := Contents();
      for n := 0 to MAG_CAPACITY / 2
        invariant Ok() && count == MAG_CAPACITY - n && pmm.Valid() && pmm.freelist == old(pmm.freelist)
        invariant pmm.pfndb == old(pmm.pfndb)
        invariant pages[..] == all
        invariant pmm.live == old(pmm.live) - Blocks(all[count..])
      {
        count := count - 1;
        assert (all[count], 0) in Blocks(all);
        assert all[count..] == [all[count]] + all[count + 1..];
        GiveBlock(pmm, pages[count], 0);
      }
    }
  }

  // ---------------------------------------------------------------- single ownership

  /** A 4 KiB operation through a core's magazine, or one that goes to the allocator directly, at any order. */
  datatype CoreOp =
    | CoreAlloc(core: nat)
    | CoreFree(core: nat, frame: nat)
    | DirectAlloc(order: nat)
    | DirectFree(block: nat, order: nat)

  /** The larger blocks held are the same. */
  ghost predicate SameLarge(live: set<(nat, nat)>, live': set<(nat, nat)>) {
    forall b, k :: k > 0 ==> ((b, k) in live <==> (b, k) in live')
  }

  /** Exactly what clients hold: the larger blocks, and the single frames that no magazine keeps. */
  ghost predicate Holding(held: set<(nat, nat)>, live: set<(nat, nat)>, owner: map<nat, Owner>) {
    forall b, k :: (b, k) in held <==> (b, k) in live && (k == 0 ==> b in owner && owner[b] == Client)
  }

  /** What an operation is told; kept are the frames that lie in magazines when there is no room. */
  datatype Answer = Got(block: nat) | NoRoom(kept: set<nat>) | Gave | Skipped

  /** A run: the operations so far, each with its answer, the last one outermost. */
  datatype Log = Start | Then(before: Log, op: CoreOp, answer: Answer)

  function OpsOf(log: Log): seq<CoreOp> {
    match log
    case Start => []
    case Then(before, op, _) => OpsOf(before) + [op]
  }

  function OrderOf(op: CoreOp): nat { if op.DirectAlloc? || op.DirectFree? then op.order else 0 }

  /** What clients hold after an operation: what they got is added, what they gave is gone. */
  function HeldAfter(held: set<(nat, nat)>, op: CoreOp, a: Answer): set<(nat, nat)> {
    if a.Got? then held + {(a.block, OrderOf(op))}
    else if a.Gave? && op.CoreFree? then held - {(op.frame, 0)}
    else if a.Gave? && op.DirectFree? then held - {(op.block, op.order)}
    else held
  }

  function HeldBy(start: set<(nat, nat)>, log: Log): set<(nat, nat)> {
    match log
    case Start => start
    case Then(before, op, a) => HeldAfter(HeldBy(start, before), op, a)
  }

  /** An aligned block of frames the allocator manages, no frame of which is in a client's hands. */
  ghost predicate Unheld(held: set<(nat, nat)>, managed: set<nat>, b: nat, k: nat) {
    && Aligned(b, k) && (forall f :: InBlock(f, b, k) ==> f in managed)
    && (forall c, j :: (c, j) in held ==> Apart(b, k, c, j))
  }

  /** Every aligned run of that order holds a frame that is unmanaged, in a client's hands or kept. */
  ghost predicate Full(held: set<(nat, nat)>, managed: set<nat>, kept: set<nat>, k: nat) {
    forall r :: Aligned(r, k) ==> exists f :: InBlock(f, r, k) && (f !in managed || IsLive(held, f) || f in kept)
  }

  /**
   The answer an operation is owed: a block that nobody holds; a free of what is held is done; a direct request fails
   only without room, whatever few frames the magazines keep; anything else is skipped.
   */
  ghost predicate Owed(op: CoreOp, a: Answer, cores: nat, managed: set<nat>, held: set<(nat, nat)>) {
    match op
    case CoreAlloc(core) => if core < cores then a.Got? && Unheld(held, managed, a.block, 0) else a == Skipped
    case CoreFree(core, f) => a == if core < cores && (f, 0) in held then Gave else Skipped
    case DirectAlloc(k) =>
      if k > ORDER_MAX then a == Skipped
      else if a.Got? then Unheld(held, managed, a.block, k)
      else a.NoRoom? && |a.kept| <= cores * MAG_CAPACITY && Full(held, managed, a.kept, k)
    case DirectFree(b, k) => a == if k <= ORDER_MAX && (b, k) in held then Gave else Skipped
  }

  /** Every answer is the one its operation was owed at its turn. */
  ghost predicate AllOwed(log: Log, cores: nat, managed: set<nat>, start: set<(nat, nat)>) {
    log.Then? ==>
      && AllOwed(log.before, cores, managed, start)
      && Owed(log.op, log.answer, cores, managed, HeldBy(start, log.before))
  }

  /** The run stopped at a core's allocation. */
  ghost predicate Exhausted(ops: seq<CoreOp>, log: Log) {
    var n := |OpsOf(log)|;
    n < |ops| && OpsOf(log) == ops[..n] && ops[n].CoreAlloc?
  }

  lemma LogNext(log: Log, ops: seq<CoreOp>, i: nat, a: Answer)
    requires i < |ops| && OpsOf(log) == ops[..i]
    ensures OpsOf(Then(log, ops[i], a)) == ops[..i + 1]
  {
  }

  datatype Owner = Slot(core: nat) | Client

  /** The frames in magazines. */
  function Kept(owner: map<nat, Owner>): set<nat> { set f | f in owner && owner[f].Slot? }

  /**
   Every 4 KiB frame handed out by the allocator has one owner: it is in one slot of one magazine, or
   in a client's hands.
   */
  ghost predicate Owned(stacks: seq<seq<nat>>, owner: map<nat, Owner>, live: set<(nat, nat)>) {
    && (forall c :: 0 <= c < |stacks| ==> NoDup(stacks[c]))
    && (forall c, f :: 0 <= c < |stacks| ==> (f in stacks[c] <==> f in owner && owner[f] == Slot(c)))
    && (forall f :: f in owner <==> (f, 0) in live)
    && (forall f :: f in owner && owner[f].Slot? ==> owner[f].core < |stacks|)
  }

  function Reowned(owner: map<nat, Owner>, frames: seq<nat>, to: Owner): map<nat, Owner> {
    map f | f in owner.Keys + (set g | g in frames) :: if f in frames then to else owner[f]
  }

  lemma PopOwned(stacks: seq<seq<nat>>, owner: map<nat, Owner>, live: set<(nat, nat)>, c: nat, rest: seq<nat>, f: nat)
    requires Owned(stacks, owner, live) && c < |stacks| && stacks[c] == rest + [f]
    ensures f in owner && Owned(stacks[c := rest], owner[f := Client], live)
  {
    var stacks', owner' := stacks[c := rest], owner[f := Client];
    assert f in stacks[c];
    forall i | 0 <= i < |rest|
      ensures rest[i] != f
    {
      assert stacks[c][i] != stacks[c][|rest|];
    }
    forall d, g | 0 <= d < |stacks|
      ensures g in stacks'[d] <==> g in owner' && owner'[g] == Slot(d)
    {
      assert g in stacks[d] <==> g in owner && owner[g] == Slot(d);
    }
    forall i, j | 0 <= i < j < |rest|
      ensures rest[i] != rest[j]
    {
      assert stacks[c][i] != stacks[c][j];
    }
  }

  lemma RefillOwned(stacks: seq<seq<nat>>, owner: map<nat, Owner>, live: set<(nat, nat)>, c: nat, taken: seq<nat>,
                    f: nat)
    requires Owned(stacks, owner, live) && c < |stacks| && stacks[c] == []
    requires NoDup(taken + [f]) && Blocks(taken + [f]) !! live
    ensures Owned(stacks[c := taken], Reowned(owner, taken, Slot(c))[f := Client], live + Blocks(taken + [f]))
    ensures f !in owner && forall g :: g in taken ==> g !in owner
  {
    var stacks', owner' := stacks[c := taken], Reowned(owner, taken, Slot(c))[f := Client];
    BlocksAdd(taken, f);
    forall g | g in taken
      ensures g != f && g !in owner
    {
      var i :| 0 <= i < |taken| && taken[i] == g;
      assert (taken + [f])[i] == g && (taken + [f])[|taken|] == f;
      assert (g, 0) in Blocks(taken + [f]);
    }
    assert (f, 0) in Blocks(taken + [f]);
    forall d, g | 0 <= d < |stacks|
      ensures g in stacks'[d] <==> g in owner' && owner'[g] == Slot(d)
    {
      assert g in stacks[d] <==> g in owner && owner[g] == Slot(d);
    }
    forall i, j | 0 <= i < j < |taken|
      ensures taken[i] != taken[j]
    {
      assert (taken + [f])[i] != (taken + [f])[j];
    }
  }

  function Freed(owner: map<nat, Owner>, gone: seq<nat>, f: nat, core: nat): map<nat, Owner> {
    (owner - (set g | g in gone))[f := Slot(core)]
  }

  lemma StackedAreLive(stacks: seq<seq<nat>>, owner: map<nat, Owner>, live: set<(nat, nat)>, c: nat)
    requires Owned(stacks, owner, live) && c < |stacks|
    ensures NoDup(stacks[c]) && Blocks(stacks[c]) <= live
  {
  }

  /** What a free leaves in the magazine, what it gives back, and the frame it takes in. */
  lemma FreeOwned(stacks: seq<seq<nat>>, owner: map<nat, Owner>, live: set<(nat, nat)>, c: nat, keep: nat, f: nat)
    requires Owned(stacks, owner, live) && c < |stacks| && keep <= |stacks[c]| && f in owner && owner[f] == Client
    ensures var gone := stacks[c][keep..]; var owner' := Freed(owner, gone, f, c);
            && Owned(stacks[c := stacks[c][..keep] + [f]], owner', live - Blocks(gone))
            && (forall g :: g in owner' && g != f ==> g in owner && owner'[g] == owner[g])
            && (forall g :: g in owner && g !in owner' ==> owner[g] == Slot(c))
  {
    var all, gone := stacks[c], stacks[c][keep..];
    var stacks', owner' := stacks[c := all[..keep] + [f]], Freed(owner, gone, f, c);
    forall g
      ensures g in all <==> g in owner && owner[g] == Slot(c)
      ensures g in gone ==> g in all && g !in all[..keep]
      ensures g in all ==> g in gone || g in all[..keep]
    {
      if g in gone {
        var i :| keep <= i < |all| && all[i] == g;
      }
    }
    forall d, g | 0 <= d < |stacks|
      ensures g in stacks'[d] <==> g in owner' && owner'[g] == Slot(d)
    {
      assert g in stacks[d] <==> g in owner && owner[g] == Slot(d);
    }
    assert f !in all;
  }

  lemma TakeOwned(stacks: seq<seq<nat>>, owner: map<nat, Owner>, live: set<(nat, nat)>, f: nat, k: nat)
    requires Owned(stacks, owner, live) && (f, k) !in live
    ensures Owned(stacks, if k == 0 then owner[f := Client] else owner, live + {(f, k)})
  {
    var owner' := if k == 0 then owner[f := Client] else owner;
    forall d, g | 0 <= d < |stacks|
      ensures g in stacks[d] <==> g in owner' && owner'[g] == Slot(d)
    {
      assert g in stacks[d] <==> g in owner && owner[g] == Slot(d);
    }
  }

  lemma GiveOwned(stacks: seq<seq<nat>>, owner: map<nat, Owner>, live: set<(nat, nat)>, f: nat, k: nat)
    requires Owned(stacks, owner, live) && (f, k) in live && (k == 0 ==> owner[f] == Client)
    ensures Owned(stacks, if k == 0 then owner - {f} else owner, live - {(f, k)})
  {
    var owner' := if k == 0 then owner - {f} else owner;
    forall d, g | 0 <= d < |stacks|
      ensures g in stacks[d] <==> g in owner' && owner'[g] == Slot(d)
    {
      assert g in stacks[d] <==> g in owner && owner[g] == Slot(d);
    }
  }

  function Members(s: seq<nat>): set<nat> { set f | f in s }

  lemma {:induction false} FewMembers(s: seq<nat>)
    ensures |Members(s)| <= |s|
  {
    if s == [] {
      assert Members(s) == {};
    } else {
      FewMembers(s[1..]);
      assert Members(s) == Members(s[1..]) + {s[0]};
    }
  }

  /** The frames in the magazines of cores below c. */
  function KeptBelow(owner: map<nat, Owner>, c: nat): set<nat> {
    set f | f in owner && owner[f].Slot? && owner[f].core < c
  }

  /** Magazines keep few frames. */
  lemma KeptFew(stacks: seq<seq<nat>>, owner: map<nat, Owner>, live: set<(nat, nat)>)
    requires Owned(stacks, owner, live) && forall c :: 0 <= c < |stacks| ==> |stacks[c]| <= MAG_CAPACITY
    ensures |Kept(owner)| <= |stacks| * MAG_CAPACITY
  {
    forall d | 0 <= d < |stacks|
      ensures KeptBelow(owner, d + 1) == KeptBelow(owner, d) + Members(stacks[d])
    {
      KeptWith(stacks, owner, live, d);
    }
    KeptFewBelow(stacks, owner, |stacks|);
    assert Kept(owner) == KeptBelow(owner, |stacks|);
  }

  lemma {:induction false} KeptFewBelow(stacks: seq<seq<nat>>, owner: map<nat, Owner>, c: nat)
    requires c <= |stacks| && forall d :: 0 <= d < |stacks| ==> |stacks[d]| <= MAG_CAPACITY
    requires forall d :: 0 <= d < |stacks| ==> KeptBelow(owner, d + 1) == KeptBelow(owner, d) + Members(stacks[d])
    ensures |KeptBelow(owner, c)| <= c * MAG_CAPACITY
  {
    if c == 0 {
      assert KeptBelow(owner, c) == {};
    } else {
      KeptFewBelow(stacks, owner, c - 1);
      FewMembers(stacks[c - 1]);
      SumBound(KeptBelow(owner, c - 1), Members(stacks[c - 1]));
    }
  }

  lemma KeptWith(stacks: seq<seq<nat>>, owner: map<nat, Owner>, live: set<(nat, nat)>, c: nat)
    requires Owned(stacks, owner, live) && c < |stacks|
    ensures KeptBelow(owner, c + 1) == KeptBelow(owner, c) + Members(stacks[c])
  {
    forall f
      ensures f in KeptBelow(owner, c + 1) <==> f in KeptBelow(owner, c) + Members(stacks[c])
    {
      assert f in stacks[c] <==> f in owner && owner[f] == Slot(c);
    }
  }

  lemma SumBound(a: set<nat>, b: set<nat>)
    ensures |a + b| <= |a| + |b|
  {
    assert a + b == a + (b - a) && a !! (b - a) && |b - a| <= |b|;
  }

  /** Frames handed out are with clients or in magazines, so an allocator without room leaves none elsewhere. */
  lemma CrowdedIsFull(stacks: seq<seq<nat>>, owner: map<nat, Owner>, live: set<(nat, nat)>, held: set<(nat, nat)>,
                      managed: set<nat>, k: nat)
    requires Owned(stacks, owner, live) && Holding(held, live, owner) && Crowded(managed, live, k)
    ensures Full(held, managed, Kept(owner), k)
  {
    forall f | IsLive(live, f)
      ensures IsLive(held, f) || f in Kept(owner)
    {
      var b, j :| (b, j) in live && InBlock(f, b, j);
      if (b, j) !in held { assert j == 0 && b == f && f in owner; }
    }
  }

  /** A block that clients hold now and did not before overlaps nothing they held. */
  lemma NewIsUnheld(limit: nat, managed: set<nat>, s: State, held: set<(nat, nat)>, b: nat, k: nat)
    requires Inv(limit, managed, s) && (b, k) in s.live && (b, k) !in held
    requires forall c, j :: (c, j) in held ==> (c, j) in s.live
    ensures Unheld(held, managed, b, k)
  {
    forall f | InBlock(f, b, k)
      ensures f in managed
    {
      assert IsLive(s.live, f);
    }
  }

  class Machine {
    const pmm: Allocator
    const mags: seq<Magazine>
    ghost var stacks: seq<seq<nat>>
    ghost var owner: map<nat, Owner>

    ghost predicate MagAt(c: int)
      requires 0 <= c < |mags| == |stacks|
      reads this`stacks, mags, set m | m in mags :: m.pages
    {
      mags[c].Ok() && mags[c].Contents() == stacks[c]
    }

    ghost predicate Valid()
      reads this, pmm, pmm.freelist, pmm.pfndb, mags, set m | m in mags :: m.pages
    {
      Stacked() && Owned(stacks, owner, pmm.live)
    }

    /** Each core has a magazine to itself, holding its stack. */
    ghost predicate Stacked()
      reads this`stacks, pmm, pmm.freelist, pmm.pfndb, mags, set m | m in mags :: m.pages
    {
      && pmm.Valid() && |mags| == |stacks|
      && (forall c :: 0 <= c < |mags| ==> mags[c].pages != pmm.freelist)
      && (forall c, d :: 0 <= c < d < |mags| ==> mags[c] != mags[d] && mags[c].pages != mags[d].pages)
      && (forall c {:trigger MagAt(c)} :: 0 <= c < |mags| ==> MagAt(c))
    }

    constructor (pmm: Allocator, mags: seq<Magazine>)
      requires pmm.Valid() && forall f :: (f, 0) !in pmm.live
      requires forall c :: 0 <= c < |mags| ==> mags[c].Ok() && mags[c].Contents() == [] && mags[c].pages != pmm.freelist
      requires forall c, d :: 0 <= c < d < |mags| ==> mags[c] != mags[d] && mags[c].pages != mags[d].pages
      ensures Valid() && this.pmm == pmm && this.mags == mags
    {
      this.pmm, this.mags := pmm, mags;
      stacks, owner := seq(|mags|, c => []), map[];
    }

    /** An allocation on one core. */
    method Alloc(core: nat) returns (r: Option<nat>)
      requires Valid() && core < |mags|
      modifies this`stacks, this`owner, mags[core], mags[core].pages, pmm`mem, pmm`lists, pmm`live, pmm.freelist,
        pmm.pfndb
      ensures r.Some? ==> Valid() && r.value in owner && owner[r.value] == Client
      ensures r.Some? && r.value in old(owner) ==> old(owner)[r.value] == Slot(core)
      ensures r.Some? ==> forall f :: f in old(owner) && f != r.value ==> f in owner && owner[f] == old(owner[f])
      ensures r.Some? ==> forall f :: f in owner && f !in old(owner) && f != r.value ==> owner[f] == Slot(core)
      ensures r.Some? ==> SameLarge(old(pmm.live), pmm.live)
      ensures r.None? ==> forall f: nat :: !IsFree(pmm.lists, f)
    {
      ghost var was, live := stacks, pmm.live;
      r := TakeOne(core);
      if r.None? { return; }
      if was[core] != [] {
        PopOwned(was, owner, live, core, stacks[core], r.value);
        owner := owner[r.value := Client];
      } else {
        RefillOwned(was, owner, live, core, stacks[core], r.value);
        owner := Reowned(owner, stacks[core], Slot(core))[r.value := Client];
      }
    }

    method TakeOne(core: nat) returns (r: Option<nat>)
      requires Stacked() && core < |mags|
      modifies this`stacks, mags[core], mags[core].pages, pmm`mem, pmm`lists, pmm`live, pmm.freelist, pmm.pfndb
      ensures r.None? ==> forall f: nat :: !IsFree(pmm.lists, f)
      ensures r.Some? ==> Stacked() && stacks == old(stacks)[core := stacks[core]]
      ensures r.Some? && old(stacks)[core] != [] ==>
                old(stacks)[core] == stacks[core] + [r.value] && pmm.live == old(pmm.live)
      ensures r.Some? && old(stacks)[core] == [] ==>
                NoDup(stacks[core] + [r.value]) && Blocks(stacks[core] + [r.value]) !! old(pmm.live)
      ensures r.Some? && old(stacks)[core] == [] ==> pmm.live == old(pmm.live) + Blocks(stacks[core] + [r.value])
    {
      assert MagAt(core);
      r := mags[core].Alloc(pmm);
      if r.None? { return; }
      stacks := stacks[core := mags[core].Contents()];
      forall c | 0 <= c < |mags|
        ensures MagAt(c)
      {
        assert old(MagAt(c));
      }
    }

    /** A free on one core of a frame that a client holds, from whichever core it came. */
    method Free(core: nat, f: nat)
      requires Valid() && core < |mags| && f in owner && owner[f] == Client
      modifies this`stacks, this`owner, mags[core], mags[core].pages, pmm`mem, pmm`lists, pmm`live, pmm.freelist,
        pmm.pfndb
      ensures Valid() && f in owner && owner[f] == Slot(core)
      ensures forall g :: g in owner && g != f ==> g in old(owner) && owner[g] == old(owner)[g]
      ensures forall g :: g in old(owner) && g !in owner ==> old(owner)[g] == Slot(core)
      ensures SameLarge(old(pmm.live), pmm.live)
    {
      ghost var was, live := stacks, pmm.live;
      StackedAreLive(was, owner, live, core);
      ghost var keep := PutBack(core, f);
      FreeOwned(was, owner, live, core, keep, f);
      owner := Freed(owner, was[core][keep..], f, core);
    }

    method PutBack(core: nat, f: nat) returns (ghost keep: nat)
      requires Stacked() && core < |mags| && NoDup(stacks[core]) && Blocks(stacks[core]) <= pmm.live
      modifies this`stacks, mags[core], mags[core].pages, pmm`mem, pmm`lists, pmm`live, pmm.freelist, pmm.pfndb
      ensures Stacked() && keep <= |old(stacks)[core]| && stacks == old(stacks)[core := old(stacks)[core][..keep] + [f]]
      ensures pmm.live == old(pmm.live) - Blocks(old(stacks)[core][keep..])
    {
      assert MagAt(core);
      keep := if |stacks[core]| < MAG_CAPACITY then |stacks[core]| else MAG_CAPACITY / 2;
      mags[core].Free(pmm, f);
      stacks := stacks[core := stacks[core][..keep] + [f]];
      forall c | 0 <= c < |mags|
        ensures MagAt(c)
      {
        assert old(MagAt(c));
      }
    }

    /** A client that goes to the allocator directly, for one frame or for a larger block. */
    method AllocOrder(order: nat) returns (r: Option<nat>)
      requires Valid() && order <= ORDER_MAX
      modifies this`owner, pmm`mem, pmm`lists, pmm`live, pmm.freelist, pmm.pfndb
      ensures Valid()
      ensures r.None? ==> pmm.live == old(pmm.live) && owner == old(owner) && Crowded(pmm.managed, pmm.live, order)
      ensures r.Some? ==> pmm.live == old(pmm.live) + {(r.value, order)} && (r.value, order) !in old(pmm.live)
      ensures r.Some? ==> owner == if order == 0 then old(owner)[r.value := Client] else old(owner)
    {
      ghost var live := pmm.live;
      r := TakeBlock(pmm, order);
      if r.Some? {
        TakeOwned(stacks, owner, live, r.value, order);
        if order == 0 { owner := owner[r.value := Client]; }
      }
      MagsUnmoved();
    }

    method FreeOrder(block: nat, order: nat)
      requires Valid() && order <= ORDER_MAX && (block, order) in pmm.live
      requires (order == 0 ==> block in owner && owner[block] == Client)
      modifies this`owner, pmm`mem, pmm`lists, pmm`live, pmm.freelist, pmm.pfndb
      ensures Valid() && pmm.live == old(pmm.live) - {(block, order)}
      ensures owner == if order == 0 then old(owner) - {block} else old(owner)
    {
      ghost var live := pmm.live;
      GiveBlock(pmm, block, order);
      GiveOwned(stacks, owner, live, block, order);
      if order == 0 { owner := owner - {block}; }
      MagsUnmoved();
    }

    /**
     Any interleaving of the cores' operations and of direct ones: every operation gets the answer it is owed, what
     clients hold is what they got and have not given, and each frame has one owner. It ends early only at a core's
     request when the allocator has no frame at all.
     */
    method Interleave(ops: seq<CoreOp>, holding: set<(nat, nat)>)
      returns (ghost log: Log, held: set<(nat, nat)>, ok: bool)
      requires Valid() && Holding(holding, pmm.live, owner)
      modifies this`stacks, this`owner, mags, (set m | m in mags :: m.pages), pmm`mem, pmm`lists, pmm`live,
        pmm.freelist, pmm.pfndb
      ensures AllOwed(log, |mags|, pmm.managed, holding) && held == HeldBy(holding, log)
      ensures ok ==> OpsOf(log) == ops && Valid() && Holding(held, pmm.live, owner)
      ensures !ok ==> Exhausted(ops, log) && forall f: nat :: !IsFree(pmm.lists, f)
    {
      log, held, ok := Start, holding, true;
      for i := 0 to |ops|
        invariant ok && Valid() && Holding(held, pmm.live, owner)
        invariant AllOwed(log, |mags|, pmm.managed, holding) && held == HeldBy(holding, log) && OpsOf(log) == ops[..i]
        invariant pmm.freelist == old(pmm.freelist) && pmm.pfndb == old(pmm.pfndb)
      {
        ghost var a;
        var now;
        ok, a, now := Step(ops[i], held);
        if !ok { return; }
        LogNext(log, ops, i, a);
        log, held := Then(log, ops[i], a), now;
      }
    }

    method Step(op: CoreOp, holding: set<(nat, nat)>) returns (ok: bool, ghost a: Answer, held: set<(nat, nat)>)
      requires Valid() && Holding(holding, pmm.live, owner)
      modifies this`stacks, this`owner, mags, (set m | m in mags :: m.pages), pmm`mem, pmm`lists, pmm`live,
        pmm.freelist, pmm.pfndb
      ensures pmm.freelist == old(pmm.freelist) && pmm.pfndb == old(pmm.pfndb)
      ensures ok ==> Valid() && Holding(held, pmm.live, owner)
      ensures ok ==> Owed(op, a, |mags|, pmm.managed, holding) && held == HeldAfter(holding, op, a)
      ensures !ok ==> op.CoreAlloc? && forall f: nat :: !IsFree(pmm.lists, f)
      ensures ok && op.CoreAlloc? && op.core < |mags| ==> a.Got? && held == holding + {(a.block, 0)}
      ensures op.CoreFree? && op.core < |mags| && (op.frame, 0) in holding ==> held == holding - {(op.frame, 0)}
      ensures op.DirectFree? && op.order <= ORDER_MAX && (op.block, op.order) in holding ==>
                held == holding - {(op.block, op.order)}
    {
      ok, a, held := true, Skipped, holding;
      match op
      case CoreAlloc(core) =>
        if core < |mags| { ok, a, held := AllocStep(core, holding); }
      case CoreFree(core, f) =>
        if core < |mags| && (f, 0) in held {
          held := FreeStep(core, f, holding);
          a := Gave;
        }
      case DirectAlloc(order) =>
        if order <= ORDER_MAX { a, held := DirectStep(order, holding); }
      case DirectFree(block, order) =>
        if order <= ORDER_MAX && (block, order) in held {
          FreeOrder(block, order);
          a, held := Gave, held - {(block, order)};
        }
    }

    /** A core's allocation: a frame that no client holds, unless there is none. */
    method AllocStep(core: nat, holding: set<(nat, nat)>) returns (ok: bool, ghost a: Answer, held: set<(nat, nat)>)
      requires Valid() && Holding(holding, pmm.live, owner) && core < |mags|
      modifies this`stacks, this`owner, mags[core], mags[core].pages, pmm`mem, pmm`lists, pmm`live, pmm.freelist,
        pmm.pfndb
      ensures ok ==> Valid() && Holding(held, pmm.live, owner)
      ensures ok ==> a.Got? && Unheld(holding, pmm.managed, a.block, 0) && held == holding + {(a.block, 0)}
      ensures !ok ==> forall f: nat :: !IsFree(pmm.lists, f)
    {
      var r := Alloc(core);
      ok, a, held := r.Some?, Skipped, holding;
      if ok {
        a, held := Got(r.value), holding + {(r.value, 0)};
        NewIsUnheld(pmm.pfndb.Length, pmm.managed, State(pmm.lists, pmm.live), holding, r.value, 0);
      }
    }

    method FreeStep(core: nat, f: nat, holding: set<(nat, nat)>) returns (held: set<(nat, nat)>)
      requires Valid() && Holding(holding, pmm.live, owner) && core < |mags| && (f, 0) in holding
      modifies this`stacks, this`owner, mags[core], mags[core].pages, pmm`mem, pmm`lists, pmm`live, pmm.freelist,
        pmm.pfndb
      ensures Valid() && held == holding - {(f, 0)} && Holding(held, pmm.live, owner)
    {
      Free(core, f);
      held := holding - {(f, 0)};
    }

    /** A direct allocation: a block that overlaps nothing clients hold, unless there is no room. */
    method DirectStep(order: nat, holding: set<(nat, nat)>) returns (ghost a: Answer, held: set<(nat, nat)>)
      requires Valid() && Holding(holding, pmm.live, owner) && order <= ORDER_MAX
      modifies this`owner, pmm`mem, pmm`lists, pmm`live, pmm.freelist, pmm.pfndb
      ensures Valid() && Holding(held, pmm.live, owner)
      ensures Owed(DirectAlloc(order), a, |mags|, pmm.managed, holding)
      ensures held == HeldAfter(holding, DirectAlloc(order), a)
    {
      var r := AllocOrder(order);
      if r.Some? {
        a, held := Got(r.value), holding + {(r.value, order)};
        NewIsUnheld(pmm.pfndb.Length, pmm.managed, State(pmm.lists, pmm.live), holding, r.value, order);
      } else {
        a, held := NoRoom(Kept(owner)), holding;
        forall c | 0 <= c < |stacks|
          ensures |stacks[c]| <= MAG_CAPACITY
        {
          assert MagAt(c);
        }
        KeptFew(stacks, owner, pmm.live);
        CrowdedIsFull(stacks, owner, pmm.live, holding, pmm.managed, order);
      }
    }

    twostate lemma MagsUnmoved()
      requires |mags| == old(|stacks|) && stacks == old(stacks)
      requires forall c :: 0 <= c < |mags| ==> unchanged(mags[c]) && unchanged(mags[c].pages)
      requires forall c {:trigger MagAt(c)} :: 0 <= c < |mags| ==> old(MagAt(c))
      ensures forall c {:trigger MagAt(c)} :: 0 <= c < |mags| ==> MagAt(c)
    {
    }
  }

  /**
   Each managed frame is free, in a magazine or a client's hands as a single frame, or part of a larger block: just one
   of them.
   */
  lemma OnePlace(limit: nat, managed: set<nat>, s: State, stacks: seq<seq<nat>>, owner: map<nat, Owner>, f: nat)
    requires Inv(limit, managed, s) && Owned(stacks, owner, s.live) && f in managed
    ensures var large := exists b, k :: (b, k) in s.live && k > 0 && InBlock(f, b, k);
            && (IsFree(s.lists, f) || f in owner || large)
            && !(IsFree(s.lists, f) && f in owner) && !(IsFree(s.lists, f) && large) && !(f in owner && large)
    ensures f in owner ==> owner[f].Client? || (owner[f].core < |stacks| && f in stacks[owner[f].core])
    ensures forall c, d :: 0 <= c < |stacks| && 0 <= d < |stacks| && f in stacks[c] && f in stacks[d] ==> c == d
  {
    FreeIsNotLive(limit, managed, s, f);
    if f in owner {
      assert (f, 0) in s.live && InBlock(f, f, 0);
      forall b, k | (b, k) in s.live && k > 0
        ensures !InBlock(f, b, k)
      {
        assert Apart(f, 0, b, k);
      }
    }
    if IsLive(s.live, f) {
      var b, k :| (b, k) in s.live && InBlock(f, b, k);
      if k == 0 { assert b == f; }
    }
  }
}
