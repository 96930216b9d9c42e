/**
 The buddy allocator as the kernel runs it: an array of list heads, free-list links stored in
 the free frames themselves, and one flag word per frame that lets `free_order` decide in
 constant time whether a buddy is free. Frame 0 is the list terminator.
 */
module BuddyAllocator {
  import opened Wrappers
  import opened Bits
  import opened BuddySpec

  /** The PF_ bits of a frame's flag word, one field each. */
  datatype Flags = Flags(free: bool, kernel: bool, pageTable: bool, vmo: bool, pinned: bool, buddyHead: bool)

  const PF_KERNEL := Flags(false, true, false, false, false, false)
  const PF_FREE_BUDDY_HEAD := Flags(true, false, false, false, false, true)

  datatype PageFrame = PageFrame(refcount: nat, flags: Flags, buddyOrder: nat)

  /** The two words at the start of a free block. */
  datatype FreeBlock = FreeBlock(prev: nat, next: nat)

  /** The constant-time test of `free_order`: FREE and BUDDY_HEAD both set. */
  predicate IsHead(p: PageFrame) {
    p.flags.free && p.flags.buddyHead
  }

  predicate HasFree(p: PageFrame) {
    p.flags.free
  }

  // ---------------------------------------------------------------- links

  /** Node i of the list l carries the links of its neighbours, 0 standing for none. */
  ghost predicate NodeAt(mem: map<nat, FreeBlock>, l: seq<nat>, i: nat)
    requires i < |l|
  {
    && l[i] != 0
    && l[i] in mem
    && mem[l[i]] == FreeBlock(if i == 0 then 0 else l[i - 1], if i + 1 == |l| then 0 else l[i + 1])
  }

  /** `head` starts the acyclic doubly linked list whose nodes are, in order, the elements of l. */
  ghost predicate Linked(mem: map<nat, FreeBlock>, head: nat, l: seq<nat>) {
    && NoDup(l)
    && head == (if l == [] then 0 else l[0])
    && (forall i :: 0 <= i < |l| ==> NodeAt(mem, l, i))
  }

  lemma LinkedFrame(mem: map<nat, FreeBlock>, mem': map<nat, FreeBlock>, head: nat, l: seq<nat>)
    requires Linked(mem, head, l)
    requires forall x :: x in l ==> x in mem' && x in mem && mem'[x] == mem[x]
    ensures Linked(mem', head, l)
  {
    forall i | 0 <= i < |l| ensures NodeAt(mem', l, i) {
      assert NodeAt(mem, l, i) && l[i] in l;
    }
  }

  lemma LinkedMembers(mem: map<nat, FreeBlock>, head: nat, l: seq<nat>)
    requires Linked(mem, head, l)
    ensures forall x :: x in l ==> x != 0 && x in mem
    ensures head != 0 <==> l != []
    ensures head != 0 ==> head in mem
  {
    forall i | 0 <= i < |l| ensures l[i] != 0 && l[i] in mem { assert NodeAt(mem, l, i); }
  }

  /** Writing a new head in front and pointing the old head back at it. */
  function PushMem(mem: map<nat, FreeBlock>, head: nat, b: nat): map<nat, FreeBlock>
    requires head != 0 ==> head in mem
  {
    var m := if head != 0 then mem[head := mem[head].(prev := b)] else mem;
    m[b := FreeBlock(0, head)]
  }

  lemma LinkedPush(mem: map<nat, FreeBlock>, head: nat, l: seq<nat>, b: nat)
    requires Linked(mem, head, l) && b != 0 && b !in l
    ensures head != 0 ==> head in mem
    ensures Linked(PushMem(mem, head, b), b, [b] + l)
  {
    LinkedMembers(mem, head, l);
    var m, k := PushMem(mem, head, b), [b] + l;
    forall i | 0 <= i < |k| ensures NodeAt(m, k, i) {
      if i > 0 { assert NodeAt(mem, l, i - 1) && k[i] == l[i - 1]; }
    }
  }

  /** Bypassing node b: its neighbours are joined and its own links cleared. */
  function UnlinkMem(mem: map<nat, FreeBlock>, b: nat): map<nat, FreeBlock>
    requires b in mem
    requires mem[b].prev != 0 ==> mem[b].prev in mem
    requires mem[b].next != 0 ==> mem[b].next in mem
  {
    var prev, next := mem[b].prev, mem[b].next;
    var m := if prev != 0 then mem[prev := mem[prev].(next := next)] else mem;
    var m' := if next != 0 then m[next := m[next].(prev := prev)] else m;
    m'[b := FreeBlock(0, 0)]
  }

  lemma LinkedUnlink(mem: map<nat, FreeBlock>, head: nat, l: seq<nat>, i: nat)
    requires Linked(mem, head, l) && i < |l|
    ensures l[i] in mem
    ensures mem[l[i]].prev != 0 ==> mem[l[i]].prev in mem && mem[l[i]].prev in l
    ensures mem[l[i]].next != 0 ==> mem[l[i]].next in mem && mem[l[i]].next in l
    ensures mem[l[i]].prev == 0 <==> i == 0
    ensures Linked(UnlinkMem(mem, l[i]), if i == 0 then mem[l[i]].next else head, l[..i] + l[i + 1..])
  {
    LinkedMembers(mem, head, l);
    assert NodeAt(mem, l, i);
    var m, k := UnlinkMem(mem, l[i]), l[..i] + l[i + 1..];
    forall j | 0 <= j < |k| ensures NodeAt(m, k, j) {
      var o := if j < i then j else j + 1;
      assert k[j] == l[o];
      assert NodeAt(mem, l, o);
    }
  }

  // ---------------------------------------------------------------- representation

  ghost predicate LinksRep(freelist: seq<nat>, mem: map<nat, FreeBlock>, lists: Lists) {
    |freelist| == ORDER_MAX + 1 && forall k :: 0 <= k <= ORDER_MAX ==> Linked(mem, freelist[k], lists[k])
  }

  predicate HeadAt(pfndb: seq<PageFrame>, f: nat, k: nat) {
    f < |pfndb| && IsHead(pfndb[f]) && pfndb[f].buddyOrder == k
  }

  /** The flag test agrees with list membership, at the recorded order, for every frame. */
  ghost predicate FlagsRep(pfndb: seq<PageFrame>, lists: Lists) {
    && (forall f :: 0 <= f < |pfndb| && IsHead(pfndb[f]) ==>
          pfndb[f].buddyOrder <= ORDER_MAX && f in lists[pfndb[f].buddyOrder])
    && (forall k, f :: 0 <= k <= ORDER_MAX && f in lists[k] ==> HeadAt(pfndb, f, k))
  }

  ghost predicate NoLiveFlaggedFree(pfndb: seq<PageFrame>, live: set<(nat, nat)>) {
    forall b, k :: (b, k) in live ==> b < |pfndb| && !HasFree(pfndb[b])
  }

  lemma NotListed(lists: Lists, b: nat, j: nat, k: nat)
    requires Unused(lists, b, j) && k <= ORDER_MAX
    ensures forall c :: c in lists[k] ==> !InBlock(c, b, j)
    ensures b !in lists[k]
  {
    forall c | c in lists[k] ensures !InBlock(c, b, j) { assert Apart(b, j, c, k); }
    assert InBlock(b, b, j);
  }

  lemma PushRep(freelist: seq<nat>, mem: map<nat, FreeBlock>, pfndb: seq<PageFrame>, lists: Lists, b: nat, k: nat,
                j: nat, p: PageFrame)
    requires k <= ORDER_MAX && LinksRep(freelist, mem, lists) && FlagsRep(pfndb, lists)
    requires 0 < b < |pfndb| && Unused(lists, b, j) && PairwiseApart(lists)
    requires IsHead(p) && p.buddyOrder == k
    ensures var ls: Lists := lists[k := [b] + lists[k]];
            && (freelist[k] != 0 ==> freelist[k] in mem && freelist[k] != b)
            && LinksRep(freelist[k := b], PushMem(mem, freelist[k], b), ls)
            && FlagsRep(pfndb[b := p], ls)
  {
    var ls: Lists := lists[k := [b] + lists[k]];
    LinkedMembers(mem, freelist[k], lists[k]);
    NotListed(lists, b, j, k);
    assert freelist[k] != 0 ==> freelist[k] in lists[k];
    var m := PushMem(mem, freelist[k], b);
    forall i | 0 <= i <= ORDER_MAX ensures Linked(m, freelist[k := b][i], ls[i]) {
      LinkedMembers(mem, freelist[i], lists[i]);
      NotListed(lists, b, j, i);
      if i == k {
        LinkedPush(mem, freelist[k], lists[k], b);
      } else {
        forall x | x in lists[i] ensures x in m && m[x] == mem[x] {
          if freelist[k] != 0 { assert Apart(x, i, freelist[k], k); }
        }
        LinkedFrame(mem, m, freelist[i], lists[i]);
      }
    }
    forall i, f | 0 <= i <= ORDER_MAX && f in ls[i]
      ensures HeadAt(pfndb[b := p], f, i)
    {
      NotListed(lists, b, j, i);
    }
  }

  /** Unlinking a node from anywhere in its list, and what the flags may then say about it. */
  lemma TakeLinks(freelist: seq<nat>, mem: map<nat, FreeBlock>, lists: Lists, b: nat, k: nat)
    requires k <= ORDER_MAX && LinksRep(freelist, mem, lists) && b in lists[k] && PairwiseApart(lists)
    ensures && b in mem && (mem[b].prev != 0 ==> mem[b].prev in mem) && (mem[b].next != 0 ==> mem[b].next in mem)
            && (mem[b].prev == 0 <==> freelist[k] == b)
            && LinksRep(if mem[b].prev == 0 then freelist[k := mem[b].next]
                          else freelist, UnlinkMem(mem, b), Unlinked(lists, b, k))
  {
    var ls := Unlinked(lists, b, k);
    assert Linked(mem, freelist[k], lists[k]);
    var n :| 0 <= n < |lists[k]| && lists[k][n] == b;
    LinkedUnlink(mem, freelist[k], lists[k], n);
    WithoutAt(lists[k], n);
    var m := UnlinkMem(mem, b);
    var fl := if mem[b].prev == 0 then freelist[k := mem[b].next] else freelist;
    forall i | 0 <= i <= ORDER_MAX ensures Linked(m, fl[i], ls[i]) {
      LinkedMembers(mem, freelist[i], lists[i]);
      if i != k {
        forall x | x in lists[i] ensures x in m && m[x] == mem[x] {
          assert x !in lists[k] by { assert !Apart(x, i, x, k); }
        }
        LinkedFrame(mem, m, freelist[i], lists[i]);
      }
    }
  }

  lemma TakeFlags(pfndb: seq<PageFrame>, lists: Lists, b: nat, k: nat, p: PageFrame)
    requires k <= ORDER_MAX && FlagsRep(pfndb, lists) && b in lists[k] && PairwiseApart(lists) && ListsNoDup(lists)
    requires !IsHead(p)
    ensures HeadAt(pfndb, b, k) && FlagsRep(pfndb[b := p], Unlinked(lists, b, k))
  {
    var ls := Unlinked(lists, b, k);
    assert HeadAt(pfndb, b, k) && NoDup(lists[k]);
    WithoutMembers(lists[k], b);
    forall i, f | 0 <= i <= ORDER_MAX && f in ls[i] ensures HeadAt(pfndb[b := p], f, i) {
      assert f in lists[i];
      assert !Apart(b, i, b, k);
    }
  }

  /** Popping the head: the popped node keeps its own stale links. */
  lemma PopLinks(freelist: seq<nat>, mem: map<nat, FreeBlock>, lists: Lists, k: nat)
    requires k <= ORDER_MAX && LinksRep(freelist, mem, lists) && lists[k] != [] && PairwiseApart(lists)
    requires ListsNoDup(lists)
    ensures var b := lists[k][0];
            && b in mem && (mem[b].next != 0 ==> mem[b].next in mem)
            && LinksRep(freelist[k := mem[b].next],
                        if mem[b].next != 0 then mem[mem[b].next := mem[mem[b].next].(prev := 0)] else mem,
                        lists[k := lists[k][1..]])
  {
    var b := lists[k][0];
    assert Linked(mem, freelist[k], lists[k]);
    assert b in lists[k] && freelist[k] == b;
    TakeLinks(freelist, mem, lists, b, k);
    var ls := Unlinked(lists, b, k);
    var m' := if mem[b].next != 0 then mem[mem[b].next := mem[mem[b].next].(prev := 0)] else mem;
    var m := UnlinkMem(mem, b);
    var fl := freelist[k := mem[b].next];
    assert NoDup(lists[k]);
    WithoutMembers(lists[k], b);
    forall i | 0 <= i <= ORDER_MAX ensures Linked(m', fl[i], ls[i]) {
      LinkedMembers(m, fl[i], ls[i]);
      assert b !in ls[i] by { assert !Apart(b, i, b, k); }
      LinkedFrame(m, m', fl[i], ls[i]);
    }
  }

  lemma ReflagUnlisted(pfndb: seq<PageFrame>, lists: Lists, b: nat, k: nat, p: PageFrame)
    requires FlagsRep(pfndb, lists) && Unused(lists, b, k) && !IsHead(p) && b < |pfndb|
    ensures FlagsRep(pfndb[b := p], lists)
  {
    forall i, f | 0 <= i <= ORDER_MAX && f in lists[i] ensures HeadAt(pfndb[b := p], f, i) {
      NotListed(lists, b, k, i);
    }
  }

  /** What one turn of the split loop relies on. */
  lemma UpperHalfReady(limit: nat, lists: Lists, b: nat, i: nat, from: nat, target: nat, up: nat)
    requires target <= i < from <= ORDER_MAX && WellFormed(limit, lists) && GoodBlock(limit, b, i + 1)
    requires Unused(lists, b, i + 1)
    requires up == b + Pow2(i)
    ensures GoodBlock(limit, up, i) && Unused(lists, up, i) && !CanMerge(lists, up, i)
    ensures up != b && InBlock(up, b, from)
    ensures GoodBlock(limit, b, i) && Unused(lists[i := [up] + lists[i]], b, i)
    ensures Split(lists, b, i + 1, target) == Split(lists[i := [up] + lists[i]], b, i, target)
  {
    Halve(limit, lists, b, i + 1);
    SplitStep(limit, lists, b, i + 1);
    Pow2Mono(i + 1, from);
  }

  /** What one turn of the merge loop relies on: the flags alone tell that the buddy is on its list. */
  lemma ClimbReady(pfndb: seq<PageFrame>, lists: Lists, b: nat, k: nat, c: nat)
    requires k < ORDER_MAX && WellFormed(|pfndb|, lists) && FlagsRep(pfndb, lists)
    requires GoodBlock(|pfndb|, b, k) && Unused(lists, b, k) && c == Buddy(b, k) && HeadAt(pfndb, c, k)
    ensures CanMerge(lists, b, k) && IsFree(lists, c)
    ensures Free(lists, b, k) == Free(Unlinked(lists, c, k), Lower(b, c), k + 1)
    ensures GoodBlock(|pfndb|, Lower(b, c), k + 1) && Unused(Unlinked(lists, c, k), Lower(b, c), k + 1)
    ensures forall f :: IsFree(lists, f) || InBlock(f, b, k) <==>
              IsFree(Unlinked(lists, c, k), f) || InBlock(f, Lower(b, c), k + 1)
  {
    assert InBlock(c, c, k);
    MergeKeeps(|pfndb|, lists, b, k);
  }

  /** Reflagging frames inside one free block does not touch any live block's first frame. */
  lemma LiveUntouched(pfndb: seq<PageFrame>, pfndb': seq<PageFrame>, s: State, addr: nat, order: nat)
    requires NoLiveFlaggedFree(pfndb, s.live) && |pfndb'| == |pfndb|
    requires forall b, k :: (b, k) in s.live ==> Unused(s.lists, b, k)
    requires order <= ORDER_MAX && addr in s.lists[order]
    requires forall f :: 0 <= f < |pfndb| && !InBlock(f, addr, order) ==> pfndb'[f] == pfndb[f]
    ensures NoLiveFlaggedFree(pfndb', s.live)
  {
    forall b, k | (b, k) in s.live ensures b < |pfndb'| && !HasFree(pfndb'[b]) {
      assert Apart(b, k, addr, order);
    }
  }

  /** Links and flags both represent `lists`, and the buddy index is always inside the frame database. */
  ghost predicate RepOf(freelist: seq<nat>, pfndb: seq<PageFrame>, mem: map<nat, FreeBlock>, lists: Lists) {
    && Aligned(|pfndb|, ORDER_MAX)
    && LinksRep(freelist, mem, lists)
    && FlagsRep(pfndb, lists)
    && WellFormed(|pfndb|, lists)
  }

  function FreeHead(k: nat): PageFrame {
    PageFrame(0, PF_FREE_BUDDY_HEAD, k)
  }

  function Unflagged(p: PageFrame): PageFrame {
    p.(refcount := 0, flags := p.flags.(free := false, buddyHead := false))
  }

  lemma PushStep(freelist: seq<nat>, pfndb: seq<PageFrame>, mem: map<nat, FreeBlock>, lists: Lists, b: nat, k: nat)
    requires RepOf(freelist, pfndb, mem, lists) && k <= ORDER_MAX
    requires GoodBlock(|pfndb|, b, k) && Unused(lists, b, k) && !CanMerge(lists, b, k)
    ensures freelist[k] != 0 ==> freelist[k] in mem && freelist[k] != b
    ensures RepOf(freelist[k := b], pfndb[b := FreeHead(k)], PushMem(mem, freelist[k], b), lists[k := [b] + lists[k]])
  {
    PushKeeps(|pfndb|, lists, b, k);
    PushRep(freelist, mem, pfndb, lists, b, k, k, FreeHead(k));
  }

  lemma PopStep(freelist: seq<nat>, pfndb: seq<PageFrame>, mem: map<nat, FreeBlock>, lists: Lists, k: nat)
    requires RepOf(freelist, pfndb, mem, lists) && k <= ORDER_MAX && lists[k] != []
    ensures |freelist| == ORDER_MAX + 1 && freelist[k] == lists[k][0] < |pfndb| && freelist[k] in mem
    ensures var b := freelist[k]; var next := mem[b].next;
            && (next != 0 ==> next in mem)
            && RepOf(freelist[k := next], pfndb[b := Unflagged(pfndb[b])],
                     if next != 0 then mem[next := mem[next].(prev := 0)] else mem, lists[k := lists[k][1..]])
            && GoodBlock(|pfndb|, b, k) && Unused(lists[k := lists[k][1..]], b, k)
  {
    var b := lists[k][0];
    assert Linked(mem, freelist[k], lists[k]) && b in lists[k];
    TakeKeeps(|pfndb|, lists, b, k);
    assert HeadAt(pfndb, b, k);
    TakeFlags(pfndb, lists, b, k, Unflagged(pfndb[b]));
    PopLinks(freelist, mem, lists, k);
    assert Unlinked(lists, b, k) == lists[k := lists[k][1..]];
  }

  // ---------------------------------------------------------------- the allocator

  class Allocator {
    var freelist: array<nat>
    var pfndb: array<PageFrame>
    var mem: map<nat, FreeBlock>
    ghost var lists: Lists
    ghost var live: set<(nat, nat)>
    ghost var managed: set<nat>

    ghost predicate Rep()
      reads this, freelist, pfndb
    {
      RepOf(freelist[..], pfndb[..], mem, lists)
    }

    ghost predicate Valid()
      reads this, freelist, pfndb
    {
      && Rep()
      && Inv(pfndb.Length, managed, State(lists, live))
      && NoLiveFlaggedFree(pfndb[..], live)
    }

    /** Frames the allocator has never been given: the state `init` builds before carving. */
    constructor (totalFrames: nat)
      requires Aligned(totalFrames, ORDER_MAX)
      ensures Valid() && pfndb.Length == totalFrames && fresh(freelist) && fresh(pfndb)
      ensures lists == seq(ORDER_MAX + 1, i => []) && live == {} && managed == {}
      ensures forall f :: 0 <= f < totalFrames ==> !HasFree(pfndb[f])
    {
      freelist := new nat[ORDER_MAX + 1](i => 0);
      pfndb := new PageFrame[totalFrames](i => PageFrame(1, PF_KERNEL, 0));
      mem := map[];
      lists := seq(ORDER_MAX + 1, i => []);
      live := {};
      managed := {};
    }

    /** Put an unused block at the front of its free list and flag its first frame as a free head. */
    method PushFree(addr: nat, order: nat)
      requires Rep() && order <= ORDER_MAX
      requires GoodBlock(pfndb.Length, addr, order) && Unused(lists, addr, order) && !CanMerge(lists, addr, order)
      modifies `mem, `lists, freelist, pfndb
      ensures Rep() && lists == old(lists)[order := [addr] + old(lists)[order]]
      ensures pfndb[..] == old(pfndb[..])[addr := FreeHead(order)]
    {
      PushStep(freelist[..], pfndb[..], mem, lists, addr, order);

      pfndb[addr] := PageFrame(0, PF_FREE_BUDDY_HEAD, order);
      var oldHead := freelist[order];
      mem := mem[addr := FreeBlock(0, oldHead)];
      if oldHead != 0 {
        mem := mem[oldHead := mem[oldHead].(prev := addr)];
      }
      freelist[order] := addr;
      lists := lists[order := [addr] + lists[order]];

      assert freelist[..] == old(freelist[..])[order := addr];
      assert pfndb[..] == old(pfndb[..])[addr := FreeHead(order)];
      assert mem == PushMem(old(mem), oldHead, addr);
    }

    /** Halve a held block down to the wanted order, pushing every upper half (`split_block`). */
    method SplitBlock(addr: nat, from: nat, target: nat)
      requires Rep() && target <= from <= ORDER_MAX
      requires GoodBlock(pfndb.Length, addr, from) && Unused(lists, addr, from)
      modifies `mem, `lists, freelist, pfndb
      ensures Rep() && GoodBlock(pfndb.Length, addr, target) && Unused(lists, addr, target)
      ensures lists == Split(old(lists), addr, from, target)
      ensures forall f :: 0 <= f < pfndb.Length && (f == addr || !InBlock(f, addr, from)) ==> pfndb[f] == old(pfndb[f])
    {
      var order: nat := from;
      ghost var goal := Split(lists, addr, from, target);
      while order > target
        invariant target <= order <= from
        invariant Rep() && GoodBlock(pfndb.Length, addr, order) && Unused(lists, addr, order)
        invariant Split(lists, addr, order, target) == goal
        invariant forall f :: 0 <= f < pfndb.Length && (f == addr || !InBlock(f, addr, from)) ==>
                    pfndb[f] == old(pfndb[f])
      {
        order := order - 1;
        var buddy: nat := addr + Pow2(order);
        UpperHalfReady(pfndb.Length, lists, addr, order, from, target, buddy);
        PushFree(buddy, order);
      }
    }

    /** Pop the head of a non-empty list and clear its free and head flags. */
    method TakeFirst(order: nat) returns (addr: nat)
      requires Rep() && order <= ORDER_MAX && lists[order] != []
      modifies `mem, `lists, freelist, pfndb
      ensures addr == old(lists)[order][0] && lists == old(lists)[order := old(lists)[order][1..]]
      ensures Rep() && GoodBlock(pfndb.Length, addr, order) && Unused(lists, addr, order)
      ensures forall f :: 0 <= f < pfndb.Length && f != addr ==> pfndb[f] == old(pfndb[f])
    {
      PopStep(freelist[..], pfndb[..], mem, lists, order);
      addr := freelist[order];
      var next := mem[addr].next;
      if next != 0 {
        mem := mem[next := mem[next].(prev := 0)];
      }
      freelist[order] := next;
      pfndb[addr] := pfndb[addr].(refcount := 0, flags := pfndb[addr].flags.(free := false, buddyHead := false));
      lists := lists[order := lists[order][1..]];
      assert freelist[..] == old(freelist[..])[order := next];
      assert pfndb[..] == old(pfndb[..])[addr := Unflagged(old(pfndb[..])[addr])];
    }

    /** Carve an order-`target` block out of the first block of a non-empty list. */
    method AllocFrom(order: nat, target: nat) returns (addr: nat)
      requires Valid() && target <= order <= ORDER_MAX && lists[order] != []
      modifies `mem, `lists, freelist, pfndb
      ensures addr == old(lists)[order][0]
      ensures lists == Split(old(lists)[order := old(lists)[order][1..]], addr, order, target)
      ensures Rep() && addr < pfndb.Length
      ensures pfndb[addr].refcount == 1 && pfndb[addr].flags == PF_KERNEL
      ensures NoLiveFlaggedFree(pfndb[..], live)
    {
      addr := TakeFirst(order);
      SplitBlock(addr, order, target);
      ghost var split := pfndb[..];
      ghost var held := PageFrame(1, PF_KERNEL, split[addr].buddyOrder);
      ReflagUnlisted(split, lists, addr, target, held);
      pfndb[addr] := pfndb[addr].(refcount := 1, flags := PF_KERNEL);
      assert pfndb[..] == split[addr := held];
      LiveUntouched(old(pfndb[..]), pfndb[..], State(old(lists), live), addr, order);
    }

    /** Find the least order with a free block and allocate from it (`alloc_order`). */
    method AllocOrder(target: nat) returns (r: Option<nat>)
      requires Valid() && target <= ORDER_MAX
      modifies `mem, `lists, `live, freelist, pfndb
      ensures Valid()
      ensures (r, lists) == Alloc(old(lists), target)
      ensures live == old(live) + (if r.Some? then {(r.value, target)} else {})
      ensures r.None? ==> mem == old(mem) && freelist[..] == old(freelist[..]) && pfndb[..] == old(pfndb[..])
      ensures r.Some? ==> r.value < pfndb.Length && pfndb[r.value].refcount == 1 && pfndb[r.value].flags == PF_KERNEL
    {
      ApplyAllocKeeps(pfndb.Length, managed, State(lists, live), target);
      var order: nat := target;
      while freelist[order] == 0
        invariant target <= order <= ORDER_MAX
        invariant FirstNonEmpty(lists, order) == FirstNonEmpty(lists, target)
        decreases ORDER_MAX - order
        modifies {}
      {
        assert Linked(mem, freelist[order], lists[order]) && lists[order] == [];
        order := order + 1;
        if order > ORDER_MAX {
          return None;
        }
      }
      assert Linked(mem, freelist[order], lists[order]) && lists[order] != [];
      var addr := AllocFrom(order, target);
      live := live + {(addr, target)};
      r := Some(addr);
    }

    /** Bypass a free buddy in its list and name the joined block (`merge_block`). */
    method MergeBlock(block: nat, buddy: nat, order: nat) returns (left: nat)
      requires order <= ORDER_MAX && buddy in lists[order]
      requires LinksRep(freelist[..], mem, lists) && PairwiseApart(lists)
      modifies `mem, `lists, freelist
      ensures lists == Unlinked(old(lists), buddy, order)
      ensures LinksRep(freelist[..], mem, lists)
      ensures left == Lower(block, buddy)
    {
      TakeLinks(freelist[..], mem, lists, buddy, order);
      ghost var fl, m := freelist[..], mem;
      var prev, next := mem[buddy].prev, mem[buddy].next;
      if prev != 0 {
        mem := mem[prev := mem[prev].(next := next)];
      } else {
        freelist[order] := next;
      }
      if next != 0 {
        mem := mem[next := mem[next].(prev := prev)];
      }
      mem := mem[buddy := mem[buddy].(prev := 0)];
      mem := mem[buddy := mem[buddy].(next := 0)];
      lists := Unlinked(lists, buddy, order);
      assert mem == UnlinkMem(m, buddy);
      assert freelist[..] == if prev == 0 then fl[order := next] else fl;
      left := if block < buddy then block else buddy;
    }

    /** Absorb a buddy the flags report free: clear its head flag and unlink it. */
    method AbsorbBuddy(addr: nat, order: nat, buddy: nat) returns (left: nat)
      requires Rep() && order < ORDER_MAX && buddy == Buddy(addr, order) && CanMerge(lists, addr, order)
      requires GoodBlock(pfndb.Length, addr, order) && Unused(lists, addr, order) && buddy < pfndb.Length
      modifies `mem, `lists, freelist, pfndb
      ensures Rep() && lists == Unlinked(old(lists), buddy, order) && left == Lower(addr, buddy)
      ensures GoodBlock(pfndb.Length, left, order + 1) && Unused(lists, left, order + 1)
      ensures FreeOr(lists, left, order + 1) == FreeOr(old(lists), addr, order)
      ensures forall f :: 0 <= f < pfndb.Length && f != buddy ==> pfndb[f] == old(pfndb[f])
    {
      MergeKeeps(pfndb.Length, lists, addr, order);
      ghost var cleared := pfndb[buddy].(flags := pfndb[buddy].flags.(buddyHead := false));
      assert !IsHead(cleared);
      TakeFlags(pfndb[..], lists, buddy, order, cleared);
      pfndb[buddy] := pfndb[buddy].(flags := pfndb[buddy].flags.(buddyHead := false));
      assert pfndb[..] == old(pfndb[..])[buddy := cleared];
      left := MergeBlock(addr, buddy, order);
    }

    /** Merge a block with its free buddies as far as they go and push the result (`free_order`).
        The double-free panic fires exactly on a set FREE flag, hence never on a live block. */
    method FreeOrder(block: nat, k: nat) returns (panicked: bool)
      requires Valid() && k <= ORDER_MAX && block < pfndb.Length
      requires HasFree(pfndb[block]) || (block, k) in live
      modifies `mem, `lists, `live, freelist, pfndb
      ensures Valid()
      ensures panicked == old(HasFree(pfndb[block]))
      ensures panicked ==> lists == old(lists) && live == old(live) && mem == old(mem)
      ensures (block, k) in old(live) ==>
                !panicked && lists == Free(old(lists), block, k) && live == old(live) - {(block, k)}
      ensures forall f :: 0 <= f < pfndb.Length && !InBlock(f, block, k) && !IsFree(old(lists), f) ==>
                pfndb[f] == old(pfndb[f])
    {
      if pfndb[block].flags.free {
        return true;
      }
      ghost var before := State(lists, live);
      ApplyFreeKeeps(pfndb.Length, managed, before, block, k);
      Climb(block, k);
      live := live - {(block, k)};
      forall c, j | (c, j) in live ensures c < pfndb.Length && !HasFree(pfndb[c]) {
        assert (c, j) in before.live && Apart(c, j, block, k);
        UnusedByFrames(before.lists, c, j);
        assert InBlock(c, c, j);
        assert pfndb[c] == old(pfndb[c]);
      }
      panicked := false;
    }

    /** Mid-merge: the block in hand leads to the same final lists and covers the same frames as at the start. */
    ghost predicate Climbing(addr: nat, order: nat, goal: Lists, touched: iset<nat>)
      requires order <= ORDER_MAX
      reads this, freelist, pfndb
    {
      && Rep() && GoodBlock(pfndb.Length, addr, order) && Unused(lists, addr, order)
      && Free(lists, addr, order) == goal && FreeOr(lists, addr, order) == touched
    }

    /** One turn of the merge loop: take the buddy in if the flags report it free at this order. */
    method ClimbStep(addr: nat, order: nat, ghost goal: Lists, ghost touched: iset<nat>)
      returns (left: nat, merged: bool)
      requires order < ORDER_MAX && Climbing(addr, order, goal, touched)
      modifies `mem, `lists, freelist, pfndb
      ensures merged ==> Climbing(left, order + 1, goal, touched)
      ensures !merged ==> Climbing(addr, order, goal, touched) && !CanMerge(lists, addr, order)
      ensures forall f :: 0 <= f < pfndb.Length && f !in touched ==> pfndb[f] == old(pfndb[f])
    {
      BuddyOf(addr, order);
      BuddyInRange(pfndb.Length, addr, order);
      var buddy := Xor(addr, Pow2(order));
      var p := pfndb[buddy];
      if IsHead(p) && order == p.buddyOrder {
        ClimbReady(pfndb[..], lists, addr, order, buddy);
        assert buddy in FreeOr(lists, addr, order);
        left := AbsorbBuddy(addr, order, buddy);
        merged := true;
      } else {
        assert !HeadAt(pfndb[..], buddy, order);
        left, merged := addr, false;
      }
    }

    /** The merge loop of `free_order` with the final push. */
    method Climb(block: nat, k: nat)
      requires Rep() && k <= ORDER_MAX && GoodBlock(pfndb.Length, block, k) && Unused(lists, block, k)
      modifies `mem, `lists, freelist, pfndb
      ensures Rep() && lists == Free(old(lists), block, k)
      ensures forall f :: 0 <= f < pfndb.Length && !InBlock(f, block, k) && !IsFree(old(lists), f) ==>
                pfndb[f] == old(pfndb[f])
    {
      var addr: nat, order: nat := block, k;
      ghost var goal, touched := Free(lists, block, k), FreeOr(lists, block, k);
      var merged := true;
      while order < ORDER_MAX && merged
        invariant k <= order <= ORDER_MAX && Climbing(addr, order, goal, touched)
        invariant !merged ==> !CanMerge(lists, addr, order)
        invariant forall f :: 0 <= f < pfndb.Length && f !in touched ==> pfndb[f] == old(pfndb[f])
        decreases ORDER_MAX - order, merged
      {
        var left;
        left, merged := ClimbStep(addr, order, goal, touched);
        if merged { addr, order := left, order + 1; }
      }
      assert InBlock(addr, addr, order) && addr in FreeOr(lists, addr, order);
      PushFree(addr, order);
    }

    /** Account for a block the allocator has not managed so far, as boot memory is before its first free. */
    ghost method Adopt(b: nat, k: nat)
      requires Valid() && k <= ORDER_MAX && GoodBlock(pfndb.Length, b, k)
      requires forall f :: InBlock(f, b, k) ==> f !in managed
      requires !HasFree(pfndb[b])
      modifies `live, `managed
      ensures Valid() && live == old(live) + {(b, k)}
      ensures forall f :: f in managed <==> f in old(managed) || InBlock(f, b, k)
    {
      var s := State(lists, live);
      UnusedByFrames(lists, b, k);
      forall c, j | (c, j) in live ensures Apart(b, k, c, j) && Apart(c, j, b, k) {
        forall f | InBlock(f, c, j) ensures !InBlock(f, b, k) { assert IsLive(live, f); }
        ApartByFrames(b, k, c, j);
      }
      live := live + {(b, k)};
      managed := managed + (set f: nat | f < b + Pow2(k) && InBlock(f, b, k));
      forall f ensures f in managed <==> IsFree(lists, f) || IsLive(live, f) {
        LiveAdd(s.live, b, k, f);
      }
    }

    /** A client may write what it likes into a frame it holds: no free list passes through it. */
    method ClientWrite(f: nat, words: FreeBlock)
      requires Valid() && IsLive(live, f)
      modifies `mem
      ensures Valid() && mem == old(mem)[f := words]
    {
      ghost var b, k :| (b, k) in live && InBlock(f, b, k);
      forall i | 0 <= i <= ORDER_MAX ensures Linked(mem[f := words], freelist[i], lists[i]) {
        LinkedMembers(mem, freelist[i], lists[i]);
        NotListed(lists, b, k, i);
        LinkedFrame(mem, mem[f := words], freelist[i], lists[i]);
      }
      mem := mem[f := words];
    }
  }

  /** With a frame count that is a multiple of 2^11 the buddy of a block below the top order is in range. */
  lemma BuddyInRange(limit: nat, b: nat, k: nat)
    requires Aligned(limit, ORDER_MAX) && GoodBlock(limit, b, k) && k < ORDER_MAX
    ensures Buddy(b, k) + Pow2(k) <= limit
  {
    BuddyOf(b, k);
    if Buddy(b, k) == b + Pow2(k) {
      FitsBelow(b, k + 1, ORDER_MAX, limit);
      assert Pow2(k + 1) == 2 * Pow2(k);
    }
  }
}
