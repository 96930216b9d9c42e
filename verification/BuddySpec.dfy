/**
 The buddy allocator as a pure function of its twelve free lists.

 A block is a pair (first frame, order); addresses are frame numbers, that is physical
 addresses divided by NORMAL_PAGE_SIZE. `Alloc` and `Free` say, list by list and in list
 order, what `alloc_order` and `free_order` leave behind; BuddyAllocator proves that the
 pointer-and-flag code computes exactly these functions.
 */
module BuddySpec {
  import opened Wrappers
  import opened Bits

  const ORDER_MAX: nat := 11

  /** lists[k] holds the first frames of the free blocks of order k, head of the list first. */
  type Lists = s: seq<seq<nat>> | |s| == ORDER_MAX + 1 witness seq(12, i => [])

  function Buddy(b: nat, k: nat): nat {
    Xor(b, Pow2(k))
  }

  function Lower(b: nat, c: nat): nat {
    if b < c then b else c
  }

  predicate InBlock(f: nat, b: nat, k: nat) {
    b <= f < b + Pow2(k)
  }

  /** Two blocks share no frame. */
  predicate Apart(b: nat, j: nat, c: nat, k: nat) {
    b + Pow2(j) <= c || c + Pow2(k) <= b
  }

  predicate NoDup(s: seq<nat>) {
    forall i, j :: 0 <= i < j < |s| ==> s[i] != s[j]
  }

  function Without(s: seq<nat>, x: nat): (r: seq<nat>)
    ensures x !in s ==> r == s
    ensures forall y :: y in r ==> y in s
  {
    if s == [] then [] else if s[0] == x then s[1..] else [s[0]] + Without(s[1..], x)
  }

  // ---------------------------------------------------------------- operations

  /** Least order j >= k whose list is non-empty, or ORDER_MAX + 1. */
  function FirstNonEmpty(lists: Lists, k: nat): (j: nat)
    requires k <= ORDER_MAX + 1
    ensures k <= j <= ORDER_MAX + 1
    ensures forall i :: k <= i < j ==> lists[i] == []
    ensures j <= ORDER_MAX ==> lists[j] != []
    decreases ORDER_MAX + 1 - k
  {
    if k == ORDER_MAX + 1 || lists[k] != [] then k else FirstNonEmpty(lists, k + 1)
  }

  /** Halve the block (b, j) down to order k, pushing each upper half on its list. */
  function Split(lists: Lists, b: nat, j: nat, k: nat): Lists
    requires k <= j <= ORDER_MAX
    decreases j
  {
    if j == k then lists
    else Split(lists[j - 1 := [b + Pow2(j - 1)] + lists[j - 1]], b, j - 1, k)
  }

  function Alloc(lists: Lists, k: nat): (Option<nat>, Lists)
    requires k <= ORDER_MAX
  {
    var j := FirstNonEmpty(lists, k);
    if j > ORDER_MAX then (None, lists)
    else (Some(lists[j][0]), Split(lists[j := lists[j][1..]], lists[j][0], j, k))
  }

  predicate CanMerge(lists: Lists, b: nat, k: nat)
    requires k <= ORDER_MAX
  {
    k < ORDER_MAX && Buddy(b, k) in lists[k]
  }

  function Unlinked(lists: Lists, b: nat, k: nat): Lists
    requires k <= ORDER_MAX
  {
    lists[k := Without(lists[k], b)]
  }

  function Free(lists: Lists, b: nat, k: nat): Lists
    requires k <= ORDER_MAX
    decreases ORDER_MAX - k
  {
    if CanMerge(lists, b, k) then Free(Unlinked(lists, Buddy(b, k), k), Lower(b, Buddy(b, k)), k + 1)
    else lists[k := [b] + lists[k]]
  }

  // ---------------------------------------------------------------- invariant

  /** A block the allocator may hold: aligned, below `limit`, and not containing frame 0. */
  predicate GoodBlock(limit: nat, b: nat, k: nat) {
    Aligned(b, k) && 0 < b && b + Pow2(k) <= limit
  }

  ghost predicate BlocksGood(limit: nat, lists: Lists) {
    forall k, b :: 0 <= k <= ORDER_MAX && b in lists[k] ==> GoodBlock(limit, b, k)
  }

  ghost predicate ListsNoDup(lists: Lists) {
    forall k :: 0 <= k <= ORDER_MAX ==> NoDup(lists[k])
  }

  /** The block (b, j) shares no frame with any free block. */
  ghost predicate Unused(lists: Lists, b: nat, j: nat) {
    forall k, c :: 0 <= k <= ORDER_MAX && c in lists[k] ==> Apart(b, j, c, k)
  }

  ghost predicate PairwiseApart(lists: Lists) {
    forall j, b, k, c :: 0 <= j <= ORDER_MAX && 0 <= k <= ORDER_MAX && b in lists[j] && c in lists[k] &&
      (j != k || b != c)
      ==> Apart(b, j, c, k)
  }

  /** No two buddies below the top order are both free. */
  ghost predicate Coalesced(lists: Lists) {
    forall k, b, c :: 0 <= k < ORDER_MAX && b in lists[k] && c in lists[k] ==> c != Buddy(b, k)
  }

  ghost predicate WellFormed(limit: nat, lists: Lists) {
    BlocksGood(limit, lists) && ListsNoDup(lists) && PairwiseApart(lists) && Coalesced(lists)
  }

  /** Frame f lies in some free block. */
  ghost predicate IsFree(lists: Lists, f: nat) {
    exists k, b :: 0 <= k <= ORDER_MAX && b in lists[k] && InBlock(f, b, k)
  }

  /** The free frames together with those of one block. */
  ghost function FreeOr(lists: Lists, b: nat, k: nat): iset<nat> {
    iset f | IsFree(lists, f) || InBlock(f, b, k)
  }

  // ---------------------------------------------------------------- list surgery

  lemma {:induction false} WithoutAt(s: seq<nat>, i: nat)
    requires NoDup(s) && i < |s|
    ensures Without(s, s[i]) == s[..i] + s[i + 1..]
    decreases |s|
  {
    if i > 0 {
      var t := s[1..];
      WithoutAt(t, i - 1);
      calc {
        Without(s, s[i]);
        [s[0]] + Without(t, t[i - 1]);
        [s[0]] + (t[..i - 1] + t[i..]);
        { assert t[i..] == s[i + 1..]; assert [s[0]] + t[..i - 1] == s[..i]; }
        s[..i] + s[i + 1..];
      }
    }
  }

  lemma {:induction false} WithoutMembers(s: seq<nat>, x: nat)
    requires NoDup(s)
    ensures NoDup(Without(s, x))
    ensures forall y :: y in Without(s, x) <==> y in s && y != x
    decreases |s|
  {
    if s != [] {
      var rest := s[1..];
      assert s == [s[0]] + rest;
      forall i | 0 <= i < |rest|
        ensures rest[i] != s[0]
      {
        assert s[0] != s[i + 1];
      }
      if s[0] != x {
        WithoutMembers(rest, x);
        NoDupCons(s[0], Without(rest, x));
      }
    }
  }

  lemma NoDupCons(x: nat, s: seq<nat>)
    requires NoDup(s) && x !in s
    ensures NoDup([x] + s)
  {
  }

  /** Pushing an unused aligned block whose buddy is not free keeps the lists well formed. */
  lemma PushKeeps(limit: nat, lists: Lists, b: nat, k: nat)
    requires WellFormed(limit, lists) && k <= ORDER_MAX
    requires GoodBlock(limit, b, k) && Unused(lists, b, k)
    requires k < ORDER_MAX ==> Buddy(b, k) !in lists[k]
    ensures WellFormed(limit, lists[k := [b] + lists[k]])
    ensures forall f :: IsFree(lists[k := [b] + lists[k]], f) <==> IsFree(lists, f) || InBlock(f, b, k)
  {
    var ls: Lists := lists[k := [b] + lists[k]];
    assert forall i, c :: 0 <= i <= ORDER_MAX ==> (c in ls[i] <==> c in lists[i] || (i == k && c == b));
    assert !Apart(b, k, b, k);
    assert b !in lists[k];
    BuddyOf(b, k);
    forall c | c in lists[k] && k < ORDER_MAX ensures Buddy(c, k) != b {
      BuddyOf(c, k);
    }
    forall i | 0 <= i <= ORDER_MAX ensures NoDup(ls[i]) {
      assert NoDup(lists[i]);
    }
    forall f ensures IsFree(ls, f) <==> IsFree(lists, f) || InBlock(f, b, k) {
      if InBlock(f, b, k) { assert b in ls[k]; }
      if IsFree(lists, f) {
        var i, c :| 0 <= i <= ORDER_MAX && c in lists[i] && InBlock(f, c, i);
        assert c in ls[i];
      }
    }
  }

  /** Taking a block off its list keeps the lists well formed and leaves the block unused. */
  lemma TakeKeeps(limit: nat, lists: Lists, b: nat, k: nat)
    requires WellFormed(limit, lists) && k <= ORDER_MAX && b in lists[k]
    ensures WellFormed(limit, Unlinked(lists, b, k)) && Unused(Unlinked(lists, b, k), b, k)
    ensures forall f :: IsFree(lists, f) <==> IsFree(Unlinked(lists, b, k), f) || InBlock(f, b, k)
  {
    var ls := Unlinked(lists, b, k);
    WithoutMembers(lists[k], b);
    assert forall i, c :: 0 <= i <= ORDER_MAX ==> (c in ls[i] <==> c in lists[i] && (i != k || c != b));
    forall i | 0 <= i <= ORDER_MAX ensures NoDup(ls[i]) {
      assert NoDup(lists[i]);
    }
    forall f ensures IsFree(lists, f) <==> IsFree(ls, f) || InBlock(f, b, k) {
      if IsFree(lists, f) && !InBlock(f, b, k) {
        var i, c :| 0 <= i <= ORDER_MAX && c in lists[i] && InBlock(f, c, i);
        assert c in ls[i];
      }
      if IsFree(ls, f) {
        var i, c :| 0 <= i <= ORDER_MAX && c in ls[i] && InBlock(f, c, i);
        assert c in lists[i];
      }
    }
  }

  // ---------------------------------------------------------------- each operation keeps the invariant

  /** The halves of a held block: both good, apart, and apart from whatever the whole was apart from. */
  lemma Halve(limit: nat, lists: Lists, b: nat, j: nat)
    requires 0 < j <= ORDER_MAX && GoodBlock(limit, b, j) && Unused(lists, b, j)
    ensures var up := b + Pow2(j - 1);
            && GoodBlock(limit, b, j - 1) && GoodBlock(limit, up, j - 1)
            && Unused(lists, b, j - 1) && Unused(lists, up, j - 1)
            && Buddy(up, j - 1) == b && b !in lists[j - 1] && Pow2(j) == 2 * Pow2(j - 1)
  {
    BuddyOfLower(b, j - 1);
    var up := b + Pow2(j - 1);
    forall k, c | 0 <= k <= ORDER_MAX && c in lists[k]
      ensures Apart(b, j - 1, c, k) && Apart(up, j - 1, c, k)
    {
      assert Apart(b, j, c, k);
    }
    assert !Apart(b, j, b, j - 1);
  }

  lemma SplitStep(limit: nat, lists: Lists, b: nat, j: nat)
    requires 0 < j <= ORDER_MAX
    requires WellFormed(limit, lists) && GoodBlock(limit, b, j) && Unused(lists, b, j)
    ensures var ls: Lists := lists[j - 1 := [b + Pow2(j - 1)] + lists[j - 1]];
            && WellFormed(limit, ls) && GoodBlock(limit, b, j - 1) && Unused(ls, b, j - 1)
            && (forall f :: IsFree(ls, f) || InBlock(f, b, j - 1) <==> IsFree(lists, f) || InBlock(f, b, j))
  {
    var up := b + Pow2(j - 1);
    Halve(limit, lists, b, j);
    PushKeeps(limit, lists, up, j - 1);
    var ls: Lists := lists[j - 1 := [up] + lists[j - 1]];
    forall i, c | 0 <= i <= ORDER_MAX && c in ls[i] ensures Apart(b, j - 1, c, i) {
      assert c in lists[i] || (i == j - 1 && c == up);
    }
    assert forall f :: InBlock(f, b, j) <==> InBlock(f, b, j - 1) || InBlock(f, up, j - 1);
  }

  lemma {:induction false} SplitKeeps(limit: nat, lists: Lists, b: nat, j: nat, k: nat)
    requires k <= j <= ORDER_MAX
    requires WellFormed(limit, lists) && GoodBlock(limit, b, j) && Unused(lists, b, j)
    ensures var ls := Split(lists, b, j, k);
            && WellFormed(limit, ls) && GoodBlock(limit, b, k) && Unused(ls, b, k)
            && (forall f :: IsFree(ls, f) || InBlock(f, b, k) <==> IsFree(lists, f) || InBlock(f, b, j))
    decreases j
  {
    if j > k {
      SplitStep(limit, lists, b, j);
      SplitKeeps(limit, lists[j - 1 := [b + Pow2(j - 1)] + lists[j - 1]], b, j - 1, k);
    }
  }

  /** Allocation: the block handed out is aligned, was wholly free, and exactly its frames stop being free. */
  lemma AllocKeeps(limit: nat, lists: Lists, k: nat)
    requires WellFormed(limit, lists) && k <= ORDER_MAX
    ensures var (r, ls) := Alloc(lists, k);
            && WellFormed(limit, ls)
            && (r.None? ==> ls == lists)
            && (r.Some? ==>
                  && GoodBlock(limit, r.value, k) && Unused(ls, r.value, k)
                  && (forall f :: IsFree(lists, f) <==> IsFree(ls, f) || InBlock(f, r.value, k)))
  {
    var j := FirstNonEmpty(lists, k);
    if j <= ORDER_MAX {
      var b := lists[j][0];
      assert b in lists[j];
      TakeKeeps(limit, lists, b, j);
      assert Unlinked(lists, b, j) == lists[j := lists[j][1..]];
      SplitKeeps(limit, lists[j := lists[j][1..]], b, j, k);
    }
  }

  /** One merge step: buddy off its list, and the joined block takes the place of the held one. */
  lemma MergeKeeps(limit: nat, lists: Lists, b: nat, k: nat)
    requires k < ORDER_MAX && WellFormed(limit, lists) && GoodBlock(limit, b, k) && Unused(lists, b, k)
    requires CanMerge(lists, b, k)
    ensures var c := Buddy(b, k); var ls := Unlinked(lists, c, k); var m := Lower(b, c);
            && WellFormed(limit, ls) && GoodBlock(limit, m, k + 1) && Unused(ls, m, k + 1)
            && (forall f :: IsFree(lists, f) || InBlock(f, b, k) <==> IsFree(ls, f) || InBlock(f, m, k + 1))
  {
    var c := Buddy(b, k);
    BuddyOf(b, k);
    TakeKeeps(limit, lists, c, k);
    WithoutMembers(lists[k], c);
    var ls := Unlinked(lists, c, k);
    var m := Lower(b, c);
    assert Pow2(k + 1) == 2 * Pow2(k);
    assert GoodBlock(limit, c, k);
    forall i, d | 0 <= i <= ORDER_MAX && d in ls[i] ensures Apart(m, k + 1, d, i) {
      assert Apart(c, k, d, i);
      assert d in lists[i];
      assert Apart(b, k, d, i);
    }
  }

  /** Freeing: the lists stay well formed and coalesced, and exactly the freed frames become free. */
  lemma {:induction false} FreeKeeps(limit: nat, lists: Lists, b: nat, k: nat)
    requires k <= ORDER_MAX && WellFormed(limit, lists) && GoodBlock(limit, b, k) && Unused(lists, b, k)
    ensures WellFormed(limit, Free(lists, b, k))
    ensures forall f :: IsFree(Free(lists, b, k), f) <==> IsFree(lists, f) || InBlock(f, b, k)
    decreases ORDER_MAX - k
  {
    if CanMerge(lists, b, k) {
      MergeKeeps(limit, lists, b, k);
      FreeKeeps(limit, Unlinked(lists, Buddy(b, k), k), Lower(b, Buddy(b, k)), k + 1);
    } else {
      PushKeeps(limit, lists, b, k);
    }
  }

  // ---------------------------------------------------------------- completeness of allocation

  /** The aligned run of 2^m frames from r is wholly free. */
  ghost predicate WhollyFree(lists: Lists, r: nat, m: nat) {
    forall f :: InBlock(f, r, m) ==> IsFree(lists, f)
  }

  lemma HalvesNotBothFree(lists: Lists, r: nat, m: nat)
    requires Coalesced(lists) && 0 < m <= ORDER_MAX && Aligned(r, m)
    ensures r in lists[m - 1] ==> r + Pow2(m - 1) !in lists[m - 1]
  {
    BuddyOfLower(r, m - 1);
  }

  lemma HalvesFree(lists: Lists, r: nat, m: nat)
    requires 0 < m && Aligned(r, m) && WhollyFree(lists, r, m)
    ensures Aligned(r, m - 1) && WhollyFree(lists, r, m - 1)
    ensures Aligned(r + Pow2(m - 1), m - 1) && WhollyFree(lists, r + Pow2(m - 1), m - 1)
  {
    BuddyOfLower(r, m - 1);
    assert forall f :: InBlock(f, r, m - 1) || InBlock(f, r + Pow2(m - 1), m - 1) ==> InBlock(f, r, m);
  }

  /** In coalesced lists an aligned wholly free run lies inside one single free block at least as large. */
  lemma {:induction false} WhollyFreeIsOneBlock(limit: nat, lists: Lists, r: nat, m: nat) returns (b: nat, j: nat)
    requires WellFormed(limit, lists) && m <= ORDER_MAX && Aligned(r, m) && WhollyFree(lists, r, m)
    ensures m <= j <= ORDER_MAX && b in lists[j] && b <= r && r + Pow2(m) <= b + Pow2(j)
    decreases m
  {
    if m == 0 {
      assert InBlock(r, r, 0);
      assert IsFree(lists, r);
      j, b :| 0 <= j <= ORDER_MAX && b in lists[j] && InBlock(r, b, j);
    } else {
      HalvesFree(lists, r, m);
      HalvesNotBothFree(lists, r, m);
      b, j := WhollyFreeIsOneBlock(limit, lists, r, m - 1);
      if j >= m {
        assert GoodBlock(limit, b, j);
        Nested(b, j, r, m);
      } else {
        // b is the lower half itself, so the upper half must lie in something larger
        b, j := WhollyFreeIsOneBlock(limit, lists, r + Pow2(m - 1), m - 1);
        assert GoodBlock(limit, b, j);
        AroundUpperHalf(b, j, r, m);
      }
    }
  }

  /** A block of order at least m that contains the upper half of an aligned run contains the run. */
  lemma AroundUpperHalf(b: nat, j: nat, r: nat, m: nat)
    requires 0 < m <= j && Aligned(b, j) && Aligned(r, m)
    requires b <= r + Pow2(m - 1) && r + Pow2(m) <= b + Pow2(j)
    ensures b <= r
  {
    AlignedDown(b, j, m);
    if r < b { MultiplesApart(r, b, Pow2(m)); }
  }

  /** `alloc_order(k)` fails exactly when no 2^k-aligned run of 2^k frames is wholly free. */
  lemma AllocComplete(limit: nat, lists: Lists, k: nat)
    requires WellFormed(limit, lists) && k <= ORDER_MAX
    ensures Alloc(lists, k).0.None? <==> !exists r :: Aligned(r, k) && WhollyFree(lists, r, k)
  {
    var (res, ls) := Alloc(lists, k);
    AllocKeeps(limit, lists, k);
    if res.Some? {
      assert WhollyFree(lists, res.value, k);
    } else {
      forall r | Aligned(r, k) ensures !WhollyFree(lists, r, k) {
        if WhollyFree(lists, r, k) {
          var b, j := WhollyFreeIsOneBlock(limit, lists, r, k);
          assert false; // every list from order k up is empty
        }
      }
    }
  }

  // ---------------------------------------------------------------- round trip

  /** Splitting empties nothing else: orders k..j-1 that were empty hold exactly one upper half each. */
  lemma {:induction false} SplitShape(lists: Lists, b: nat, j: nat, k: nat, i: nat)
    requires k <= j <= ORDER_MAX && i <= ORDER_MAX
    ensures !(k <= i < j) ==> Split(lists, b, j, k)[i] == lists[i]
    ensures k <= i < j ==> Split(lists, b, j, k)[i] == [b + Pow2(i)] + lists[i]
    decreases j
  {
    if j > k {
      var upper := b + Pow2(j - 1);
      var more: Lists := lists[j - 1 := [upper] + lists[j - 1]];
      SplitShape(more, b, j - 1, k, i);
      assert Split(lists, b, j, k) == Split(more, b, j - 1, k);
      assert more[i] == if i == j - 1 then [upper] + lists[i] else lists[i];
    }
  }

  /** Freeing (b, k) over lists whose orders k..j-1 hold just the matching upper halves climbs to order j. */
  lemma {:induction false} FreeUndoesSplit(lists: Lists, b: nat, j: nat, k: nat)
    requires k <= j <= ORDER_MAX && Aligned(b, j)
    requires forall i :: k <= i < j ==> lists[i] == []
    requires j < ORDER_MAX ==> Buddy(b, j) !in lists[j]
    ensures Free(Split(lists, b, j, k), b, k) == lists[j := [b] + lists[j]]
    decreases j - k
  {
    if k == j {
      assert !CanMerge(lists, b, j);
    } else {
      AlignedDown(b, j, k + 1);
      BuddyOfLower(b, k);
      MergeUndoesSplit(lists, b, j, k);
      FreeOnce(Split(lists, b, j, k), b, k);
      FreeUndoesSplit(lists, b, j, k + 1);
    }
  }

  /** Freeing a lower half whose buddy is free goes on with the joined block. */
  lemma FreeOnce(lists: Lists, b: nat, k: nat)
    requires k < ORDER_MAX && CanMerge(lists, b, k) && Buddy(b, k) == b + Pow2(k)
    ensures Free(lists, b, k) == Free(Unlinked(lists, b + Pow2(k), k), b, k + 1)
  {
  }

  /** One merge takes back the lowest half a split left. */
  lemma MergeUndoesSplit(lists: Lists, b: nat, j: nat, k: nat)
    requires k < j <= ORDER_MAX && lists[k] == [] && Buddy(b, k) == b + Pow2(k)
    ensures CanMerge(Split(lists, b, j, k), b, k)
    ensures Unlinked(Split(lists, b, j, k), b + Pow2(k), k) == Split(lists, b, j, k + 1)
  {
    var ls, up := Split(lists, b, j, k), b + Pow2(k);
    SplitShape(lists, b, j, k, k);
    assert ls[k] == [up] && Without([up], up) == [];
    var rest, goal := Unlinked(ls, up, k), Split(lists, b, j, k + 1);
    forall i | 0 <= i <= ORDER_MAX
      ensures rest[i] == goal[i]
    {
      SplitShape(lists, b, j, k, i);
      SplitShape(lists, b, j, k + 1, i);
    }
  }

  /**
   Block b is the first of order j; what is left of it, halved down to order k, is one block in each order between.
   */
  ghost predicate CutFrom(was: Lists, now: Lists, b: nat, j: int, k: nat) {
    && k <= j <= ORDER_MAX && was[j] != [] && b == was[j][0] && now[j] == was[j][1..]
    && (forall i :: k <= i < j ==> now[i] == [b + Pow2(i)])
    && (forall i :: 0 <= i <= ORDER_MAX && (i < k || j < i) ==> now[i] == was[i])
  }

  /** A split, list by list. */
  ghost predicate Halved(rest: Lists, now: Lists, b: nat, j: nat, k: nat) {
    forall i :: 0 <= i <= ORDER_MAX ==> now[i] == if k <= i < j then [b + Pow2(i)] + rest[i] else rest[i]
  }

  lemma SplitHalves(rest: Lists, b: nat, j: nat, k: nat)
    requires k <= j <= ORDER_MAX
    ensures Halved(rest, Split(rest, b, j, k), b, j, k)
  {
    forall i | 0 <= i <= ORDER_MAX
      ensures Split(rest, b, j, k)[i] == if k <= i < j then [b + Pow2(i)] + rest[i] else rest[i]
    {
      SplitShape(rest, b, j, k, i);
    }
  }

  lemma HalvedIsCut(was: Lists, rest: Lists, now: Lists, b: nat, j: nat, k: nat)
    requires k <= j <= ORDER_MAX && was[j] != [] && b == was[j][0] && rest == was[j := was[j][1..]]
    requires Halved(rest, now, b, j, k) && forall i :: k <= i < j ==> was[i] == []
    ensures CutFrom(was, now, b, j, k)
  {
    assert now[j] == rest[j] == was[j][1..];
    forall i | 0 <= i <= ORDER_MAX && i != j
      ensures now[i] == if k <= i < j then [b + Pow2(i)] else was[i]
    {
      assert rest[i] == was[i];
    }
  }

  /** The block handed out is cut from a free block of the least order that is large enough: no smaller one was free. */
  lemma LeastOrderIsCut(lists: Lists, k: nat) returns (j: nat)
    requires k <= ORDER_MAX && Alloc(lists, k).0.Some?
    ensures CutFrom(lists, Alloc(lists, k).1, Alloc(lists, k).0.value, j, k)
    ensures forall i :: k <= i < j ==> lists[i] == []
  {
    j := FirstNonEmpty(lists, k);
    SplitHalves(lists[j := lists[j][1..]], lists[j][0], j, k);
    HalvedIsCut(lists, lists[j := lists[j][1..]], Alloc(lists, k).1, lists[j][0], j, k);
  }

  /** Allocating at order k and freeing the result at once restores every list, element order included. */
  lemma AllocFreeRoundTrip(limit: nat, lists: Lists, k: nat)
    requires WellFormed(limit, lists) && k <= ORDER_MAX && Alloc(lists, k).0.Some?
    ensures var (r, ls) := Alloc(lists, k); Free(ls, r.value, k) == lists
  {
    var j := FirstNonEmpty(lists, k);
    var b := lists[j][0];
    assert b in lists[j] && GoodBlock(limit, b, j);
    var rest: Lists := lists[j := lists[j][1..]];
    if j < ORDER_MAX {
      assert Buddy(b, j) !in lists[j];
      assert forall x :: x in rest[j] ==> x in lists[j];
    }
    FreeUndoesSplit(rest, b, j, k);
    assert [b] + rest[j] == lists[j];
  }

  // ---------------------------------------------------------------- whole runs

  datatype Op = AllocOp(order: nat) | FreeOp(block: nat, order: nat)

  /** The lists together with the blocks clients hold, each with the order it was allocated at. */
  datatype State = State(lists: Lists, live: set<(nat, nat)>)

  ghost predicate LiveGood(limit: nat, s: State) {
    && (forall b, k :: (b, k) in s.live ==> k <= ORDER_MAX && GoodBlock(limit, b, k) && Unused(s.lists, b, k))
    && (forall b, j, c, k :: (b, j) in s.live && (c, k) in s.live && (b, j) != (c, k) ==> Apart(b, j, c, k))
  }

  ghost predicate IsLive(live: set<(nat, nat)>, f: nat) {
    exists b, k :: (b, k) in live && InBlock(f, b, k)
  }

  /** Free blocks and live blocks are aligned, pairwise disjoint, coalesced, and partition the managed frames. */
  ghost predicate Inv(limit: nat, managed: set<nat>, s: State) {
    && WellFormed(limit, s.lists)
    && LiveGood(limit, s)
    && (forall f :: f in managed <==> IsFree(s.lists, f) || IsLive(s.live, f))
  }

  /** A free must name a live block at the order it was allocated with. */
  predicate Legal(s: State, op: Op) {
    op.order <= ORDER_MAX && (op.FreeOp? ==> (op.block, op.order) in s.live)
  }

  function Apply(s: State, op: Op): State
    requires op.order <= ORDER_MAX
  {
    match op
    case AllocOp(k) =>
      var (r, ls) := Alloc(s.lists, k);
      if r.None? then s else State(ls, s.live + {(r.value, k)})
    case FreeOp(b, k) => State(Free(s.lists, b, k), s.live - {(b, k)})
  }

  /** Unused blocks are those with no free frame. */
  lemma UnusedByFrames(lists: Lists, b: nat, j: nat)
    ensures Unused(lists, b, j) <==> forall f :: InBlock(f, b, j) ==> !IsFree(lists, f)
  {
    forall i, d | 0 <= i <= ORDER_MAX && d in lists[i]
      ensures Apart(b, j, d, i) <==> forall f :: InBlock(f, d, i) ==> !InBlock(f, b, j)
    {
      ApartByFrames(b, j, d, i);
    }
    if forall f :: InBlock(f, b, j) ==> !IsFree(lists, f) {
      forall i, d | 0 <= i <= ORDER_MAX && d in lists[i] ensures Apart(b, j, d, i) {
        forall f | InBlock(f, d, i) ensures !InBlock(f, b, j) { assert IsFree(lists, f); }
      }
    }
  }

  lemma ApartByFrames(b: nat, j: nat, c: nat, k: nat)
    ensures Apart(b, j, c, k) <==> forall f :: InBlock(f, c, k) ==> !InBlock(f, b, j)
  {
    var f := if b <= c then c else b;
    assert !Apart(b, j, c, k) ==> InBlock(f, b, j) && InBlock(f, c, k);
  }

  lemma LiveAdd(live: set<(nat, nat)>, b: nat, k: nat, f: nat)
    ensures IsLive(live + {(b, k)}, f) <==> IsLive(live, f) || InBlock(f, b, k)
  {
    var more := live + {(b, k)};
    if IsLive(live, f) {
      var c, j :| (c, j) in live && InBlock(f, c, j);
      assert (c, j) in more;
    }
    if InBlock(f, b, k) { assert (b, k) in more; }
  }

  lemma ApplyAllocKeeps(limit: nat, managed: set<nat>, s: State, k: nat)
    requires Inv(limit, managed, s) && k <= ORDER_MAX
    ensures Inv(limit, managed, Apply(s, AllocOp(k)))
  {
    AllocKeeps(limit, s.lists, k);
    var (r, ls) := Alloc(s.lists, k);
    if r.Some? {
      var a := r.value;
      var t := Apply(s, AllocOp(k));
      forall b, j | (b, j) in s.live ensures Apart(b, j, a, k) && Apart(a, k, b, j) && Unused(ls, b, j) {
        UnusedByFrames(s.lists, b, j);
        UnusedByFrames(ls, b, j);
        ApartByFrames(b, j, a, k);
      }
      forall f ensures f in managed <==> IsFree(t.lists, f) || IsLive(t.live, f) {
        LiveAdd(s.live, a, k, f);
      }
    }
  }

  lemma ApplyFreeKeeps(limit: nat, managed: set<nat>, s: State, b: nat, k: nat)
    requires Inv(limit, managed, s) && (b, k) in s.live
    ensures Inv(limit, managed, Apply(s, FreeOp(b, k)))
  {
    FreeKeeps(limit, s.lists, b, k);
    var t := Apply(s, FreeOp(b, k));
    assert s.live == t.live + {(b, k)};
    forall c, j | (c, j) in t.live ensures Unused(t.lists, c, j) {
      UnusedByFrames(s.lists, c, j);
      ApartByFrames(c, j, b, k);
      UnusedByFrames(t.lists, c, j);
    }
    forall f ensures f in managed <==> IsFree(t.lists, f) || IsLive(t.live, f) {
      LiveAdd(t.live, b, k, f);
    }
  }

  /** A managed frame is free exactly when no client holds it. */
  lemma FreeIsNotLive(limit: nat, managed: set<nat>, s: State, f: nat)
    requires Inv(limit, managed, s)
    ensures IsFree(s.lists, f) <==> f in managed && !IsLive(s.live, f)
  {
    if IsLive(s.live, f) {
      var b, k :| (b, k) in s.live && InBlock(f, b, k);
      UnusedByFrames(s.lists, b, k);
    }
  }

  /** Allocation fails exactly when every aligned run holds a frame that is unmanaged or in a client's hands. */
  lemma FailureMeansNoRoom(limit: nat, managed: set<nat>, s: State, k: nat)
    requires Inv(limit, managed, s) && k <= ORDER_MAX
    ensures Alloc(s.lists, k).0.None?
       <==> forall r :: Aligned(r, k) ==> exists f :: InBlock(f, r, k) && (f !in managed || IsLive(s.live, f))
  {
    AllocComplete(limit, s.lists, k);
    forall f ensures IsFree(s.lists, f) <==> f in managed && !IsLive(s.live, f) {
      FreeIsNotLive(limit, managed, s, f);
    }
    forall r ensures WhollyFree(s.lists, r, k) <==>
      !exists f :: InBlock(f, r, k) && (f !in managed || IsLive(s.live, f)) {
    }
  }

  function Run(s: State, ops: seq<Op>): State
    requires forall i :: 0 <= i < |ops| ==> ops[i].order <= ORDER_MAX
    decreases |ops|
  {
    if ops == [] then s else Run(Apply(s, ops[0]), ops[1..])
  }

  ghost predicate LegalRun(s: State, ops: seq<Op>)
    decreases |ops|
  {
    ops == [] || (Legal(s, ops[0]) && LegalRun(Apply(s, ops[0]), ops[1..]))
  }

  /** Every run of allocations and matching frees keeps the partition and the coalescing invariant. */
  lemma {:induction false} EveryRunKeeps(limit: nat, managed: set<nat>, s: State, ops: seq<Op>)
    requires Inv(limit, managed, s) && LegalRun(s, ops)
    ensures forall i :: 0 <= i < |ops| ==> ops[i].order <= ORDER_MAX
    ensures Inv(limit, managed, Run(s, ops))
    decreases |ops|
  {
    if ops != [] {
      match ops[0] {
        case AllocOp(k) => ApplyAllocKeeps(limit, managed, s, k);
        case FreeOp(b, k) => ApplyFreeKeeps(limit, managed, s, b, k);
      }
      EveryRunKeeps(limit, managed, Apply(s, ops[0]), ops[1..]);
    }
  }
}
