/**
 Boot-time memory: the first-fit bitmap allocator, and the loops of `Allocator::init` that carve
 what the bitmap still calls free into aligned blocks and hand them to the buddy allocator.
 */
module BootHandover {
  import opened Wrappers
  import opened Bits
  import opened BuddySpec
  import opened BuddyAllocator

  const PAGE_SIZE: nat := 4096

  /** 1 << bit, for a bit of a byte. */
  function Mask(bit: nat): bv8
    requires bit < 8
  {
    if bit == 0 then 0x01 else if bit == 1 then 0x02 else if bit == 2 then 0x04 else if bit == 3 then 0x08
    else if bit == 4 then 0x10 else if bit == 5 then 0x20 else if bit == 6 then 0x40 else 0x80
  }

  predicate Bit(byte: bv8, bit: nat)
    requires bit < 8
  {
    byte & Mask(bit) != 0
  }

  lemma SetBit(byte: bv8, i: nat, j: nat)
    requires i < 8 && j < 8
    ensures Bit(byte | Mask(i), j) <==> j == i || Bit(byte, j)
  {
  }

  lemma ClearBit(byte: bv8, i: nat, j: nat)
    requires i < 8 && j < 8
    ensures Bit(byte & !Mask(i), j) <==> j != i && Bit(byte, j)
  {
  }

  lemma SameFrame(f: nat, g: nat)
    ensures f / 8 == g / 8 && f % 8 == g % 8 ==> f == g
  {
  }

  /** The least number of frames that hold so many bytes. */
  function FramesFor(size: nat): (n: nat)
    ensures size <= n * 4096 < size + 4096
  {
    (size + (PAGE_SIZE - 1)) / PAGE_SIZE
  }

  /** A used bit is one, a free bit zero. */
  predicate UsedIn(bytes: seq<bv8>, f: nat) {
    f / 8 >= |bytes| || Bit(bytes[f / 8], f % 8)
  }

  predicate FreeRun(bytes: seq<bv8>, start: nat, n: nat) {
    forall f :: start <= f < start + n ==> !UsedIn(bytes, f)
  }

  class BitmapPMM {
    var bitmap: array<bv8>
    var totalFrames: nat

    ghost predicate Valid()
      reads this, bitmap
    {
      totalFrames <= 8 * bitmap.Length
    }

    constructor (frames: nat)
      ensures Valid() && totalFrames == frames && fresh(bitmap)
      ensures forall f :: 0 <= f < frames ==> UsedIn(bitmap[..], f)
    {
      totalFrames := frames;
      bitmap := new bv8[(frames + 7) / 8](i => 0xFF);
      new;
      forall f | 0 <= f < frames ensures UsedIn(bitmap[..], f) {
        assert bitmap[f / 8] == 0xFF;
      }
    }

    function IsFrameFree(f: nat): bool
      reads this, bitmap
      requires Valid() && f < totalFrames
    {
      bitmap[f / 8] & Mask(f % 8) == 0
    }

    method SetFree(f: nat)
      requires Valid() && f < totalFrames
      modifies bitmap
      ensures Valid()
      ensures forall g: nat :: UsedIn(bitmap[..], g) <==> g != f && UsedIn(old(bitmap[..]), g)
    {
      var was := bitmap[..];
      bitmap[f / 8] := bitmap[f / 8] & !Mask(f % 8);
      forall g: nat ensures UsedIn(bitmap[..], g) <==> g != f && UsedIn(was, g) {
        ClearBit(was[f / 8], f % 8, g % 8);
        SameFrame(f, g);
      }
    }

    method SetUsed(f: nat)
      requires Valid() && f < totalFrames
      modifies bitmap
      ensures Valid()
      ensures forall g: nat :: UsedIn(bitmap[..], g) <==> g == f || UsedIn(old(bitmap[..]), g)
    {
      var was := bitmap[..];
      bitmap[f / 8] := bitmap[f / 8] | Mask(f % 8);
      forall g: nat ensures UsedIn(bitmap[..], g) <==> g == f || UsedIn(was, g) {
        SetBit(was[f / 8], f % 8, g % 8);
        SameFrame(f, g);
      }
    }

    method MarkRun(start: nat, n: nat)
      requires Valid() && start + n <= totalFrames
      modifies bitmap
      ensures Valid()
      ensures forall g: nat :: UsedIn(bitmap[..], g) <==> start <= g < start + n || UsedIn(old(bitmap[..]), g)
    {
      var j := start;
      while j < start + n
        invariant start <= j <= start + n && Valid()
        invariant forall g: nat :: UsedIn(bitmap[..], g) <==> start <= g < j || UsedIn(old(bitmap[..]), g)
      {
        SetUsed(j);
        j := j + 1;
      }
    }

    /** First fit: the lowest run of enough free frames, which alone becomes used. A zero-byte request finds none. */
    method Alloc(size: nat) returns (r: Option<nat>)
      requires Valid()
      modifies bitmap
      ensures Valid()
      ensures r.Some? ==>
                var n := FramesFor(size);
                && 0 < n && r.value + n <= totalFrames && FreeRun(old(bitmap[..]), r.value, n)
                && (forall s: nat :: s < r.value ==> !FreeRun(old(bitmap[..]), s, n))
                && (forall g: nat :: UsedIn(bitmap[..], g) <==>
                      r.value <= g < r.value + n || UsedIn(old(bitmap[..]), g))
      ensures r.None? ==>
                var n := FramesFor(size);
                && bitmap[..] == old(bitmap[..])
                && (n == 0 || forall s: nat :: s + n <= totalFrames ==> !FreeRun(bitmap[..], s, n))
    {
      var n := FramesFor(size);
      var count, start := 0, 0;
      var i := 0;
      while i < totalFrames
        invariant 0 <= i <= totalFrames && 0 <= count <= i
        invariant n > 0 ==> count < n
        invariant count > 0 ==> start == i - count
        invariant FreeRun(bitmap[..], i - count, count)
        invariant i - count > 0 ==> UsedIn(bitmap[..], i - count - 1)
        invariant n > 0 ==> forall s: nat :: s < i - count ==> !FreeRun(bitmap[..], s, n)
        invariant bitmap[..] == old(bitmap[..])
      {
        if IsFrameFree(i) {
          if count == 0 {
            start := i;
          }
          count := count + 1;
          if count == n {
            MarkRun(start, n);
            return Some(start);
          }
        } else {
          assert UsedIn(bitmap[..], i);
          count := 0;
        }
        i := i + 1;
      }
      return None;
    }
  }

  // ---------------------------------------------------------------- carving

  /** The largest order at which a run may be carved at `start`: allowed by alignment, by ORDER_MAX and by room. */
  method CarveOrder(start: nat, end: nat) returns (order: nat)
    requires 0 < start < end
    ensures order <= ORDER_MAX && Aligned(start, order) && start + Pow2(order) <= end
    ensures order == ORDER_MAX || !Aligned(start, order + 1) || start + Pow2(order + 1) > end
  {
    var maxOrder := TrailingZeros(start);
    maxOrder := if maxOrder > ORDER_MAX then ORDER_MAX else maxOrder;
    order := maxOrder;
    TrailingZerosAligned(start, order);
    TrailingZerosExact(start);
    while Pow2(order) > end - start
      invariant order <= maxOrder
      invariant order < maxOrder ==> Pow2(order + 1) > end - start
    {
      order := order - 1;
    }
    AlignedDown(start, maxOrder, order);
  }

  lemma {:induction false} TrailingZerosExact(a: nat)
    requires a > 0
    ensures !Aligned(a, TrailingZeros(a) + 1)
    decreases a
  {
    var t := TrailingZeros(a);
    if a % 2 == 0 {
      TrailingZerosExact(a / 2);
      if Aligned(a, t + 1) {
        var q := AlignedFactor(a, t + 1);
        assert a / 2 == q * Pow2(t);
        MulMod(q, Pow2(t));
        assert false;
      }
    } else {
      assert Pow2(1) == 2;
    }
  }

  /** Carve the maximal run [start, end) of free frames into aligned blocks, each handed over once. */
  method CarveRun(a: Allocator, start: nat, end: nat)
    requires a.Valid() && a.live == {} && 0 < start < end <= a.pfndb.Length
    requires forall f :: start <= f < end ==> f !in a.managed && !HasFree(a.pfndb[f])
    modifies a, a.freelist, a.pfndb
    ensures a.Valid() && a.live == {} && a.freelist == old(a.freelist) && a.pfndb == old(a.pfndb)
    ensures forall f :: f in a.managed <==> f in old(a.managed) || start <= f < end
    ensures forall f :: end <= f < a.pfndb.Length && f !in old(a.managed) ==> a.pfndb[f] == old(a.pfndb[f])
  {
    var at := start;
    while at < end
      invariant start <= at <= end && a.Valid() && a.live == {}
      invariant a.freelist == old(a.freelist) && a.pfndb == old(a.pfndb)
      invariant forall f :: f in a.managed <==> f in old(a.managed) || start <= f < at
      invariant forall f :: at <= f < a.pfndb.Length && f !in old(a.managed) ==> a.pfndb[f] == old(a.pfndb[f])
    {
      var order := CarveOrder(at, end);
      CarveBlock(a, at, order);
      at := at + Pow2(order);
    }
  }

  /** One block goes from boot memory to the free lists. */
  method CarveBlock(a: Allocator, at: nat, order: nat)
    requires a.Valid() && a.live == {} && order <= ORDER_MAX && GoodBlock(a.pfndb.Length, at, order)
    requires forall f :: InBlock(f, at, order) ==> f !in a.managed
    requires !HasFree(a.pfndb[at])
    modifies a, a.freelist, a.pfndb
    ensures a.Valid() && a.live == {} && a.freelist == old(a.freelist) && a.pfndb == old(a.pfndb)
    ensures forall f :: f in a.managed <==> f in old(a.managed) || InBlock(f, at, order)
    ensures forall f :: 0 <= f < a.pfndb.Length && !InBlock(f, at, order) && f !in old(a.managed) ==>
              a.pfndb[f] == old(a.pfndb[f])
  {
    a.Adopt(at, order);
    ghost var was := a.lists;
    forall f | 0 <= f < a.pfndb.Length && !InBlock(f, at, order) && f !in old(a.managed)
      ensures !IsFree(was, f)
    {
    }
    var panicked := a.FreeOrder(at, order);
  }

  /** The first scan loop of `init`: skip used frames. */
  method NextFree(bytes: seq<bv8>, total: nat, from: nat) returns (cursor: nat)
    requires from <= total <= 8 * |bytes|
    ensures from <= cursor <= total
    ensures forall f :: from <= f < cursor ==> UsedIn(bytes, f)
    ensures cursor < total ==> !UsedIn(bytes, cursor)
  {
    cursor := from;
    while cursor < total && UsedIn(bytes, cursor)
      invariant from <= cursor <= total
      invariant forall f :: from <= f < cursor ==> UsedIn(bytes, f)
    {
      cursor := cursor + 1;
    }
  }

  /** The second scan loop of `init`: run to the end of the free frames. */
  method RunEnd(bytes: seq<bv8>, total: nat, from: nat) returns (cursor: nat)
    requires from < total <= 8 * |bytes| && !UsedIn(bytes, from)
    ensures from < cursor <= total
    ensures FreeRun(bytes, from, cursor - from)
    ensures cursor < total ==> UsedIn(bytes, cursor)
  {
    cursor := from;
    while cursor < total && !UsedIn(bytes, cursor)
      invariant from <= cursor <= total
      invariant FreeRun(bytes, from, cursor - from)
    {
      cursor := cursor + 1;
    }
  }

  /** The carving loops of `Allocator::init`, run over the bytes of the bitmap: every frame they call free,
      and no other, ends up free in the buddy allocator. */
  method CarveAll(a: Allocator, bytes: seq<bv8>)
    requires a.Valid() && a.live == {} && a.managed == {} && a.pfndb.Length <= 8 * |bytes|
    requires forall f :: 0 <= f < a.pfndb.Length ==> !HasFree(a.pfndb[f])
    requires 0 < a.pfndb.Length ==> UsedIn(bytes, 0)
    modifies a, a.freelist, a.pfndb
    ensures a.Valid() && a.live == {} && a.pfndb == old(a.pfndb)
    ensures forall f: nat :: IsFree(a.lists, f) <==> f < a.pfndb.Length && !UsedIn(bytes, f)
  {
    var total := a.pfndb.Length;
    var cursor := 0;
    while cursor < total
      invariant 0 <= cursor <= total && a.Valid() && a.live == {}
      invariant a.freelist == old(a.freelist) && a.pfndb == old(a.pfndb)
      invariant forall f: nat :: f in a.managed <==> f < cursor && !UsedIn(bytes, f)
      invariant forall f :: cursor <= f < total ==> !HasFree(a.pfndb[f])
    {
      var start := NextFree(bytes, total, cursor);
      cursor := start;
      if start >= total {
        break;
      }
      cursor := RunEnd(bytes, total, start);
      CarveRun(a, start, cursor);
    }
    forall f: nat ensures IsFree(a.lists, f) <==> f < total && !UsedIn(bytes, f) {
      FreeIsNotLive(total, a.managed, State(a.lists, a.live), f);
    }
  }

  /** `Allocator::init`: reserve room for the frame database in the bitmap, build it, and carve what is left.
      The database takes 8 bytes a frame and must itself fit below the last frame. */
  method Init(bm: BitmapPMM) returns (a: Allocator, metadata: nat)
    requires bm.Valid() && Aligned(bm.totalFrames, ORDER_MAX) && 0 < bm.totalFrames && UsedIn(bm.bitmap[..], 0)
    requires exists s: nat :: s + FramesFor(bm.totalFrames * 8) <= bm.totalFrames &&
               FreeRun(bm.bitmap[..], s, FramesFor(bm.totalFrames * 8))
    modifies bm.bitmap
    ensures a.Valid() && a.live == {} && a.pfndb.Length == bm.totalFrames
    ensures FreeRun(old(bm.bitmap[..]), metadata, FramesFor(bm.totalFrames * 8))
    ensures forall s: nat :: s < metadata ==> !FreeRun(old(bm.bitmap[..]), s, FramesFor(bm.totalFrames * 8))
    ensures forall f: nat ::
              IsFree(a.lists, f) <==>
              f < bm.totalFrames && !UsedIn(old(bm.bitmap[..]), f) &&
                !(metadata <= f < metadata + FramesFor(bm.totalFrames * 8))
  {
    var r := bm.Alloc(bm.totalFrames * 8);
    metadata := r.value;
    a := new Allocator(bm.totalFrames);
    var bytes := bm.bitmap[..];
    CarveAll(a, bytes);
  }
}
