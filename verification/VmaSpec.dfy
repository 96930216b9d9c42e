/**
 The mapped areas of a process as a sequence in address order, and the two ways of placing a new one.
 Sizes and addresses are 64-bit words; sums that the kernel lets overflow are reduced explicitly.
 */
module VmaSpec {
  import opened Wrappers

  datatype VmFlags = VmFlags(write: bool, exec: bool, user: bool, huge: bool, global: bool, cacheDisable: bool,
                             writeThrough: bool)

  datatype Vma = Vma(start: nat, size: nat, flags: VmFlags, backed: bool)

  const VM_BASE_ADDR: nat := 0x4000_0000
  const VM_MAX_ALLOWED: nat := 0x0000_7FFF_FFFF_F000
  const WORD: nat := 0x1_0000_0000_0000_0000
  const HUGE_PAGE_SIZE: nat := 0x20_0000

  function End(v: Vma): nat { v.start + v.size }

  /** `(x + mask) & !mask` on words. */
  function RoundUp(x: nat, huge: bool): nat {
    if huge then (x + 0x1F_FFFF) % WORD / 0x20_0000 * 0x20_0000 else (x + 0xFFF) % WORD / 0x1000 * 0x1000
  }

  predicate Multiple(x: nat, huge: bool) {
    if huge then x % 0x20_0000 == 0 else x % 0x1000 == 0
  }

  /** Areas in address order, none overlapping another. */
  predicate Sorted(vs: seq<Vma>) {
    forall i, j :: 0 <= i < j < |vs| ==> End(vs[i]) <= vs[j].start
  }

  predicate Bounded(vs: seq<Vma>) {
    forall i :: 0 <= i < |vs| ==> End(vs[i]) <= VM_MAX_ALLOWED
  }

  // ---------------------------------------------------------------- first fit

  /** The gap after the area i or after one behind it: its address and the index to insert at. */
  function ScanGap(vs: seq<Vma>, i: nat, size: nat, huge: bool): Option<(nat, nat)>
    requires i < |vs|
    decreases |vs| - i
  {
    var base := RoundUp(End(vs[i]), huge);
    if i + 1 < |vs| then
      if vs[i + 1].start > base && vs[i + 1].start - base >= size then Some((base, i + 1))
      else ScanGap(vs, i + 1, size, huge)
    else if (VM_MAX_ALLOWED - base) % WORD >= size then Some((base, |vs|))
    else None
  }

  /** `mmap_internal`'s search, for a size already rounded. */
  function FindGap(vs: seq<Vma>, size: nat, huge: bool): Option<(nat, nat)> {
    if vs == [] then Some((VM_BASE_ADDR, 0))
    else if vs[0].start > VM_BASE_ADDR && vs[0].start - VM_BASE_ADDR >= size then Some((VM_BASE_ADDR, 0))
    else ScanGap(vs, 0, size, huge)
  }

  /** Where the search really begins: the base of the arena, or the end of a first area that starts at or below it. */
  function Floor(vs: seq<Vma>): nat {
    if vs != [] && vs[0].start <= VM_BASE_ADDR then End(vs[0]) else VM_BASE_ADDR
  }

  /** Room for size bytes at a: aligned, from floor on and below the arena's end, clear of every area. */
  predicate FitsFrom(vs: seq<Vma>, floor: nat, a: nat, size: nat, huge: bool) {
    && Multiple(a, huge) && floor <= a && a + size <= VM_MAX_ALLOWED
    && forall i :: 0 <= i < |vs| ==> a + size <= vs[i].start || End(vs[i]) <= a
  }

  /** The same within the arena. */
  predicate Fits(vs: seq<Vma>, a: nat, size: nat, huge: bool) { FitsFrom(vs, VM_BASE_ADDR, a, size, huge) }

  /** The answer is the lowest place from floor on, or None if there is none. */
  ghost predicate LowestFrom(vs: seq<Vma>, floor: nat, size: nat, huge: bool, r: Option<(nat, nat)>) {
    match r
    case None => forall a: nat :: !FitsFrom(vs, floor, a, size, huge)
    case Some((addr, _)) =>
      FitsFrom(vs, floor, addr, size, huge) && forall a: nat :: FitsFrom(vs, floor, a, size, huge) ==> addr <= a
  }

  /** What a first-fit search should answer: the lowest place in the arena. */
  ghost predicate LowestFit(vs: seq<Vma>, size: nat, huge: bool, r: Option<(nat, nat)>) {
    match r
    case None => forall a: nat :: !Fits(vs, a, size, huge)
    case Some((addr, _)) => Fits(vs, addr, size, huge) && forall a: nat :: Fits(vs, a, size, huge) ==> addr <= a
  }

  /** base is the first multiple at or above x. */
  ghost predicate FirstMultiple(base: nat, x: nat, huge: bool) {
    Multiple(base, huge) && x <= base && forall a: nat :: Multiple(a, huge) && x <= a ==> base <= a
  }

  lemma RoundUpLeast(x: nat, huge: bool)
    requires x + 0x1F_FFFF < WORD
    ensures FirstMultiple(RoundUp(x, huge), x, huge)
  {
    if huge {
      Round2M(x);
    } else {
      Round4K(x);
    }
  }

  lemma Round2M(x: nat)
    requires x + 0x1F_FFFF < WORD
    ensures FirstMultiple(RoundUp(x, true), x, true)
  {
    var q := (x + 0x1F_FFFF) / 0x20_0000;
    assert RoundUp(x, true) == q * 0x20_0000;
    forall a: nat | Multiple(a, true) && x <= a
      ensures q * 0x20_0000 <= a
    {
      NotBelow2M(x, a);
    }
  }

  lemma NotBelow2M(x: nat, a: nat)
    requires a % 0x20_0000 == 0 && x <= a
    ensures (x + 0x1F_FFFF) / 0x20_0000 * 0x20_0000 <= a
  {
    var n := a / 0x20_0000;
    assert a == n * 0x20_0000;
    assert (x + 0x1F_FFFF) / 0x20_0000 <= n;
  }

  lemma Round4K(x: nat)
    requires x + 0xFFF < WORD
    ensures FirstMultiple(RoundUp(x, false), x, false)
  {
    var q := (x + 0xFFF) / 0x1000;
    assert RoundUp(x, false) == q * 0x1000;
    forall a: nat | Multiple(a, false) && x <= a
      ensures q * 0x1000 <= a
    {
      NotBelow4K(x, a);
    }
  }

  lemma NotBelow4K(x: nat, a: nat)
    requires a % 0x1000 == 0 && x <= a
    ensures (x + 0xFFF) / 0x1000 * 0x1000 <= a
  {
    var n := a / 0x1000;
    assert a == n * 0x1000;
    assert (x + 0xFFF) / 0x1000 <= n;
  }

  /** Every area ends early enough below the word for its end to be rounded up. */
  predicate Low(vs: seq<Vma>) { forall i :: 0 <= i < |vs| ==> End(vs[i]) + 0x1F_FFFF < WORD }

  /** Room for size bytes at a, from floor on and before the last area, inside the arena or not. */
  predicate Gap(vs: seq<Vma>, floor: nat, a: nat, size: nat, huge: bool) {
    && vs != [] && Multiple(a, huge) && floor <= a && a + size <= vs[|vs| - 1].start
    && forall i :: 0 <= i < |vs| ==> a + size <= vs[i].start || End(vs[i]) <= a
  }

  /** A place behind area i and before the next one. */
  lemma GapBehind(vs: seq<Vma>, i: nat, base: nat, size: nat, huge: bool)
    requires Sorted(vs) && i + 1 < |vs| && Multiple(base, huge) && End(vs[i]) <= base && Floor(vs) <= base
    requires base + size <= vs[i + 1].start
    ensures Gap(vs, Floor(vs), base, size, huge)
  {
    forall j | 0 <= j < |vs|
      ensures base + size <= vs[j].start || End(vs[j]) <= base
    {
      if i + 1 < j { assert End(vs[i + 1]) <= vs[j].start; }
      if j < i { assert End(vs[j]) <= vs[i].start; }
    }
    if i + 1 < |vs| - 1 { assert End(vs[i + 1]) <= vs[|vs| - 1].start; }
  }

  /** What the scan answers: the lowest gap, or else the end of the last area if the last comparison lets it pass. */
  ghost predicate Scanned(vs: seq<Vma>, size: nat, huge: bool, r: Option<(nat, nat)>)
    requires vs != []
  {
    var base := RoundUp(End(vs[|vs| - 1]), huge);
    if exists a: nat :: Gap(vs, Floor(vs), a, size, huge)
    then r.Some? && Gap(vs, Floor(vs), r.value.0, size, huge) &&
         forall a: nat :: Gap(vs, Floor(vs), a, size, huge) ==> r.value.0 <= a
    else if (VM_MAX_ALLOWED - base) % WORD >= size then r.Some? && r.value.0 == base
    else r.None?
  }

  /** Once every gap lies behind area i, the scan from i finds the lowest. */
  lemma {:induction false} ScanFinds(vs: seq<Vma>, i: nat, size: nat, huge: bool)
    requires Sorted(vs) && Low(vs) && i < |vs| && size > 0 && Floor(vs) <= End(vs[i])
    requires forall a: nat :: Gap(vs, Floor(vs), a, size, huge) ==> End(vs[i]) <= a
    ensures Scanned(vs, size, huge, ScanGap(vs, i, size, huge))
    decreases |vs| - i
  {
    var base := RoundUp(End(vs[i]), huge);
    RoundUpLeast(End(vs[i]), huge);
    if i + 1 < |vs| {
      if base + size <= vs[i + 1].start {
        GapBehind(vs, i, base, size, huge);
      } else {
        assert End(vs[i]) <= vs[i + 1].start;
        ScanFinds(vs, i + 1, size, huge);
      }
    }
  }

  /** A place in the arena is a gap or lies behind the last area. */
  lemma FitsWhere(vs: seq<Vma>, a: nat, size: nat, huge: bool)
    requires Sorted(vs) && vs != [] && size > 0
    ensures FitsFrom(vs, Floor(vs), a, size, huge) <==>
            a + size <= VM_MAX_ALLOWED && (Gap(vs, Floor(vs), a, size, huge) ||
            (Multiple(a, huge) && Floor(vs) <= a && End(vs[|vs| - 1]) <= a))
  {
    var last := |vs| - 1;
    assert FitsFrom(vs, Floor(vs), a, size, huge) ==> a + size <= vs[last].start || End(vs[last]) <= a;
    forall i | 0 <= i < last
      ensures End(vs[last]) <= a ==> End(vs[i]) <= a
    {
      assert End(vs[i]) <= vs[last].start;
    }
  }

  /**
   The search ends within the arena: the first area fits at all; or there is a place; or no gap is wide enough, and
   behind the last area the comparison is not misled by a rounded end beyond the arena.
   */
  ghost predicate Ends(vs: seq<Vma>, floor: nat, size: nat, huge: bool) {
    if vs == [] then VM_BASE_ADDR + size <= VM_MAX_ALLOWED
    else
      var base := RoundUp(End(vs[|vs| - 1]), huge);
      || (exists a: nat :: FitsFrom(vs, floor, a, size, huge))
      || ((forall a: nat :: !Gap(vs, floor, a, size, huge)) &&
          (base <= VM_MAX_ALLOWED || base + size > WORD + VM_MAX_ALLOWED))
  }

  lemma FloorFitExactly(vs: seq<Vma>, size: nat, huge: bool)
    requires Sorted(vs) && Low(vs) && 0 < size < WORD && Multiple(size, huge)
    ensures LowestFrom(vs, Floor(vs), size, huge, FindGap(vs, size, huge)) <==> Ends(vs, Floor(vs), size, huge)
  {
    assert Multiple(VM_BASE_ADDR, huge);
    if vs == [] {
      assert VM_BASE_ADDR + size <= VM_MAX_ALLOWED ==> FitsFrom(vs, Floor(vs), VM_BASE_ADDR, size, huge);
    } else {
      SearchFinds(vs, size, huge);
      ScannedExactly(vs, size, huge, FindGap(vs, size, huge));
    }
  }

  lemma SearchFinds(vs: seq<Vma>, size: nat, huge: bool)
    requires Sorted(vs) && Low(vs) && vs != [] && size > 0
    ensures Scanned(vs, size, huge, FindGap(vs, size, huge))
  {
    assert Multiple(VM_BASE_ADDR, huge);
    if vs[0].start > VM_BASE_ADDR && vs[0].start - VM_BASE_ADDR >= size {
      forall j | 0 <= j < |vs|
        ensures VM_BASE_ADDR + size <= vs[j].start
      {
        if j > 0 { assert End(vs[0]) <= vs[j].start; }
      }
      assert Gap(vs, Floor(vs), VM_BASE_ADDR, size, huge);
    } else {
      ScanFinds(vs, 0, size, huge);
    }
  }

  lemma ScannedExactly(vs: seq<Vma>, size: nat, huge: bool, r: Option<(nat, nat)>)
    requires Sorted(vs) && Low(vs) && vs != [] && 0 < size < WORD && Scanned(vs, size, huge, r)
    ensures LowestFrom(vs, Floor(vs), size, huge, r) <==> Ends(vs, Floor(vs), size, huge)
  {
    var last, base := End(vs[|vs| - 1]), RoundUp(End(vs[|vs| - 1]), huge);
    RoundUpLeast(last, huge);
    forall a: nat
      ensures FitsFrom(vs, Floor(vs), a, size, huge) <==>
              a + size <= VM_MAX_ALLOWED && (Gap(vs, Floor(vs), a, size, huge) ||
              (Multiple(a, huge) && Floor(vs) <= a && last <= a))
    {
      FitsWhere(vs, a, size, huge);
    }
    FloorBelowLast(vs);
    if exists a: nat :: Gap(vs, Floor(vs), a, size, huge) {
      assert FitsFrom(vs, Floor(vs), r.value.0, size, huge) <==> r.value.0 + size <= VM_MAX_ALLOWED;
      assert Ends(vs, Floor(vs), size, huge) <==> exists a: nat :: FitsFrom(vs, Floor(vs), a, size, huge);
    } else {
      assert FitsFrom(vs, Floor(vs), base, size, huge) <==> base + size <= VM_MAX_ALLOWED;
      LastTest(base, size);
    }
  }

  lemma FloorBelowLast(vs: seq<Vma>)
    requires Sorted(vs) && vs != []
    ensures Floor(vs) <= End(vs[|vs| - 1])
  {
    if |vs| > 1 { assert End(vs[0]) <= vs[|vs| - 1].start; }
  }

  /** The comparison behind the last area, on words. */
  lemma LastTest(base: nat, size: nat)
    requires base < WORD && size < WORD
    ensures base <= VM_MAX_ALLOWED ==> ((VM_MAX_ALLOWED - base) % WORD >= size <==> base + size <= VM_MAX_ALLOWED)
    ensures base > VM_MAX_ALLOWED ==> ((VM_MAX_ALLOWED - base) % WORD >= size <==> base + size <= WORD + VM_MAX_ALLOWED)
  {
    if base > VM_MAX_ALLOWED { assert (VM_MAX_ALLOWED - base) % WORD == VM_MAX_ALLOWED - base + WORD; }
  }

  /** The first area starts below the arena, and there is a place behind it that begins below the arena too. */
  ghost predicate LowRoom(vs: seq<Vma>, size: nat, huge: bool) {
    && vs != [] && vs[0].start < VM_BASE_ADDR
    && exists a: nat :: a < VM_BASE_ADDR &&
         (Gap(vs, End(vs[0]), a, size, huge) || FitsFrom(vs, End(vs[0]), a, size, huge))
  }

  ghost predicate SearchSound(vs: seq<Vma>, size: nat, huge: bool) {
    Ends(vs, VM_BASE_ADDR, size, huge) && !LowRoom(vs, size, huge)
  }

  /** Without room below the arena, searching from the floor is searching from the base. */
  lemma FloorIsBase(vs: seq<Vma>, size: nat, huge: bool)
    requires size > 0 && !LowRoom(vs, size, huge)
    ensures forall a: nat :: FitsFrom(vs, Floor(vs), a, size, huge) <==> Fits(vs, a, size, huge)
    ensures forall a: nat :: Gap(vs, Floor(vs), a, size, huge) <==> Gap(vs, VM_BASE_ADDR, a, size, huge)
  {
    forall a: nat
      ensures FitsFrom(vs, Floor(vs), a, size, huge) <==> Fits(vs, a, size, huge)
      ensures Gap(vs, Floor(vs), a, size, huge) <==> Gap(vs, VM_BASE_ADDR, a, size, huge)
    {
      if vs != [] {
        assert Fits(vs, a, size, huge) ==> a + size <= vs[0].start || End(vs[0]) <= a;
        assert Gap(vs, VM_BASE_ADDR, a, size, huge) ==> a + size <= vs[0].start || End(vs[0]) <= a;
      }
    }
  }

  /**
   The search answers the lowest place in the arena, and none only if there is none, exactly when SearchSound holds. It
   fails on an empty list whose first area does not fit; when no place is left but a gap beyond the arena is wide enough
   or the last end, rounded, lies beyond it, so that the unsigned difference wraps; and when an area starts below the
   arena and there is room behind it down there.
   */
  lemma FirstFitExactly(vs: seq<Vma>, size: nat, huge: bool)
    requires Sorted(vs) && Low(vs) && 0 < size < WORD && Multiple(size, huge)
    ensures LowestFit(vs, size, huge, FindGap(vs, size, huge)) <==> SearchSound(vs, size, huge)
  {
    if LowRoom(vs, size, huge) {
      LowRoomMisleads(vs, size, huge);
    } else {
      FloorFitExactly(vs, size, huge);
      FloorIsBase(vs, size, huge);
      SameFits(vs, Floor(vs), size, huge, FindGap(vs, size, huge));
    }
  }

  /** With room below the arena the answer is below the arena. */
  lemma LowRoomMisleads(vs: seq<Vma>, size: nat, huge: bool)
    requires Sorted(vs) && Low(vs) && 0 < size < WORD && LowRoom(vs, size, huge)
    ensures FindGap(vs, size, huge).Some? && FindGap(vs, size, huge).value.0 < VM_BASE_ADDR
  {
    var a: nat :| a < VM_BASE_ADDR && (Gap(vs, End(vs[0]), a, size, huge) || FitsFrom(vs, End(vs[0]), a, size, huge));
    SearchFinds(vs, size, huge);
    LowAnswer(vs, size, huge, a, FindGap(vs, size, huge));
  }

  lemma LowAnswer(vs: seq<Vma>, size: nat, huge: bool, a: nat, r: Option<(nat, nat)>)
    requires Sorted(vs) && Low(vs) && 0 < size < WORD && vs != [] && Scanned(vs, size, huge, r)
    requires Gap(vs, Floor(vs), a, size, huge) || FitsFrom(vs, Floor(vs), a, size, huge)
    ensures r.Some? && r.value.0 <= a
  {
    var last, base := vs[|vs| - 1], RoundUp(End(vs[|vs| - 1]), huge);
    FitsWhere(vs, a, size, huge);
    if exists b: nat :: Gap(vs, Floor(vs), b, size, huge) {
      assert Gap(vs, Floor(vs), r.value.0, size, huge);
      assert !Gap(vs, Floor(vs), a, size, huge) ==> r.value.0 <= last.start <= a;
    } else {
      RoundUpLeast(End(last), huge);
      assert base <= a && a + size <= VM_MAX_ALLOWED;
      LastTest(base, size);
    }
  }

  lemma SameFits(vs: seq<Vma>, floor: nat, size: nat, huge: bool, r: Option<(nat, nat)>)
    requires forall a: nat :: FitsFrom(vs, floor, a, size, huge) <==> Fits(vs, a, size, huge)
    requires forall a: nat :: Gap(vs, floor, a, size, huge) <==> Gap(vs, VM_BASE_ADDR, a, size, huge)
    ensures LowestFrom(vs, floor, size, huge, r) <==> LowestFit(vs, size, huge, r)
    ensures Ends(vs, floor, size, huge) <==> Ends(vs, VM_BASE_ADDR, size, huge)
  {
    if exists a: nat :: FitsFrom(vs, floor, a, size, huge) {
      var a: nat :| FitsFrom(vs, floor, a, size, huge);
      assert Fits(vs, a, size, huge);
      assert FitsFrom(vs, VM_BASE_ADDR, a, size, huge);
    }
    if exists a: nat :: FitsFrom(vs, VM_BASE_ADDR, a, size, huge) {
      var a: nat :| FitsFrom(vs, VM_BASE_ADDR, a, size, huge);
      assert Fits(vs, a, size, huge);
      assert FitsFrom(vs, floor, a, size, huge);
    }
  }

  /** For 4 KiB pages a non-empty list of areas in the arena never misleads the search. */
  lemma NormalSearchSound(vs: seq<Vma>, size: nat)
    requires vs != [] && Bounded(vs) && vs[0].start >= VM_BASE_ADDR
    ensures SearchSound(vs, size, false)
  {
    RoundUpLeast(End(vs[|vs| - 1]), false);
    assert Multiple(VM_MAX_ALLOWED, false);
    forall a: nat | Gap(vs, VM_BASE_ADDR, a, size, false)
      ensures FitsFrom(vs, VM_BASE_ADDR, a, size, false)
    {
      assert End(vs[|vs| - 1]) <= VM_MAX_ALLOWED;
    }
  }

  /** An area below the arena, as a fixed mapping may leave one, and the next mapping is put below it too. */
  lemma BelowArena()
    ensures var vs := [Vma(0x1000, 0x1000, VmFlags(true, true, true, false, false, false, false), true)];
            FindGap(vs, 0x1000, false) == Some((0x2000, 1)) && 0x2000 < VM_BASE_ADDR && LowRoom(vs, 0x1000, false)
  {
    var vs := [Vma(0x1000, 0x1000, VmFlags(true, true, true, false, false, false, false), true)];
    assert FitsFrom(vs, End(vs[0]), 0x2000, 0x1000, false);
  }

  /** A 2 MiB request in a full arena is answered with the first address above the user half. */
  lemma HugeOverrun()
    ensures var full := [Vma(VM_BASE_ADDR, VM_MAX_ALLOWED - VM_BASE_ADDR,
                             VmFlags(true, true, true, false, false, false, false), false)];
            FindGap(full, HUGE_PAGE_SIZE, true) == Some((0x8000_0000_0000, 1))
  {
  }

  /** The first mapping of a process is granted whatever its size. */
  lemma EmptyOverrun()
    ensures FindGap([], 0x8000_0000_0000, false) == Some((VM_BASE_ADDR, 0))
    ensures !Fits([], VM_BASE_ADDR, 0x8000_0000_0000, false)
  {
  }

  /** and the next one, however small, is then put behind it, beyond the arena. */
  lemma BeyondArena()
    ensures var vs := [Vma(VM_BASE_ADDR, 0x8000_0000_0000, VmFlags(true, true, true, false, false, false, false),
                           false)];
            Low(vs) && FindGap(vs, 0x1000, false) == Some((0x8000_4000_0000, 1)) && 0x8000_4000_0000 > VM_MAX_ALLOWED
  {
  }

  // ---------------------------------------------------------------- what insertion keeps

  function Insert(vs: seq<Vma>, k: nat, v: Vma): seq<Vma>
    requires k <= |vs|
  {
    vs[..k] + [v] + vs[k..]
  }

  lemma InsertSorted(vs: seq<Vma>, k: nat, v: Vma)
    requires Sorted(vs) && k <= |vs|
    requires k > 0 ==> End(vs[k - 1]) <= v.start
    requires k < |vs| ==> End(v) <= vs[k].start
    ensures Sorted(Insert(vs, k, v))
  {
    var ws := Insert(vs, k, v);
    forall i, j | 0 <= i < j < |ws|
      ensures End(ws[i]) <= ws[j].start
    {
      if i + 1 < k { assert End(vs[i]) <= vs[k - 1].start; }
      if j > k + 1 && k < |vs| { assert End(vs[k]) <= vs[j - 1].start; }
    }
  }

  lemma {:induction false} ScanPlaces(vs: seq<Vma>, i: nat, size: nat, huge: bool)
    requires Low(vs) && i < |vs| && ScanGap(vs, i, size, huge).Some?
    ensures var (addr, k) := ScanGap(vs, i, size, huge).value;
            0 < k <= |vs| && End(vs[k - 1]) <= addr && (k < |vs| ==> addr < vs[k].start && addr + size <= vs[k].start)
    decreases |vs| - i
  {
    RoundUpLeast(End(vs[i]), huge);
    if i + 1 < |vs| && ScanGap(vs, i, size, huge) == ScanGap(vs, i + 1, size, huge) {
      ScanPlaces(vs, i + 1, size, huge);
    }
  }

  /** Whatever first fit answers keeps the areas in order and apart. */
  lemma GapKeepsSorted(vs: seq<Vma>, v: Vma, huge: bool)
    requires Sorted(vs) && Low(vs) && FindGap(vs, v.size, huge).Some?
    requires v.start == FindGap(vs, v.size, huge).value.0
    ensures FindGap(vs, v.size, huge).value.1 <= |vs| && Sorted(Insert(vs, FindGap(vs, v.size, huge).value.1, v))
    ensures FindGap(vs, v.size, huge).value.1 < |vs| ==> v.start < vs[FindGap(vs, v.size, huge).value.1].start
  {
    if vs != [] && !(vs[0].start > VM_BASE_ADDR && vs[0].start - VM_BASE_ADDR >= v.size) {
      ScanPlaces(vs, 0, v.size, huge);
    }
    InsertSorted(vs, FindGap(vs, v.size, huge).value.1, v);
  }

  // ---------------------------------------------------------------- a given address

  /** The first area that starts above the address. */
  function PlaceIndex(vs: seq<Vma>, start: nat): (k: nat)
    ensures k <= |vs| && (forall i :: 0 <= i < k ==> vs[i].start <= start) && (k < |vs| ==> vs[k].start > start)
  {
    if vs == [] || vs[0].start > start then 0 else 1 + PlaceIndex(vs[1..], start)
  }

  /** `mmap_vmo_at`, for a size already rounded: where the area goes, unless a neighbour is in the way. */
  function PlaceAt(vs: seq<Vma>, start: nat, size: nat): Option<nat> {
    var k := PlaceIndex(vs, start);
    if k > 0 && End(vs[k - 1]) % WORD > start then None
    else if k < |vs| && (start + size) % WORD > vs[k].start then None
    else Some(k)
  }

  predicate Clear(vs: seq<Vma>, start: nat, size: nat) {
    forall i :: 0 <= i < |vs| ==> End(vs[i]) <= start || start + size <= vs[i].start
  }

  /** Starts and sizes are words; an end may be beyond. */
  predicate AllWords(vs: seq<Vma>) { forall i :: 0 <= i < |vs| ==> vs[i].start < WORD && vs[i].size < WORD }

  /** An area at or below the address reaches the end of the word, so that its end is read as a small number. */
  predicate UnderWrapped(vs: seq<Vma>, start: nat) {
    exists i :: 0 <= i < |vs| && vs[i].start <= start && End(vs[i]) >= WORD
  }

  /** Some area starts above the address. */
  predicate AreaAbove(vs: seq<Vma>, start: nat) { exists i :: 0 <= i < |vs| && vs[i].start > start }

  predicate Inside(vs: seq<Vma>, start: nat) { exists i :: 0 <= i < |vs| && vs[i].start <= start < End(vs[i]) }

  /**
   Looking at the two neighbours decides whether the whole list is clear, with two exceptions: a range that wraps around
   the word below an area that starts above it is taken for clear unless it begins inside an area, and so is any range
   that begins in an area which reaches the end of the word.
   */
  lemma PlaceAtExactly(vs: seq<Vma>, start: nat, size: nat)
    requires Sorted(vs) && AllWords(vs) && start < WORD && 0 < size < WORD
    ensures (PlaceAt(vs, start, size).Some? <==> Clear(vs, start, size)) <==>
            !UnderWrapped(vs, start) && (start + size < WORD || !AreaAbove(vs, start) || Inside(vs, start))
  {
    var k := PlaceIndex(vs, start);
    if UnderWrapped(vs, start) {
      WrappedIsLast(vs, start, k);
      assert !Clear(vs, start, size) && PlaceAt(vs, start, size).Some?;
    } else if k > 0 && End(vs[k - 1]) > start {
      SmallWord(End(vs[k - 1]));
      assert Inside(vs, start) && !Clear(vs, start, size) && PlaceAt(vs, start, size).None?;
    } else {
      if k > 0 { SmallWord(End(vs[k - 1])); }
      BeforePlace(vs, start, k);
      if k < |vs| {
        PlaceBelow(vs, start, size, k);
        assert AreaAbove(vs, start);
      } else {
        assert !AreaAbove(vs, start) && Clear(vs, start, size) && PlaceAt(vs, start, size).Some?;
      }
    }
  }

  /** Nothing starts above an area that reaches the end of the word, and its end, reduced, lies below its start. */
  lemma WrappedIsLast(vs: seq<Vma>, start: nat, k: nat)
    requires Sorted(vs) && AllWords(vs) && UnderWrapped(vs, start) && k == PlaceIndex(vs, start) && start < WORD
    ensures k == |vs| > 0 && End(vs[k - 1]) >= WORD && End(vs[k - 1]) % WORD <= vs[k - 1].start <= start
  {
    var i :| 0 <= i < |vs| && vs[i].start <= start && End(vs[i]) >= WORD;
    var last := vs[|vs| - 1];
    assert last.start < WORD <= End(vs[i]);
    WrapOnce(End(vs[i]));
  }

  /** When the predecessor ends in time, so does everything before it. */
  lemma BeforePlace(vs: seq<Vma>, start: nat, k: nat)
    requires Sorted(vs) && k == PlaceIndex(vs, start) && (k > 0 ==> End(vs[k - 1]) <= start)
    ensures (forall i :: 0 <= i < k ==> End(vs[i]) <= start) && !Inside(vs, start)
  {
    forall i | 0 <= i < k
      ensures End(vs[i]) <= start
    {
      if i + 1 < k { assert End(vs[i]) <= vs[k - 1].start; }
    }
    forall i | k <= i < |vs|
      ensures vs[i].start > start
    {
      if i > k { assert End(vs[k]) <= vs[i].start; }
    }
  }

  lemma PlaceBelow(vs: seq<Vma>, start: nat, size: nat, k: nat)
    requires Sorted(vs) && AllWords(vs) && start < WORD && 0 < size < WORD && k == PlaceIndex(vs, start) < |vs|
    requires forall i :: 0 <= i < k ==> End(vs[i]) <= start
    ensures Clear(vs, start, size) <==> start + size <= vs[k].start
    ensures start + size >= WORD ==> (start + size) % WORD <= vs[k].start
    ensures start + size < WORD ==> (start + size) % WORD == start + size
  {
    WrapOnce(start + size);
    forall i | k < i < |vs|
      ensures vs[k].start <= vs[i].start
    {
      assert End(vs[k]) <= vs[i].start;
    }
  }

  /** What an accepted placement knows of its neighbours. */
  lemma PlaceNeighbours(vs: seq<Vma>, start: nat, size: nat, k: nat)
    requires !UnderWrapped(vs, start) && PlaceAt(vs, start, size).Some? && k == PlaceIndex(vs, start)
    ensures PlaceAt(vs, start, size) == Some(k) && (k > 0 ==> End(vs[k - 1]) <= start)
    ensures k < |vs| && start + size < WORD ==> start + size <= vs[k].start
    ensures Sorted(vs) ==> (k < |vs| <==> AreaAbove(vs, start))
  {
    if k > 0 { SmallWord(End(vs[k - 1])); }
    if start + size < WORD { SmallWord(start + size); }
  }

  lemma WrapOnce(x: nat)
    ensures x < WORD ==> x % WORD == x
    ensures WORD <= x < 2 * WORD ==> x % WORD == x - WORD
  {
  }

  lemma SmallWord(x: nat)
    requires x < WORD
    ensures x % WORD == x
  {
  }

  /**
   A fixed placement keeps the areas in order and apart exactly when no area below reaches the end of the word and the
   range does not wrap below a later area.
   */
  lemma PlaceAtKeepsSorted(vs: seq<Vma>, v: Vma)
    requires Sorted(vs) && AllWords(vs) && PlaceAt(vs, v.start, v.size).Some? && v.start < WORD && v.size < WORD
    ensures Sorted(Insert(vs, PlaceIndex(vs, v.start), v)) <==>
            !UnderWrapped(vs, v.start) && (End(v) < WORD || !AreaAbove(vs, v.start))
  {
    var k := PlaceIndex(vs, v.start);
    var ws := Insert(vs, k, v);
    if UnderWrapped(vs, v.start) {
      WrappedIsLast(vs, v.start, k);
      assert ws[k - 1] == vs[k - 1] && ws[k] == v;
    } else {
      PlaceNeighbours(vs, v.start, v.size, k);
      if End(v) < WORD || k == |vs| {
        InsertSorted(vs, k, v);
      } else {
        assert End(ws[k]) > ws[k + 1].start;
      }
    }
  }

  /** A range of four pages from three below the word's end, before an area it covers: accepted. */
  lemma WrappedPlacement()
    ensures var flags := VmFlags(true, true, true, false, false, false, false);
            var vs := [Vma(WORD - 0x2000, 0x1000, flags, true)];
            && PlaceAt(vs, WORD - 0x3000, 0x4000) == Some(0) && !Clear(vs, WORD - 0x3000, 0x4000)
            && !Sorted(Insert(vs, 0, Vma(WORD - 0x3000, 0x4000, flags, true)))
  {
    var flags := VmFlags(true, true, true, false, false, false, false);
    var vs := [Vma(WORD - 0x2000, 0x1000, flags, true)];
    var ws := Insert(vs, 0, Vma(WORD - 0x3000, 0x4000, flags, true));
    assert End(ws[0]) > ws[1].start;
  }

  /**
   Three pages up to the end of the word, accepted by an empty list; then a page in the midst of them, accepted too.
   */
  lemma PlacedInWrapped()
    ensures var flags := VmFlags(true, true, true, false, false, false, false);
            var v := Vma(WORD - 0x3000, 0x3000, flags, true);
            && PlaceAt([], v.start, v.size) == Some(0) && Sorted([v])
            && PlaceAt([v], WORD - 0x2000, 0x1000) == Some(1) && !Clear([v], WORD - 0x2000, 0x1000)
            && !Sorted(Insert([v], 1, Vma(WORD - 0x2000, 0x1000, flags, true)))
  {
    var flags := VmFlags(true, true, true, false, false, false, false);
    var v := Vma(WORD - 0x3000, 0x3000, flags, true);
    assert PlaceIndex([v][1..], WORD - 0x2000) == 0;
    var ws := Insert([v], 1, Vma(WORD - 0x2000, 0x1000, flags, true));
    assert End(ws[0]) > ws[1].start;
  }

  /** The first area that starts at the address, or the length. */
  function FirstAt(vs: seq<Vma>, start: nat): (k: nat)
    ensures k <= |vs| && (forall i :: 0 <= i < k ==> vs[i].start != start) && (k < |vs| ==> vs[k].start == start)
  {
    if vs == [] || vs[0].start == start then 0 else 1 + FirstAt(vs[1..], start)
  }

  lemma RemoveSorted(vs: seq<Vma>, k: nat)
    requires Sorted(vs) && k < |vs|
    ensures Sorted(vs[..k] + vs[k + 1..])
  {
  }

  // ---------------------------------------------------------------- every run

  datatype Op =
    | Map(size: nat, flags: VmFlags, backed: bool)
    | MapAt(start: nat, size: nat, flags: VmFlags)
    | Unmap(start: nat, size: nat)

  function Apply(vs: seq<Vma>, op: Op): seq<Vma> {
    match op
    case Map(size, flags, backed) =>
      var gap := FindGap(vs, RoundUp(size, flags.huge), flags.huge);
      if gap.None? || gap.value.1 > |vs| then vs
      else Insert(vs, gap.value.1, Vma(gap.value.0, RoundUp(size, flags.huge), flags, backed))
    case MapAt(start, size, flags) =>
      var k := PlaceAt(vs, start, RoundUp(size, false));
      if k.None? then vs else Insert(vs, k.value, Vma(start, RoundUp(size, false), flags, true))
    case Unmap(start, size) =>
      var k := FirstAt(vs, start);
      if k < |vs| && vs[k].size == RoundUp(size, false) then vs[..k] + vs[k + 1..] else vs
  }

  /** The requests after which every area still lies below the arena's end. */
  ghost predicate InArena(vs: seq<Vma>, op: Op) {
    match op
    case Map(size, flags, _) =>
      var n := RoundUp(size, flags.huge);
      if vs == [] then VM_BASE_ADDR + n <= VM_MAX_ALLOWED
      else
        || RoundUp(End(vs[|vs| - 1]), flags.huge) <= VM_MAX_ALLOWED
        || (n > 0 && exists a: nat :: FitsFrom(vs, Floor(vs), a, n, flags.huge))
    case MapAt(start, size, _) => start + RoundUp(size, false) <= VM_MAX_ALLOWED
    case Unmap(_, _) => true
  }

  lemma {:induction false} ScanBounded(vs: seq<Vma>, i: nat, size: nat, huge: bool)
    requires Bounded(vs) && i < |vs| && ScanGap(vs, i, size, huge).Some?
    requires RoundUp(End(vs[|vs| - 1]), huge) <= VM_MAX_ALLOWED
    ensures ScanGap(vs, i, size, huge).value.0 + size <= VM_MAX_ALLOWED
    decreases |vs| - i
  {
    if i + 1 < |vs| {
      assert End(vs[i + 1]) <= VM_MAX_ALLOWED;
      if ScanGap(vs, i, size, huge) == ScanGap(vs, i + 1, size, huge) { ScanBounded(vs, i + 1, size, huge); }
    }
  }

  lemma GapBounded(vs: seq<Vma>, size: nat, huge: bool)
    requires Sorted(vs) && Bounded(vs) && FindGap(vs, size, huge).Some?
    requires if vs == [] then VM_BASE_ADDR + size <= VM_MAX_ALLOWED
             else
               || RoundUp(End(vs[|vs| - 1]), huge) <= VM_MAX_ALLOWED
               || (0 < size < WORD && Multiple(size, huge) && Ends(vs, Floor(vs), size, huge))
    ensures FindGap(vs, size, huge).value.0 + size <= VM_MAX_ALLOWED
  {
    if vs != [] && RoundUp(End(vs[|vs| - 1]), huge) > VM_MAX_ALLOWED {
      FloorFitExactly(vs, size, huge);
    } else if vs != [] {
      assert End(vs[0]) <= VM_MAX_ALLOWED;
      if !(vs[0].start > VM_BASE_ADDR && vs[0].start - VM_BASE_ADDR >= size) { ScanBounded(vs, 0, size, huge); }
    }
  }

  lemma RoundUpIsMultiple(x: nat, huge: bool)
    ensures Multiple(RoundUp(x, huge), huge) && RoundUp(x, huge) < WORD
  {
  }

  lemma InsertBounded(vs: seq<Vma>, k: nat, v: Vma)
    requires Bounded(vs) && k <= |vs| && End(v) <= VM_MAX_ALLOWED
    ensures Bounded(Insert(vs, k, v))
  {
  }

  lemma RemoveBounded(vs: seq<Vma>, k: nat)
    requires Bounded(vs) && k < |vs|
    ensures Bounded(vs[..k] + vs[k + 1..])
  {
  }

  lemma MapSorted(vs: seq<Vma>, raw: nat, flags: VmFlags, backed: bool)
    requires Sorted(vs) && Bounded(vs) && InArena(vs, Map(raw, flags, backed))
    ensures var ws := Apply(vs, Map(raw, flags, backed)); Sorted(ws) && Bounded(ws)
  {
    var size := RoundUp(raw, flags.huge);
    var gap := FindGap(vs, size, flags.huge);
    if gap.Some? {
      var v := Vma(gap.value.0, size, flags, backed);
      GapKeepsSorted(vs, v, flags.huge);
      RoundUpIsMultiple(raw, flags.huge);
      GapBounded(vs, size, flags.huge);
      InsertBounded(vs, gap.value.1, v);
    }
  }

  lemma MapAtSorted(vs: seq<Vma>, start: nat, raw: nat, flags: VmFlags)
    requires Sorted(vs) && Bounded(vs) && InArena(vs, MapAt(start, raw, flags))
    ensures var ws := Apply(vs, MapAt(start, raw, flags)); Sorted(ws) && Bounded(ws)
  {
    var size := RoundUp(raw, false);
    var k := PlaceAt(vs, start, size);
    if k.Some? {
      var v := Vma(start, size, flags, true);
      PlaceNeighbours(vs, start, size, PlaceIndex(vs, start));
      InsertSorted(vs, k.value, v);
      InsertBounded(vs, k.value, v);
    }
  }

  lemma UnmapSorted(vs: seq<Vma>, start: nat, raw: nat)
    requires Sorted(vs) && Bounded(vs)
    ensures var ws := Apply(vs, Unmap(start, raw)); Sorted(ws) && Bounded(ws)
  {
    var k := FirstAt(vs, start);
    if k < |vs| && vs[k].size == RoundUp(raw, false) {
      RemoveSorted(vs, k);
      RemoveBounded(vs, k);
      assert Apply(vs, Unmap(start, raw)) == vs[..k] + vs[k + 1..];
    } else {
      assert Apply(vs, Unmap(start, raw)) == vs;
    }
  }

  lemma StepSorted(vs: seq<Vma>, op: Op)
    requires Sorted(vs) && Bounded(vs) && InArena(vs, op)
    ensures Sorted(Apply(vs, op)) && Bounded(Apply(vs, op))
  {
    match op
    case Map(size, flags, backed) => MapSorted(vs, size, flags, backed);
    case MapAt(start, size, flags) => MapAtSorted(vs, start, size, flags);
    case Unmap(start, size) => UnmapSorted(vs, start, size);
  }

  function Run(vs: seq<Vma>, ops: seq<Op>): seq<Vma>
    decreases |ops|
  {
    if ops == [] then vs else Run(Apply(vs, ops[0]), ops[1..])
  }

  ghost predicate RunInArena(vs: seq<Vma>, ops: seq<Op>)
    decreases |ops|
  {
    ops == [] || (InArena(vs, ops[0]) && RunInArena(Apply(vs, ops[0]), ops[1..]))
  }

  /** After any run of mapping, fixed mapping and unmapping the areas are in order and disjoint. */
  lemma {:induction false} EveryRunSorted(vs: seq<Vma>, ops: seq<Op>)
    requires Sorted(vs) && Bounded(vs) && RunInArena(vs, ops)
    ensures Sorted(Run(vs, ops)) && Bounded(Run(vs, ops))
    decreases |ops|
  {
    if ops != [] {
      StepSorted(vs, ops[0]);
      EveryRunSorted(Apply(vs, ops[0]), ops[1..]);
    }
  }

  /** Whatever areas result, arena or not, as long as they end early enough below the word. */
  ghost predicate RunLow(vs: seq<Vma>, ops: seq<Op>)
    decreases |ops|
  {
    ops == [] || (Low(Apply(vs, ops[0])) && RunLow(Apply(vs, ops[0]), ops[1..]))
  }

  lemma MapAtInOrder(vs: seq<Vma>, start: nat, raw: nat, flags: VmFlags)
    requires Sorted(vs) && Low(vs) && Low(Apply(vs, MapAt(start, raw, flags)))
    ensures Sorted(Apply(vs, MapAt(start, raw, flags)))
  {
    var v := Vma(start, RoundUp(raw, false), flags, true);
    if PlaceAt(vs, start, v.size).Some? {
      var k := PlaceIndex(vs, start);
      assert Insert(vs, k, v)[k] == v;
      PlaceNeighbours(vs, start, v.size, k);
      InsertSorted(vs, k, v);
    }
  }

  lemma StepInOrder(vs: seq<Vma>, op: Op)
    requires Sorted(vs) && Low(vs) && Low(Apply(vs, op))
    ensures Sorted(Apply(vs, op))
  {
    match op
    case Map(raw, flags, backed) =>
      var size := RoundUp(raw, flags.huge);
      var gap := FindGap(vs, size, flags.huge);
      if gap.Some? { GapKeepsSorted(vs, Vma(gap.value.0, size, flags, backed), flags.huge); }
    case MapAt(start, raw, flags) => MapAtInOrder(vs, start, raw, flags);
    case Unmap(start, raw) =>
      var k := FirstAt(vs, start);
      if k < |vs| { RemoveSorted(vs, k); }
  }

  /** The areas stay in order and disjoint in every such run, even beyond the arena. */
  lemma {:induction false} EveryRunInOrder(vs: seq<Vma>, ops: seq<Op>)
    requires Sorted(vs) && Low(vs) && RunLow(vs, ops)
    ensures Sorted(Run(vs, ops))
    decreases |ops|
  {
    if ops != [] {
      StepInOrder(vs, ops[0]);
      EveryRunInOrder(Apply(vs, ops[0]), ops[1..]);
    }
  }
}
