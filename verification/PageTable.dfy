/**
 Four-level page tables in physical memory, shared by all processes: section 4.5 of the Intel SDM
 Volume 3A. A table is 512 entries in one frame; addresses are split into indexes and an offset, and
 frames are numbered by physical address / 4096.
 */
module PageTable {
  import opened Wrappers
  import opened Words

  datatype Flags = Flags(present: bool, writable: bool, user: bool, writeThrough: bool, noCache: bool,
                         accessed: bool, dirty: bool, huge: bool, global: bool, noExecute: bool)

  datatype Entry = Entry(frame: nat, flags: Flags)

  datatype BlockSize = Normal | Huge

  const NoFlags := Flags(false, false, false, false, false, false, false, false, false, false)

  /** `set_unused`: the word 0. */
  const Unused := Entry(0, NoFlags)

  /** The flags 0x7 that `get_or_create_next` gives a table: present, writable, user. */
  const TableFlags := NoFlags.(present := true, writable := true, user := true)

  const ENTRIES: nat := 512
  const USER_ENTRIES: nat := 256

  type Table = seq<Entry>

  /** What `zero` leaves. */
  function Zeroed(): (z: Table)
    ensures |z| == ENTRIES && forall i :: 0 <= i < ENTRIES ==> z[i] == Unused
  {
    seq(ENTRIES, i => Unused)
  }

  // ---------------------------------------------------------------- addresses

  datatype Indexes = Indexes(l4: nat, l3: nat, l2: nat, l1: nat)

  function IndexesOf(addr: nat): Indexes {
    Indexes(addr / 0x80_0000_0000 % 512, addr / 0x4000_0000 % 512, addr / 0x20_0000 % 512, addr / 0x1000 % 512)
  }

  /** `PageTableEntry::get_addr` keeps bits 12 to 51 of what `new` was given. */
  function FrameOf(phys: nat): nat { phys / 0x1000 % FRAMES }

  /** Frames of a 52-bit physical address space. */
  const FRAMES: nat := 0x100_0000_0000

  predicate Physical(s: set<nat>) { forall f :: f in s ==> f < FRAMES }

  lemma FrameOfExact(f: nat)
    requires f < FRAMES
    ensures FrameOf(f * 0x1000) == f
  {
  }

  lemma IndexBounds(addr: nat)
    ensures var x := IndexesOf(addr); x.l4 < 512 && x.l3 < 512 && x.l2 < 512 && x.l1 < 512
  {
  }

  /** Addresses the processor accepts: bits 48 to 63 repeat bit 47. */
  predicate Canonical(addr: nat) {
    addr < 0x8000_0000_0000 || 0xffff_8000_0000_0000 <= addr < 0x1_0000_0000_0000_0000
  }

  /** `VirtAddress::new`, sign extension included. */
  function AddressAt(x: Indexes, offset: nat): nat {
    SignExtend(LowAddress(x, offset))
  }

  function SignExtend(addr: nat): nat {
    if addr >= 0x8000_0000_0000 then addr + 0xffff_0000_0000_0000 else addr
  }

  function LowAddress(x: Indexes, offset: nat): nat {
    x.l4 % 512 * 0x80_0000_0000 + x.l3 % 512 * 0x4000_0000 + x.l2 % 512 * 0x20_0000 + x.l1 % 512 * 0x1000 +
      offset % 0x1000
  }

  /** Nested division of an address into its page number, level by level. */
  lemma Levels(addr: nat)
    ensures var p := addr / 0x1000;
            && addr / 0x20_0000 == p / 512 && addr / 0x4000_0000 == p / 512 / 512
            && addr / 0x80_0000_0000 == p / 512 / 512 / 512
    ensures var x := IndexesOf(addr);
            addr == addr / 0x1_0000_0000_0000 * 0x1_0000_0000_0000 + x.l4 * 0x80_0000_0000 + x.l3 * 0x4000_0000 +
              x.l2 * 0x20_0000
                    + x.l1 * 0x1000 + addr % 0x1000
  {
    var p := addr / 0x1000;
    var q := p / 512;
    var r := q / 512;
    assert addr / 0x20_0000 == q && addr / 0x4000_0000 == r;
    assert addr / 0x80_0000_0000 == r / 512;
    assert addr / 0x1_0000_0000_0000 == r / 512 / 512;
  }

  /** Splitting and assembling are inverse on canonical addresses, */
  lemma AddressOfIndexes(addr: nat)
    requires Canonical(addr)
    ensures AddressAt(IndexesOf(addr), addr % 0x1000) == addr
  {
    Levels(addr);
    IndexBounds(addr);
    Assemble(addr, addr / 0x1_0000_0000_0000, IndexesOf(addr), addr % 0x1000);
  }

  lemma Assemble(addr: nat, top: nat, x: Indexes, offset: nat)
    requires Canonical(addr) && x.l4 < 512 && x.l3 < 512 && x.l2 < 512 && x.l1 < 512 && offset < 0x1000
    requires addr == top * 0x1_0000_0000_0000 + x.l4 * 0x80_0000_0000 + x.l3 * 0x4000_0000 + x.l2 * 0x20_0000 +
               x.l1 * 0x1000 + offset
    ensures AddressAt(x, offset) == addr
  {
    InRangeLow(x, offset);
    Extend(addr, top, LowAddress(x, offset));
  }

  lemma InRangeLow(x: Indexes, offset: nat)
    requires x.l4 < 512 && x.l3 < 512 && x.l2 < 512 && x.l1 < 512 && offset < 0x1000
    ensures LowAddress(x, offset) ==
              x.l4 * 0x80_0000_0000 + x.l3 * 0x4000_0000 + x.l2 * 0x20_0000 + x.l1 * 0x1000 + offset
    ensures LowAddress(x, offset) < 0x1_0000_0000_0000
  {
  }

  lemma Extend(addr: nat, top: nat, low: nat)
    requires Canonical(addr) && addr == top * 0x1_0000_0000_0000 + low && low < 0x1_0000_0000_0000
    ensures SignExtend(low) == addr
  {
    assert top == 0 || top == 0xffff;
  }

  /** and so two canonical addresses have the same indexes exactly when they lie in the same page. */
  lemma SamePage(a: nat, b: nat)
    requires Canonical(a) && Canonical(b)
    ensures IndexesOf(a) == IndexesOf(b) <==> a / 0x1000 == b / 0x1000
  {
    Levels(a);
    Levels(b);
    if IndexesOf(a) == IndexesOf(b) {
      AddressOfIndexes(a);
      AddressOfIndexes(b);
      SamePageOffset(IndexesOf(a), a % 0x1000, b % 0x1000);
    }
  }

  lemma SameRegion(a: nat, b: nat)
    requires Canonical(a) && Canonical(b)
    ensures Same(Huge, IndexesOf(a), IndexesOf(b)) <==> a / 0x20_0000 == b / 0x20_0000
  {
    var a', b' := a / 0x20_0000 * 0x20_0000, b / 0x20_0000 * 0x20_0000;
    RegionStart(a);
    RegionStart(b);
    SamePage(a', b');
  }

  lemma RegionStart(a: nat)
    requires Canonical(a)
    ensures var s := a / 0x20_0000 * 0x20_0000;
            Canonical(s) && IndexesOf(s) == IndexesOf(a).(l1 := 0) && s / 0x1000 == a / 0x20_0000 * 512
  {
    var q := a / 0x20_0000;
    var s := q * 0x20_0000;
    assert s / 0x20_0000 == q;
    assert s / 0x1000 == q * 512;
    Levels(a);
    Levels(s);
  }

  lemma SamePageOffset(x: Indexes, i: nat, j: nat)
    requires i < 0x1000 && j < 0x1000
    ensures AddressAt(x, i) / 0x1000 == AddressAt(x, j) / 0x1000
  {
    var p := x.l4 % 512 * 0x800_0000 + x.l3 % 512 * 0x4_0000 + x.l2 % 512 * 0x200 + x.l1 % 512;
    PageOf(p, i);
    PageOf(p, j);
    PageOf(p + 0xf_fff0_0000_0000, i);
    PageOf(p + 0xf_fff0_0000_0000, j);
  }

  lemma PageOf(p: nat, i: nat)
    requires i < 0x1000
    ensures (p * 0x1000 + i) / 0x1000 == p
  {
  }

  // ---------------------------------------------------------------- translation

  type Tables = map<nat, Table>

  function At(T: Tables, t: nat, i: nat): Entry {
    if t in T && i < |T[t]| then T[t][i] else Unused
  }

  function Next(T: Tables, t: nat, i: nat): Option<nat> {
    if At(T, t, i).flags.present then Some(At(T, t, i).frame) else None
  }

  /** The table of second level that a walk for x from root comes to. */
  function L2Table(T: Tables, root: nat, x: Indexes): Option<nat> {
    var l3 := Next(T, root, x.l4);
    if l3.None? then None else Next(T, l3.value, x.l3)
  }

  /** The last-level table, unless the walk ends early or in a huge page. */
  function L1Table(T: Tables, root: nat, x: Indexes): Option<nat> {
    var l2 := L2Table(T, root, x);
    if l2.None? || At(T, l2.value, x.l2).flags.huge then None else Next(T, l2.value, x.l2)
  }

  /** Where a walk ends: nowhere, at a 4 KiB page, at a 2 MiB page, and with which flags. */
  datatype Hit = Miss | Page(frame: nat, flags: Flags) | Region(frame: nat, flags: Flags)

  function Walk(T: Tables, root: nat, x: Indexes): Hit {
    var l2 := L2Table(T, root, x);
    if l2.None? then Miss
    else
      var e := At(T, l2.value, x.l2);
      if !e.flags.present then Miss
      else if e.flags.huge then Region(e.frame, e.flags)
      else HitAt(Normal, At(T, e.frame, x.l1))
  }

  function HitAt(size: BlockSize, e: Entry): Hit {
    if !e.flags.present then Miss else if size == Normal then Page(e.frame, e.flags) else Region(e.frame, e.flags)
  }

  function Translate(T: Tables, root: nat, addr: nat): Option<nat> {
    match Walk(T, root, IndexesOf(addr))
    case Miss => None
    case Page(frame, _) => Some(frame * 0x1000 + addr % 0x1000)
    case Region(frame, _) => Some(frame * 0x1000 + addr % 0x20_0000)
  }

  /** The entry that maps a page or a region, present or not, if the tables on the way exist. */
  function EntryOf(T: Tables, root: nat, x: Indexes, size: BlockSize): Option<Entry> {
    if size == Huge then
      var l2 := L2Table(T, root, x);
      if l2.None? then None else Some(At(T, l2.value, x.l2))
    else
      var l1 := L1Table(T, root, x);
      if l1.None? then None else Some(At(T, l1.value, x.l1))
  }

  // ---------------------------------------------------------------- the tree

  /** Whose subtree: a process's lower half, or the upper half, which processes share. */
  datatype Space = User(root: nat) | Kernel

  /** The place of a table: the root it belongs to and the indexes leading there. */
  datatype Place =
    | Root(root: nat)
    | L3(space: Space, l4: nat)
    | L2(space: Space, l4: nat, l3: nat)
    | L1(space: Space, l4: nat, l3: nat, l2: nat)

  function Child(p: Place, i: nat): Place
    requires !p.L1?
  {
    match p
    case Root(r) => L3(SpaceOf(r, i), i)
    case L3(s, l4) => L2(s, l4, i)
    case L2(s, l4, l3) => L1(s, l4, l3, i)
  }

  function SpaceOf(root: nat, l4: nat): Space {
    if l4 < USER_ENTRIES then User(root) else Kernel
  }

  /** The entry leads to another table. */
  predicate Links(p: Place, e: Entry) {
    !p.L1? && e.flags.present && !(p.L2? && e.flags.huge)
  }

  /** Every link leads to the one table whose place is that child. */
  ghost predicate Tree(T: Tables, home: map<nat, Place>) {
    && T.Keys == home.Keys
    && (forall t :: t in T ==> |T[t]| == ENTRIES)
    && (forall t :: t in T && home[t].Root? ==> home[t].root == t)
    && (forall t, i: nat :: t in T && i < ENTRIES && Links(home[t], At(T, t, i)) ==>
          At(T, t, i).frame in T && home[At(T, t, i).frame] == Child(home[t], i))
  }

  ghost predicate IsRoot(home: map<nat, Place>, r: nat) { r in home && home[r] == Root(r) }

  function SetEntry(T: Tables, t: nat, i: nat, e: Entry): Tables
    requires t in T && i < |T[t]|
  {
    T[t := T[t][i := e]]
  }

  lemma AtSet(T: Tables, t: nat, i: nat, e: Entry, u: nat, j: nat)
    requires t in T && i < |T[t]|
    ensures At(SetEntry(T, t, i, e), u, j) == if u == t && j == i then e else At(T, u, j)
  {
  }

  predicate InRange(x: Indexes) { x.l4 < 512 && x.l3 < 512 && x.l2 < 512 && x.l1 < 512 }

  /** What a walk meets has the place its indexes say. */
  lemma WalkPlaces(T: Tables, home: map<nat, Place>, r: nat, x: Indexes)
    requires Tree(T, home) && IsRoot(home, r) && InRange(x)
    ensures Next(T, r, x.l4).Some? ==>
              Next(T, r, x.l4).value in T && home[Next(T, r, x.l4).value] == L3(SpaceOf(r, x.l4), x.l4)
    ensures L2Table(T, r, x).Some? ==>
              L2Table(T, r, x).value in T && home[L2Table(T, r, x).value] == L2(SpaceOf(r, x.l4), x.l4, x.l3)
    ensures L1Table(T, r, x).Some? ==>
              L1Table(T, r, x).value in T && home[L1Table(T, r, x).value] == L1(SpaceOf(r, x.l4), x.l4, x.l3, x.l2)
  {
    assert home[r] == Root(r);
    var l3 := Next(T, r, x.l4);
    if l3.Some? {
      assert Links(home[r], At(T, r, x.l4));
      var l2 := Next(T, l3.value, x.l3);
      if l2.Some? {
        assert Links(home[l3.value], At(T, l3.value, x.l3));
        if L1Table(T, r, x).Some? {
          assert Links(home[l2.value], At(T, l2.value, x.l2));
        }
      }
    }
  }

  // ---------------------------------------------------------------- editing one entry

  /** Writing a last-level entry changes exactly the walks that come to it. */
  lemma LeafWrite(T: Tables, home: map<nat, Place>, t: nat, i: nat, e: Entry, r: nat, x: Indexes)
    requires Tree(T, home) && t in T && home[t].L1? && i < ENTRIES && IsRoot(home, r) && InRange(x)
    ensures Walk(SetEntry(T, t, i, e), r, x) ==
            if L1Table(T, r, x) == Some(t) && x.l1 == i then HitAt(Normal, e) else Walk(T, r, x)
  {
    WalkPlaces(T, home, r, x);
  }

  /** Writing a second-level entry changes exactly the 2 MiB regions that come to it. */
  lemma RegionWrite(T: Tables, home: map<nat, Place>, t: nat, i: nat, e: Entry, r: nat, x: Indexes)
    requires Tree(T, home) && t in T && home[t].L2? && i < ENTRIES && IsRoot(home, r) && InRange(x)
    requires e.flags.present ==> e.flags.huge
    ensures Walk(SetEntry(T, t, i, e), r, x) ==
            if L2Table(T, r, x) == Some(t) && x.l2 == i then HitAt(Huge, e) else Walk(T, r, x)
  {
    WalkPlaces(T, home, r, x);
  }

  function Grow(T: Tables, t: nat, i: nat, f: nat): Tables
    requires t in T && i < |T[t]| && f !in T
  {
    SetEntry(T[f := Zeroed()], t, i, Entry(f, TableFlags))
  }

  lemma AtGrow(T: Tables, t: nat, i: nat, f: nat, u: nat, j: nat)
    requires t in T && i < |T[t]| && f !in T
    ensures At(Grow(T, t, i, f), u, j) == if u == t && j == i then Entry(f, TableFlags) else At(T, u, j)
  {
  }

  /** Hanging an empty table into an absent entry changes no walk's end. */
  lemma GrowWalk(T: Tables, home: map<nat, Place>, t: nat, i: nat, f: nat, r: nat, x: Indexes)
    requires Tree(T, home) && t in T && !home[t].L1? && i < ENTRIES && IsRoot(home, r) && InRange(x)
    requires f !in T && !At(T, t, i).flags.present
    ensures Walk(Grow(T, t, i, f), r, x) == Walk(T, r, x)
  {
    WalkPlaces(T, home, r, x);
    var T' := Grow(T, t, i, f);
    AtGrow(T, t, i, f, r, x.l4);
    AtGrow(T, t, i, f, f, x.l3);
    AtGrow(T, t, i, f, f, x.l2);
    AtGrow(T, t, i, f, f, x.l1);
    var l3 := Next(T, r, x.l4);
    if l3.Some? {
      AtGrow(T, t, i, f, l3.value, x.l3);
      var l2 := L2Table(T, r, x);
      if l2.Some? {
        AtGrow(T, t, i, f, l2.value, x.l2);
        AtGrow(T, t, i, f, At(T, l2.value, x.l2).frame, x.l1);
      }
    }
  }

  lemma GrowTree(T: Tables, home: map<nat, Place>, t: nat, i: nat, f: nat)
    requires Tree(T, home) && t in T && !home[t].L1? && i < ENTRIES
    requires f !in T && !At(T, t, i).flags.present
    ensures Tree(Grow(T, t, i, f), home[f := Child(home[t], i)])
  {
    var T', home' := Grow(T, t, i, f), home[f := Child(home[t], i)];
    forall u, j: nat | u in T' && j < ENTRIES && Links(home'[u], At(T', u, j))
      ensures At(T', u, j).frame in T' && home'[At(T', u, j).frame] == Child(home'[u], j)
    {
      if u != f && (u != t || j != i) { assert At(T', u, j) == At(T, u, j); }
    }
  }

  lemma EntryTree(T: Tables, home: map<nat, Place>, t: nat, i: nat, e: Entry)
    requires Tree(T, home) && t in T && i < ENTRIES && !Links(home[t], e)
    ensures Tree(SetEntry(T, t, i, e), home)
  {
    var T' := SetEntry(T, t, i, e);
    forall u, j: nat | u in T' && j < ENTRIES && Links(home[u], At(T', u, j))
      ensures At(T', u, j).frame in T' && home[At(T', u, j).frame] == Child(home[u], j)
    {
      AtSet(T, t, i, e, u, j);
    }
  }

  // ---------------------------------------------------------------- what an edit amounts to

  /** The two addresses lie in the same page, or in the same 2 MiB region. */
  predicate Same(size: BlockSize, x: Indexes, y: Indexes) {
    x.l4 == y.l4 && x.l3 == y.l3 && x.l2 == y.l2 && (size == Normal ==> x.l1 == y.l1)
  }

  /**
   The walks of all roots after an edit at v in root: those of the edited page end at e, every other
   page of every root is reached as before, and so is every page of the other roots when v is in the
   lower half. (Roots that share an upper-half table with this one see an edit made in it.)
   */
  ghost predicate Edited(T: Tables, T': Tables, home: map<nat, Place>, root: nat, v: Indexes, size: BlockSize,
                         e: Entry) {
    forall r, x {:trigger Walk(T', r, x)} :: IsRoot(home, r) && InRange(x) ==>
      if !Same(size, x, v) || (r != root && v.l4 < USER_ENTRIES)
      then Walk(T', r, x) == Walk(T, r, x)
      else r == root ==> Walk(T', r, x) == HitAt(size, e)
  }

  ghost predicate SameWalks(T: Tables, T': Tables, home: map<nat, Place>) {
    forall r, x {:trigger Walk(T', r, x)} :: IsRoot(home, r) && InRange(x) ==> Walk(T', r, x) == Walk(T, r, x)
  }

  /** The same end up to its flags. */
  predicate Alike(h: Hit, h': Hit) {
    h.Miss? == h'.Miss? && h.Page? == h'.Page? && (!h.Miss? ==> h.frame == h'.frame)
  }

  /** Every address of every root translates as before. */
  ghost predicate SameFrames(T: Tables, T': Tables, home: map<nat, Place>) {
    forall r, x {:trigger Walk(T', r, x)} :: IsRoot(home, r) && InRange(x) ==> Alike(Walk(T, r, x), Walk(T', r, x))
  }

  lemma LeafEdited(T: Tables, home: map<nat, Place>, root: nat, v: Indexes, t: nat, e: Entry)
    requires Tree(T, home) && IsRoot(home, root) && InRange(v) && L1Table(T, root, v) == Some(t)
    ensures t in T && home[t].L1? && v.l1 < |T[t]|
    ensures var T' := SetEntry(T, t, v.l1, e); Tree(T', home) && Edited(T, T', home, root, v, Normal, e)
  {
    WalkPlaces(T, home, root, v);
    EntryTree(T, home, t, v.l1, e);
    forall r, x | IsRoot(home, r) && InRange(x)
      ensures var T' := SetEntry(T, t, v.l1, e);
              if !Same(Normal, x, v) || (r != root && v.l4 < USER_ENTRIES)
              then Walk(T', r, x) == Walk(T, r, x)
              else r == root ==> Walk(T', r, x) == HitAt(Normal, e)
    {
      LeafWrite(T, home, t, v.l1, e, r, x);
      WalkPlaces(T, home, r, x);
    }
  }

  lemma RegionEdited(T: Tables, home: map<nat, Place>, root: nat, v: Indexes, t: nat, e: Entry)
    requires Tree(T, home) && IsRoot(home, root) && InRange(v) && L2Table(T, root, v) == Some(t)
    requires e.flags.present ==> e.flags.huge
    ensures t in T && home[t].L2? && v.l2 < |T[t]|
    ensures var T' := SetEntry(T, t, v.l2, e); Tree(T', home) && Edited(T, T', home, root, v, Huge, e)
  {
    WalkPlaces(T, home, root, v);
    EntryTree(T, home, t, v.l2, e);
    forall r, x | IsRoot(home, r) && InRange(x)
      ensures var T' := SetEntry(T, t, v.l2, e);
              if !Same(Huge, x, v) || (r != root && v.l4 < USER_ENTRIES)
              then Walk(T', r, x) == Walk(T, r, x)
              else r == root ==> Walk(T', r, x) == HitAt(Huge, e)
    {
      RegionWrite(T, home, t, v.l2, e, r, x);
      WalkPlaces(T, home, r, x);
    }
  }

  // ---------------------------------------------------------------- nothing leaks

  /** A lower-half table is where its place says: the walk along its indexes comes to it. */
  ghost predicate Reached(T: Tables, home: map<nat, Place>, t: nat)
    requires t in home
  {
    var p := home[t];
    p.Root? || p.space.Kernel? ||
    var r := p.space.root;
    && IsRoot(home, r) && p.l4 < USER_ENTRIES
    && (p.L3? ==> Next(T, r, p.l4) == Some(t))
    && (p.L2? ==> p.l3 < ENTRIES && L2Table(T, r, Indexes(p.l4, p.l3, 0, 0)) == Some(t))
    && (p.L1? ==> p.l3 < ENTRIES && p.l2 < ENTRIES && L1Table(T, r, Indexes(p.l4, p.l3, p.l2, 0)) == Some(t))
  }

  ghost predicate AllReached(T: Tables, home: map<nat, Place>) {
    forall t :: t in home ==> Reached(T, home, t)
  }

  /** Tables are only added, and only below the edited address. */
  ghost predicate Placed(home: map<nat, Place>, home': map<nat, Place>, space: Space) {
    && home.Keys <= home'.Keys
    && (forall t :: t in home ==> home'[t] == home[t])
    && (forall t :: t in home' && t !in home ==> !home'[t].Root? && home'[t].space == space)
  }

  /** What creating missing tables on the way to an address may do. */
  ghost predicate Grown(T: Tables, home: map<nat, Place>, T': Tables, home': map<nat, Place>, space: Space) {
    && Placed(home, home', space)
    && SameWalks(T, T', home)
    && (forall t, i: nat {:trigger At(T', t, i)} :: At(T, t, i).flags.present ==> At(T', t, i) == At(T, t, i))
    && (AllReached(T, home) ==> AllReached(T', home'))
  }

  lemma GrownRefl(T: Tables, home: map<nat, Place>, space: Space)
    ensures Grown(T, home, T, home, space)
  {
  }

  lemma GrownTrans(T: Tables, home: map<nat, Place>, T1: Tables, home1: map<nat, Place>,
                   T2: Tables, home2: map<nat, Place>, space: Space)
    requires Grown(T, home, T1, home1, space) && Grown(T1, home1, T2, home2, space)
    ensures Grown(T, home, T2, home2, space)
  {
    forall r, x | IsRoot(home, r) && InRange(x)
      ensures Walk(T2, r, x) == Walk(T, r, x)
    {
      assert Walk(T1, r, x) == Walk(T, r, x);
    }
    forall t, i: nat | At(T, t, i).flags.present
      ensures At(T2, t, i) == At(T, t, i)
    {
      assert At(T1, t, i) == At(T, t, i);
    }
  }

  /** The space of a table's children, given the space of the walk. */
  ghost predicate Within(p: Place, i: nat, space: Space) {
    !p.L1? && Child(p, i).space == space
  }

  lemma GrowReached(T: Tables, home: map<nat, Place>, t: nat, i: nat, f: nat, u: nat)
    requires Tree(T, home) && t in T && !home[t].L1? && i < ENTRIES && f !in T && !At(T, t, i).flags.present
    requires AllReached(T, home) && u in home[f := Child(home[t], i)]
    ensures Reached(Grow(T, t, i, f), home[f := Child(home[t], i)], u)
  {
    var T', home' := Grow(T, t, i, f), home[f := Child(home[t], i)];
    forall v: nat, j: nat
      ensures At(T', v, j) == if v == t && j == i then Entry(f, TableFlags) else At(T, v, j)
    {
      AtGrow(T, t, i, f, v, j);
    }
    assert Reached(T, home, t);
    if u in home { assert Reached(T, home, u); }
  }

  lemma GrowGrown(T: Tables, home: map<nat, Place>, t: nat, i: nat, f: nat, space: Space)
    requires Tree(T, home) && t in T && i < ENTRIES && f !in T && !At(T, t, i).flags.present
    requires Within(home[t], i, space)
    ensures Tree(Grow(T, t, i, f), home[f := Child(home[t], i)])
    ensures Grown(T, home, Grow(T, t, i, f), home[f := Child(home[t], i)], space)
  {
    var T', home' := Grow(T, t, i, f), home[f := Child(home[t], i)];
    GrowTree(T, home, t, i, f);
    forall r, x | IsRoot(home, r) && InRange(x)
      ensures Walk(T', r, x) == Walk(T, r, x)
    {
      GrowWalk(T, home, t, i, f, r, x);
    }
    if AllReached(T, home) {
      forall u | u in home'
        ensures Reached(T', home', u)
      {
        GrowReached(T, home, t, i, f, u);
      }
    }
    forall u, j: nat | At(T, u, j).flags.present
      ensures At(T', u, j) == At(T, u, j)
    {
      AtGrow(T, t, i, f, u, j);
    }
  }

  lemma EditedAfter(T: Tables, home: map<nat, Place>, T1: Tables, home1: map<nat, Place>, T2: Tables,
                    space: Space, root: nat, v: Indexes, size: BlockSize, e: Entry)
    requires Grown(T, home, T1, home1, space) && Edited(T1, T2, home1, root, v, size, e)
    ensures Edited(T, T2, home, root, v, size, e)
  {
    forall r, x | IsRoot(home, r) && InRange(x)
      ensures if !Same(size, x, v) || (r != root && v.l4 < USER_ENTRIES)
              then Walk(T2, r, x) == Walk(T, r, x)
              else r == root ==> Walk(T2, r, x) == HitAt(size, e)
    {
      assert Walk(T1, r, x) == Walk(T, r, x);
      assert IsRoot(home1, r);
    }
  }

  lemma LeafReached(T: Tables, home: map<nat, Place>, t: nat, i: nat, e: Entry)
    requires Tree(T, home) && t in T && i < ENTRIES && AllReached(T, home)
    requires !Links(home[t], e) && !Links(home[t], At(T, t, i))
    ensures AllReached(SetEntry(T, t, i, e), home)
  {
    var T' := SetEntry(T, t, i, e);
    forall u | u in home
      ensures Reached(T', home, u)
    {
      assert Reached(T, home, u);
      if !home[u].Root? && home[u].space.User? { StillReached(T, home, t, i, e, u); }
    }
  }

  lemma StillReached(T: Tables, home: map<nat, Place>, t: nat, i: nat, e: Entry, u: nat)
    requires Tree(T, home) && t in T && i < ENTRIES && u in home && Reached(T, home, u)
    requires !home[u].Root? && home[u].space.User?
    requires !Links(home[t], e) && !Links(home[t], At(T, t, i))
    ensures Reached(SetEntry(T, t, i, e), home, u)
  {
    var p := home[u];
    var x := Indexes(p.l4, if p.L3? then 0 else p.l3, if p.L1? then p.l2 else 0, 0);
    WalkPlaces(T, home, p.space.root, x);
    var l3 := Next(T, p.space.root, x.l4).value;
    AtSet(T, t, i, e, p.space.root, x.l4);
    AtSet(T, t, i, e, l3, x.l3);
    if !p.L3? { AtSet(T, t, i, e, L2Table(T, p.space.root, x).value, x.l2); }
  }

  /** Rewriting an entry with its own frame, present as before, moves no translation in any root. */
  lemma LeafKept(T: Tables, home: map<nat, Place>, t: nat, i: nat, e: Entry)
    requires Tree(T, home) && t in T && home[t].L1? && i < ENTRIES
    requires At(T, t, i).flags.present && e.flags.present && e.frame == At(T, t, i).frame
    ensures SameFrames(T, SetEntry(T, t, i, e), home)
  {
    forall r, x | IsRoot(home, r) && InRange(x)
      ensures Alike(Walk(T, r, x), Walk(SetEntry(T, t, i, e), r, x))
    {
      LeafWrite(T, home, t, i, e, r, x);
    }
  }

  lemma RegionKept(T: Tables, home: map<nat, Place>, t: nat, i: nat, e: Entry)
    requires Tree(T, home) && t in T && home[t].L2? && i < ENTRIES
    requires At(T, t, i).flags.present && e.flags.present && e.frame == At(T, t, i).frame
    requires At(T, t, i).flags.huge && e.flags.huge
    ensures SameFrames(T, SetEntry(T, t, i, e), home)
  {
    forall r, x | IsRoot(home, r) && InRange(x)
      ensures Alike(Walk(T, r, x), Walk(SetEntry(T, t, i, e), r, x))
    {
      RegionWrite(T, home, t, i, e, r, x);
    }
  }

  lemma LeafEntry(T: Tables, home: map<nat, Place>, root: nat, v: Indexes, t: nat, e: Entry)
    requires Tree(T, home) && IsRoot(home, root) && InRange(v) && L1Table(T, root, v) == Some(t)
    ensures t in T && v.l1 < |T[t]| && EntryOf(SetEntry(T, t, v.l1, e), root, v, Normal) == Some(e)
  {
    WalkPlaces(T, home, root, v);
  }

  lemma RegionEntry(T: Tables, home: map<nat, Place>, root: nat, v: Indexes, t: nat, e: Entry)
    requires Tree(T, home) && IsRoot(home, root) && InRange(v) && L2Table(T, root, v) == Some(t)
    ensures t in T && v.l2 < |T[t]| && EntryOf(SetEntry(T, t, v.l2, e), root, v, Huge) == Some(e)
  {
    WalkPlaces(T, home, root, v);
  }

  /** The last step of an operation that first created the tables it needs. */
  lemma LeafStep(T: Tables, home: map<nat, Place>, T1: Tables, home1: map<nat, Place>, space: Space,
                 root: nat, v: Indexes, t: nat, e: Entry)
    requires Tree(T1, home1) && Grown(T, home, T1, home1, space) && IsRoot(home, root) && InRange(v)
    requires L1Table(T1, root, v) == Some(t)
    ensures t in T1 && v.l1 < |T1[t]|
    ensures var T2 := SetEntry(T1, t, v.l1, e);
            && Tree(T2, home1) && Edited(T, T2, home, root, v, Normal, e) && EntryOf(T2, root, v, Normal) == Some(e)
            && (AllReached(T1, home1) ==> AllReached(T2, home1))
  {
    LeafEdited(T1, home1, root, v, t, e);
    LeafEntry(T1, home1, root, v, t, e);
    EditedAfter(T, home, T1, home1, SetEntry(T1, t, v.l1, e), space, root, v, Normal, e);
    if AllReached(T1, home1) { LeafReached(T1, home1, t, v.l1, e); }
  }

  lemma RegionStep(T: Tables, home: map<nat, Place>, T1: Tables, home1: map<nat, Place>, space: Space,
                   root: nat, v: Indexes, t: nat, e: Entry)
    requires Tree(T1, home1) && Grown(T, home, T1, home1, space) && IsRoot(home, root) && InRange(v)
    requires L2Table(T1, root, v) == Some(t) && (e.flags.present ==> e.flags.huge)
    ensures t in T1 && v.l2 < |T1[t]|
    ensures var T2 := SetEntry(T1, t, v.l2, e);
            && Tree(T2, home1) && Edited(T, T2, home, root, v, Huge, e) && EntryOf(T2, root, v, Huge) == Some(e)
            && (AllReached(T1, home1) && L1Table(T1, root, v).None? ==> AllReached(T2, home1))
  {
    RegionEdited(T1, home1, root, v, t, e);
    RegionEntry(T1, home1, root, v, t, e);
    EditedAfter(T, home, T1, home1, SetEntry(T1, t, v.l2, e), space, root, v, Huge, e);
    if AllReached(T1, home1) && L1Table(T1, root, v).None? { LeafReached(T1, home1, t, v.l2, e); }
  }

  /** New flags on the last-level entry of v. */
  lemma ReflagLeaf(T: Tables, home: map<nat, Place>, root: nat, v: Indexes, t: nat, e: Entry)
    requires Tree(T, home) && IsRoot(home, root) && InRange(v) && L1Table(T, root, v) == Some(t)
    requires At(T, t, v.l1).flags.present && e.frame == At(T, t, v.l1).frame
    ensures t in T && v.l1 < |T[t]|
    ensures var T2 := SetEntry(T, t, v.l1, e);
            && Tree(T2, home) && EntryOf(T2, root, v, Normal) == Some(e) &&
                 (AllReached(T, home) ==> AllReached(T2, home))
            && Edited(T, T2, home, root, v, Normal, e) && (e.flags.present ==> SameFrames(T, T2, home))
  {
    GrownRefl(T, home, SpaceOf(root, v.l4));
    LeafStep(T, home, T, home, SpaceOf(root, v.l4), root, v, t, e);
    LeafEdited(T, home, root, v, t, e);
    if e.flags.present { LeafKept(T, home, t, v.l1, e); }
  }

  lemma ReflagRegion(T: Tables, home: map<nat, Place>, root: nat, v: Indexes, t: nat, e: Entry)
    requires Tree(T, home) && IsRoot(home, root) && InRange(v) && L2Table(T, root, v) == Some(t)
    requires L1Table(T, root, v).None?
    requires At(T, t, v.l2).flags.present && e.frame == At(T, t, v.l2).frame && e.flags.huge
    ensures t in T && v.l2 < |T[t]|
    ensures var T2 := SetEntry(T, t, v.l2, e);
            && Tree(T2, home) && EntryOf(T2, root, v, Huge) == Some(e) && (AllReached(T, home) ==> AllReached(T2, home))
            && Edited(T, T2, home, root, v, Huge, e) && (e.flags.present ==> SameFrames(T, T2, home))
  {
    GrownRefl(T, home, SpaceOf(root, v.l4));
    RegionStep(T, home, T, home, SpaceOf(root, v.l4), root, v, t, e);
    RegionEdited(T, home, root, v, t, e);
    if e.flags.present { RegionKept(T, home, t, v.l2, e); }
  }

  /** Where no present entry maps v, nothing is left to unmap. */
  lemma NothingThere(T: Tables, home: map<nat, Place>, root: nat, v: Indexes, size: BlockSize)
    requires Tree(T, home) && IsRoot(home, root) && InRange(v)
    requires size == Normal ==> !Walk(T, root, v).Region?
    ensures EntryOf(T, root, v, size).None? || !EntryOf(T, root, v, size).value.flags.present ==>
              Walk(T, root, v).Miss? && Edited(T, T, home, root, v, size, Unused)
    ensures SameWalks(T, T, home)
    ensures size == Normal && Walk(T, root, v).Miss? ==>
              EntryOf(T, root, v, size).None? || !EntryOf(T, root, v, size).value.flags.present
    ensures size == Huge && L1Table(T, root, v).None? && Walk(T, root, v).Miss? ==>
              EntryOf(T, root, v, size).None? || !EntryOf(T, root, v, size).value.flags.present
  {
  }

  // ---------------------------------------------------------------- the operations

  function NewEntry(phys: nat, flags: Flags, size: BlockSize): Entry {
    Entry(FrameOf(phys), if size == Huge then flags.(huge := true) else flags)
  }

  /** A present entry keeps its frame and takes the flags, the huge bit kept for a 2 MiB page. */
  function Reflagged(e: Option<Entry>, flags: Flags, size: BlockSize): Option<Entry> {
    if e.None? || !e.value.flags.present then e
    else Some(Entry(e.value.frame, if size == Huge then flags.(huge := true) else flags))
  }

  /**
   What a change of flags does: nothing where nothing is mapped; else this page's entry, and no other page's, takes the
   flags, and as long as it is present every translation stays.
   */
  ghost predicate ReflagsAt(T: Tables, T': Tables, home: map<nat, Place>, root: nat, v: Indexes, flags: Flags,
                            size: BlockSize) {
    && (Walk(T, root, v).Miss? ==> SameWalks(T, T', home))
    && (flags.present ==> SameFrames(T, T', home))
    && EntryOf(T', root, v, size) == Reflagged(EntryOf(T, root, v, size), flags, size)
    && (var e := EntryOf(T', root, v, size); Edited(T, T', home, root, v, size, if e.Some? then e.value else Unused))
    && (AllReached(T, home) ==> AllReached(T', home))
  }

  lemma NothingReflagged(T: Tables, home: map<nat, Place>, root: nat, v: Indexes, flags: Flags, size: BlockSize)
    requires Tree(T, home) && IsRoot(home, root) && InRange(v)
    requires size == Normal ==> !Walk(T, root, v).Region?
    requires EntryOf(T, root, v, size).None? || !EntryOf(T, root, v, size).value.flags.present
    ensures ReflagsAt(T, T, home, root, v, flags, size)
  {
    NothingThere(T, home, root, v, size);
  }

  lemma EntryReflagged(T: Tables, home: map<nat, Place>, root: nat, v: Indexes, t: nat, flags: Flags, size: BlockSize)
    requires Tree(T, home) && IsRoot(home, root) && InRange(v)
    requires size == Normal ==> L1Table(T, root, v) == Some(t)
    requires size == Huge ==> L2Table(T, root, v) == Some(t) && L1Table(T, root, v).None?
    requires At(T, t, if size == Huge then v.l2 else v.l1).flags.present
    ensures var i := if size == Huge then v.l2 else v.l1;
            var e := Entry(At(T, t, i).frame, if size == Huge then flags.(huge := true) else flags);
            && t in T && SetEntry(T, t, i, e).Keys == T.Keys
            && Tree(SetEntry(T, t, i, e), home) && ReflagsAt(T, SetEntry(T, t, i, e), home, root, v, flags, size)
  {
    if size == Huge {
      ReflagRegion(T, home, root, v, t, Entry(At(T, t, v.l2).frame, flags.(huge := true)));
    } else {
      ReflagLeaf(T, home, root, v, t, Entry(At(T, t, v.l1).frame, flags));
    }
  }

  /** Physical memory as the pager sees it: the frames that hold tables and those the allocator can give. */
  class Memory {
    var tables: Tables
    var free: set<nat>
    ghost var home: map<nat, Place>

    ghost predicate Valid()
      reads this
    {
      Tree(tables, home) && free !! tables.Keys && Physical(free) && Physical(tables.Keys)
    }

    /** Memory before the first process: the kernel's root with nothing below it, and the frames left to give. */
    constructor (root: nat, free: set<nat>)
      requires root !in free && root < FRAMES && Physical(free)
      ensures Valid() && AllReached(tables, home) && IsRoot(home, root) && this.free == free && tables.Keys == {root}
    {
      tables, home := map[root := Zeroed()], map[root := Root(root)];
      this.free := free;
    }

    /** The allocator: some frame that nobody holds. It panics when there is none. */
    method Alloc() returns (f: Option<nat>)
      modifies this`free
      ensures f.None? ==> free == old(free) == {}
      ensures f.Some? ==> f.value in old(free) && free == old(free) - {f.value}
    {
      if free == {} { return None; }
      var x :| x in free;
      free := free - {x};
      f := Some(x);
    }

    /** Giving a frame back; what it held is gone. Giving back a free frame is the error the allocator panics on. */
    method Free(f: nat)
      requires f !in free
      modifies this
      ensures free == old(free) + {f} && tables == old(tables) - {f} && home == old(home) - {f}
    {
      free := free + {f};
      tables := tables - {f};
      home := home - {f};
    }

    method GetOrCreateNext(t: nat, i: nat, ghost space: Space) returns (next: Option<nat>)
      requires Valid() && t in tables && i < ENTRIES && Within(home[t], i, space)
      requires At(tables, t, i).flags.present ==> Links(home[t], At(tables, t, i))
      modifies this
      ensures Valid() && Grown(old(tables), old(home), tables, home, space)
      ensures free <= old(free) && tables.Keys == old(tables.Keys) + (old(free) - free)
      ensures next.None? ==> free == {}
      ensures next.Some? ==> Next(tables, t, i) == next && Links(home[t], At(tables, t, i))
      ensures next.Some? ==> next.value in tables && home[next.value] == Child(home[t], i)
      ensures next.Some? && !old(At(tables, t, i)).flags.present ==>
                && next.value in old(free) && next.value !in old(tables)
                && At(tables, t, i).flags.writable && At(tables, t, i).flags.user
      ensures forall u, j: nat {:trigger At(tables, u, j)} :: u != t || j != i ==>
                At(tables, u, j) == old(At(tables, u, j))
    {
      if !At(tables, t, i).flags.present {
        var f := Alloc();
        if f.None? {
          GrownRefl(tables, home, space);
          return None;
        }
        GrowGrown(tables, home, t, i, f.value, space);
        forall u: nat, j: nat
          ensures At(Grow(tables, t, i, f.value), u, j) == if u == t && j == i then Entry(f.value, TableFlags)
                  else At(tables, u, j)
        {
          AtGrow(tables, t, i, f.value, u, j);
        }
        home := home[f.value := Child(home[t], i)];
        tables := tables[f.value := Zeroed()];
        FrameOfExact(f.value);
        tables := SetEntry(tables, t, i, NewEntry(f.value * 0x1000, TableFlags, Normal));
      } else {
        GrownRefl(tables, home, space);
      }
      next := Some(At(tables, t, i).frame);
    }

    /** The second-level table on the way to v, created if missing. */
    method WayTo(root: nat, v: Indexes) returns (l2: Option<nat>)
      requires Valid() && IsRoot(home, root) && InRange(v)
      modifies this
      ensures Valid() && Grown(old(tables), old(home), tables, home, SpaceOf(root, v.l4))
      ensures free <= old(free) && tables.Keys == old(tables.Keys) + (old(free) - free)
      ensures l2.None? ==> free == {}
      ensures l2.Some? ==> L1Table(tables, root, v) == old(L1Table(tables, root, v))
      ensures l2.Some? ==> L2Table(tables, root, v) == l2 && l2.value in tables
      ensures l2.Some? ==> home[l2.value] == L2(SpaceOf(root, v.l4), v.l4, v.l3)
    {
      ghost var T0, home0 := tables, home;
      var l3 := GetOrCreateNext(root, v.l4, SpaceOf(root, v.l4));
      if l3.None? { return None; }
      ghost var T1, home1 := tables, home;
      l2 := GetOrCreateNext(l3.value, v.l3, SpaceOf(root, v.l4));
      GrownTrans(T0, home0, T1, home1, tables, home, SpaceOf(root, v.l4));
      assert At(tables, root, v.l4) == At(T1, root, v.l4);
    }

    /** The last-level table on the way to v, created if missing. */
    method WayToLeaf(root: nat, v: Indexes) returns (l1: Option<nat>)
      requires Valid() && IsRoot(home, root) && InRange(v) && !Walk(tables, root, v).Region?
      modifies this
      ensures Valid() && Grown(old(tables), old(home), tables, home, SpaceOf(root, v.l4))
      ensures free <= old(free) && tables.Keys == old(tables.Keys) + (old(free) - free)
      ensures l1.None? ==> free == {}
      ensures l1.Some? ==> L1Table(tables, root, v) == l1
    {
      ghost var T0, home0, space := tables, home, SpaceOf(root, v.l4);
      var l2 := WayTo(root, v);
      if l2.None? { return None; }
      ghost var T1, home1 := tables, home;
      assert Walk(T1, root, v) == Walk(T0, root, v);
      l1 := GetOrCreateNext(l2.value, v.l2, space);
      GrownTrans(T0, home0, T1, home1, tables, home, space);
      assert At(tables, root, v.l4) == At(T1, root, v.l4);
      assert At(tables, Next(T1, root, v.l4).value, v.l3) == At(T1, Next(T1, root, v.l4).value, v.l3);
    }

    /** `map_page`; false is the allocator's panic. */
    method MapPage(root: nat, virt: nat, phys: nat, flags: Flags, size: BlockSize) returns (ok: bool)
      requires Valid() && IsRoot(home, root)
      requires size == Normal ==> !Walk(tables, root, IndexesOf(virt)).Region?
      modifies this
      ensures Valid() && free <= old(free) && tables.Keys == old(tables.Keys) + (old(free) - free)
      ensures Placed(old(home), home, SpaceOf(root, IndexesOf(virt).l4))
      ensures ok ==> Edited(old(tables), tables, old(home), root, IndexesOf(virt), size, NewEntry(phys, flags, size))
      ensures ok ==> EntryOf(tables, root, IndexesOf(virt), size) == Some(NewEntry(phys, flags, size))
      ensures !ok ==> free == {} && SameWalks(old(tables), tables, old(home))
      ensures old(AllReached(tables, home)) && (size == Huge ==> old(L1Table(tables, root, IndexesOf(virt))).None?) ==>
                AllReached(tables, home)
    {
      IndexBounds(virt);
      if size == Huge {
        ok := MapRegion(root, IndexesOf(virt), NewEntry(phys, flags, size));
      } else {
        ok := MapLeaf(root, IndexesOf(virt), NewEntry(phys, flags, size));
      }
    }

    method MapLeaf(root: nat, v: Indexes, e: Entry) returns (ok: bool)
      requires Valid() && IsRoot(home, root) && InRange(v) && !Walk(tables, root, v).Region?
      modifies this
      ensures Valid() && free <= old(free) && tables.Keys == old(tables.Keys) + (old(free) - free)
      ensures Placed(old(home), home, SpaceOf(root, v.l4))
      ensures ok ==> Edited(old(tables), tables, old(home), root, v, Normal, e)
      ensures ok ==> EntryOf(tables, root, v, Normal) == Some(e)
      ensures !ok ==> free == {} && SameWalks(old(tables), tables, old(home))
      ensures old(AllReached(tables, home)) ==> AllReached(tables, home)
    {
      ghost var T0, home0 := tables, home;
      var l1 := WayToLeaf(root, v);
      if l1.None? { return false; }
      LeafStep(T0, home0, tables, home, SpaceOf(root, v.l4), root, v, l1.value, e);
      tables := SetEntry(tables, l1.value, v.l1, e);
      ok := true;
    }

    method MapRegion(root: nat, v: Indexes, e: Entry) returns (ok: bool)
      requires Valid() && IsRoot(home, root) && InRange(v) && (e.flags.present ==> e.flags.huge)
      modifies this
      ensures Valid() && free <= old(free) && tables.Keys == old(tables.Keys) + (old(free) - free)
      ensures Placed(old(home), home, SpaceOf(root, v.l4))
      ensures ok ==> Edited(old(tables), tables, old(home), root, v, Huge, e)
      ensures ok ==> EntryOf(tables, root, v, Huge) == Some(e)
      ensures !ok ==> free == {} && SameWalks(old(tables), tables, old(home))
      ensures old(AllReached(tables, home)) && old(L1Table(tables, root, v)).None? ==> AllReached(tables, home)
    {
      ghost var T0, home0 := tables, home;
      var l2 := WayTo(root, v);
      if l2.None? { return false; }
      RegionStep(T0, home0, tables, home, SpaceOf(root, v.l4), root, v, l2.value, e);
      tables := SetEntry(tables, l2.value, v.l2, e);
      ok := true;
    }

    method UnmapPage(root: nat, virt: nat, size: BlockSize)
      requires Valid() && IsRoot(home, root)
      requires size == Normal ==> !Walk(tables, root, IndexesOf(virt)).Region?
      modifies this`tables
      ensures Valid() && tables.Keys == old(tables.Keys)
      ensures Edited(old(tables), tables, home, root, IndexesOf(virt), size, Unused)
      ensures old(AllReached(tables, home)) && (size == Huge ==> old(L1Table(tables, root, IndexesOf(virt))).None?) ==>
                AllReached(tables, home)
    {
      var v := IndexesOf(virt);
      IndexBounds(virt);
      GrownRefl(tables, home, SpaceOf(root, v.l4));
      var l3 := Next(tables, root, v.l4);
      if l3.None? { return; }
      var l2 := Next(tables, l3.value, v.l3);
      if l2.None? { return; }
      if size == Huge {
        RegionStep(tables, home, tables, home, SpaceOf(root, v.l4), root, v, l2.value, Unused);
        tables := SetEntry(tables, l2.value, v.l2, Unused);
      } else {
        var l1 := Next(tables, l2.value, v.l2);
        if l1.None? { return; }
        LeafStep(tables, home, tables, home, SpaceOf(root, v.l4), root, v, l1.value, Unused);
        tables := SetEntry(tables, l1.value, v.l1, Unused);
      }
    }

    /** `change_flags`: the page keeps its frame; with the present flag, every translation is what it was. */
    method ChangeFlags(root: nat, virt: nat, flags: Flags, size: BlockSize)
      requires Valid() && IsRoot(home, root)
      requires size == Normal ==> !Walk(tables, root, IndexesOf(virt)).Region?
      requires size == Huge ==> L1Table(tables, root, IndexesOf(virt)).None?
      modifies this`tables
      ensures Valid() && tables.Keys == old(tables.Keys)
      ensures old(Walk(tables, root, IndexesOf(virt))).Miss? ==> SameWalks(old(tables), tables, home)
      ensures flags.present ==> SameFrames(old(tables), tables, home)
      ensures EntryOf(tables, root, IndexesOf(virt), size) ==
              Reflagged(old(EntryOf(tables, root, IndexesOf(virt), size)), flags, size)
      ensures var was := old(EntryOf(tables, root, IndexesOf(virt), size));
              was.Some? && was.value.flags.present ==>
                EntryOf(tables, root, IndexesOf(virt), size) ==
                Some(Entry(was.value.frame, if size == Huge then flags.(huge := true) else flags))
      ensures !flags.present ==> Walk(tables, root, IndexesOf(virt)).Miss?
      ensures var e := EntryOf(tables, root, IndexesOf(virt), size);
              Edited(old(tables), tables, home, root, IndexesOf(virt), size, if e.Some? then e.value else Unused)
      ensures old(AllReached(tables, home)) ==> AllReached(tables, home)
    {
      IndexBounds(virt);
      ChangeFlagsAt(root, IndexesOf(virt), flags, size);
    }

    method ChangeFlagsAt(root: nat, v: Indexes, flags: Flags, size: BlockSize)
      requires Valid() && IsRoot(home, root) && InRange(v)
      requires size == Normal ==> !Walk(tables, root, v).Region?
      requires size == Huge ==> L1Table(tables, root, v).None?
      modifies this`tables
      ensures Valid() && tables.Keys == old(tables.Keys) && ReflagsAt(old(tables), tables, home, root, v, flags, size)
    {
      var t: Option<nat> := TableFor(root, v, size);
      if t.None? {
        NothingReflagged(tables, home, root, v, flags, size);
        return;
      }
      ReflagEntry(root, v, t.value, flags, size);
    }

    /** The descent shared by unmapping and flag changes: the table that holds the entry of v, if it exists. */
    method TableFor(root: nat, v: Indexes, size: BlockSize) returns (t: Option<nat>)
      requires size == Normal ==> !Walk(tables, root, v).Region?
      ensures t == if size == Huge then L2Table(tables, root, v) else L1Table(tables, root, v)
      ensures t.None? <==> EntryOf(tables, root, v, size).None?
    {
      var l3 := Next(tables, root, v.l4);
      if l3.None? { return None; }
      var l2 := Next(tables, l3.value, v.l3);
      if l2.None? || size == Huge { return l2; }
      t := Next(tables, l2.value, v.l2);
    }

    /** The entry of v, found in table t, takes new flags if it is present. */
    method ReflagEntry(root: nat, v: Indexes, t: nat, flags: Flags, size: BlockSize)
      requires Valid() && IsRoot(home, root) && InRange(v)
      requires size == Normal ==> L1Table(tables, root, v) == Some(t)
      requires size == Huge ==> L2Table(tables, root, v) == Some(t) && L1Table(tables, root, v).None?
      modifies this`tables
      ensures Valid() && tables.Keys == old(tables.Keys) && ReflagsAt(old(tables), tables, home, root, v, flags, size)
    {
      var i := if size == Huge then v.l2 else v.l1;
      var e := At(tables, t, i);
      if !e.flags.present {
        NothingReflagged(tables, home, root, v, flags, size);
        return;
      }
      EntryReflagged(tables, home, root, v, t, flags, size);
      tables := SetEntry(tables, t, i, Entry(e.frame, if size == Huge then flags.(huge := true) else flags));
    }

    /** `init_process_pager`: a new root whose upper half is that of the active one. */
    method InitProcess(active: nat) returns (root: Option<nat>)
      requires Valid() && IsRoot(home, active)
      modifies this
      ensures Valid() && SameWalks(old(tables), tables, old(home))
      ensures root.None? ==> tables == old(tables) && home == old(home) && free == old(free) == {}
      ensures root.Some? ==> root.value in old(free) && free == old(free) - {root.value}
      ensures root.Some? ==> home == old(home)[root.value := Root(root.value)]
      ensures root.Some? ==> forall x {:trigger Walk(tables, root.value, x)} :: InRange(x) ==>
                Walk(tables, root.value, x) == if x.l4 < USER_ENTRIES then Miss else old(Walk(tables, active, x))
      ensures old(AllReached(tables, home)) ==> AllReached(tables, home)
    {
      root := Alloc();
      if root.None? { return; }
      var f := root.value;
      var table := Zeroed();
      for idx := 256 to 512
        invariant |table| == ENTRIES
        invariant forall j :: 0 <= j < ENTRIES ==> table[j] == if 256 <= j < idx then At(tables, active, j) else Unused
      {
        table := table[idx := At(tables, active, idx)];
      }
      NewRoot(tables, home, active, f, table);
      tables := tables[f := table];
      home := home[f := Root(f)];
    }
  }

  lemma NewRoot(T: Tables, home: map<nat, Place>, active: nat, f: nat, table: Table)
    requires Tree(T, home) && IsRoot(home, active) && f !in T && |table| == ENTRIES
    requires forall j :: 0 <= j < ENTRIES ==> table[j] == if USER_ENTRIES <= j then At(T, active, j) else Unused
    ensures Tree(T[f := table], home[f := Root(f)]) && SameWalks(T, T[f := table], home)
    ensures forall x {:trigger Walk(T[f := table], f, x)} :: InRange(x) ==>
              Walk(T[f := table], f, x) == if x.l4 < USER_ENTRIES then Miss else Walk(T, active, x)
    ensures AllReached(T, home) ==> AllReached(T[f := table], home[f := Root(f)])
  {
    var T', home' := T[f := table], home[f := Root(f)];
    NewRootTree(T, home, active, f, table);
    forall r, x | IsRoot(home, r) && InRange(x)
      ensures Walk(T', r, x) == Walk(T, r, x)
    {
      WalkPlaces(T, home, r, x);
    }
    forall x | InRange(x)
      ensures Walk(T', f, x) == if x.l4 < USER_ENTRIES then Miss else Walk(T, active, x)
    {
      WalkPlaces(T, home, active, x);
    }
    if AllReached(T, home) {
      forall u | u in home'
        ensures Reached(T', home', u)
      {
        if u != f { assert Reached(T, home, u); NewRootReached(T, home, f, table, u); }
      }
    }
  }

  lemma NewRootTree(T: Tables, home: map<nat, Place>, active: nat, f: nat, table: Table)
    requires Tree(T, home) && IsRoot(home, active) && f !in T && |table| == ENTRIES
    requires forall j :: 0 <= j < ENTRIES ==> table[j] == if USER_ENTRIES <= j then At(T, active, j) else Unused
    ensures Tree(T[f := table], home[f := Root(f)])
    ensures forall u, j: nat :: At(T[f := table], u, j) == if u == f && j < ENTRIES then table[j] else At(T, u, j)
  {
    var T', home' := T[f := table], home[f := Root(f)];
    assert forall u, j: nat :: At(T', u, j) == if u == f && j < ENTRIES then table[j] else At(T, u, j);
    forall u, j: nat | u in T' && j < ENTRIES && Links(home'[u], At(T', u, j))
      ensures At(T', u, j).frame in T' && home'[At(T', u, j).frame] == Child(home'[u], j)
    {
      if u == f { assert Links(home[active], At(T, active, j)); }
    }
  }

  lemma NewRootReached(T: Tables, home: map<nat, Place>, f: nat, table: Table, u: nat)
    requires Tree(T, home) && f !in T && u in home && Reached(T, home, u)
    ensures Reached(T[f := table], home[f := Root(f)], u)
  {
    var p := home[u];
    if !p.Root? && p.space.User? {
      var x := Indexes(p.l4, if p.L3? then 0 else p.l3, if p.L1? then p.l2 else 0, 0);
      WalkPlaces(T, home, p.space.root, x);
    }
  }

  /** An edit, said of addresses: the radix tree is a map from pages to frames, updated at one key. */
  lemma EditedAddresses(T: Tables, T': Tables, home: map<nat, Place>, root: nat, virt: nat, e: Entry, r: nat, addr: nat)
    requires Edited(T, T', home, root, IndexesOf(virt), Normal, e) && IsRoot(home, r) && IsRoot(home, root)
    requires Canonical(virt) && Canonical(addr)
    ensures addr / 0x1000 != virt / 0x1000 || (r != root && virt < 0x8000_0000_0000) ==>
              Translate(T', r, addr) == Translate(T, r, addr)
    ensures addr / 0x1000 == virt / 0x1000 ==>
              Translate(T', root, addr) == if e.flags.present then Some(e.frame * 0x1000 + addr % 0x1000) else None
  {
    SamePage(virt, addr);
    IndexBounds(addr);
    IndexBounds(virt);
    Levels(virt);
  }

  /** The same for a 2 MiB page. */
  lemma EditedRegionAddresses(T: Tables, T': Tables, home: map<nat, Place>, root: nat, virt: nat, e: Entry, r: nat,
                              addr: nat)
    requires Edited(T, T', home, root, IndexesOf(virt), Huge, e) && IsRoot(home, r) && IsRoot(home, root)
    requires Canonical(virt) && Canonical(addr)
    ensures addr / 0x20_0000 != virt / 0x20_0000 || (r != root && virt < 0x8000_0000_0000) ==>
              Translate(T', r, addr) == Translate(T, r, addr)
    ensures addr / 0x20_0000 == virt / 0x20_0000 ==>
              Translate(T', root, addr) == if e.flags.present then Some(e.frame * 0x1000 + addr % 0x20_0000) else None
  {
    SameRegion(virt, addr);
    IndexBounds(addr);
    IndexBounds(virt);
    Levels(virt);
  }

  // ---------------------------------------------------------------- the entry word

  /** One flag as the bit i. */
  function Bit(b: bool, i: bv64): bv64 { if b then i else 0 }

  /** The seven lowest bits of `get_flags`. */
  function LowBits(f: Flags): bv64 {
    Bit(f.present, 0x1) | Bit(f.writable, 0x2) | Bit(f.user, 0x4) | Bit(f.writeThrough, 0x8) | Bit(f.noCache, 0x10) |
    Bit(f.accessed, 0x20) | Bit(f.dirty, 0x40)
  }

  /** The entry a stored word stands for: what its accessors read, the address counted in frames. */
  function WordEntry(w: bv64): Entry {
    Entry(Value(w & ADDR_MASK) / 0x1000, FlagsOf(w))
  }

  function FlagsOf(w: bv64): Flags {
    Flags(w & 0x1 != 0, w & 0x2 != 0, w & 0x4 != 0, w & 0x8 != 0, w & 0x10 != 0, w & 0x20 != 0, w & 0x40 != 0,
          w & 0x80 != 0,
          w & 0x100 != 0, w & 0x8000_0000_0000_0000 != 0)
  }

  lemma LowBitsShape(p: bv64, w: bv64, u: bv64, t: bv64, c: bv64, a: bv64, d: bv64)
    requires p & 0x1 == p && w & 0x2 == w && u & 0x4 == u && t & 0x8 == t && c & 0x10 == c && a & 0x20 == a
    requires d & 0x40 == d
    ensures var l := p | w | u | t | c | a | d;
            && l & 0x7f == l && l & 0x1 == p && l & 0x2 == w && l & 0x4 == u && l & 0x8 == t && l & 0x10 == c &&
                 l & 0x20 == a
            && l & 0x40 == d
  {
  }

  lemma BitsShape(l: bv64, h: bv64, g: bv64, n: bv64, phys: bv64)
    requires l & 0x7f == l && h & 0x80 == h && g & 0x100 == g && n & 0x8000_0000_0000_0000 == n
    ensures var w := (phys & ADDR_MASK) | (l | h | g | n);
            && w & ADDR_MASK == phys & ADDR_MASK && w & 0x7f == l && w & 0x80 == h && w & 0x100 == g
            && w & 0x8000_0000_0000_0000 == n
  {
  }

  lemma LowBitOf(w: bv64, l: bv64)
    requires w & 0x7f == l
    ensures w & 0x1 == l & 0x1 && w & 0x2 == l & 0x2 && w & 0x4 == l & 0x4 && w & 0x8 == l & 0x8
    ensures w & 0x10 == l & 0x10 && w & 0x20 == l & 0x20 && w & 0x40 == l & 0x40
  {
  }

  lemma LowBitsOf(f: Flags, l: bv64)
    requires l == LowBits(f)
    ensures l & 0x7f == l && (l & 0x1 != 0 <==> f.present) && (l & 0x2 != 0 <==> f.writable)
    ensures (l & 0x4 != 0 <==> f.user)
    ensures (l & 0x8 != 0 <==> f.writeThrough) && (l & 0x10 != 0 <==> f.noCache) && (l & 0x20 != 0 <==> f.accessed)
    ensures l & 0x40 != 0 <==> f.dirty
  {
    LowBitsShape(Bit(f.present, 0x1), Bit(f.writable, 0x2), Bit(f.user, 0x4), Bit(f.writeThrough, 0x8),
                 Bit(f.noCache, 0x10), Bit(f.accessed, 0x20), Bit(f.dirty, 0x40));
  }

  lemma WordFlags(f: Flags, l: bv64, h: bv64, g: bv64, n: bv64, w: bv64)
    requires l == LowBits(f) && h == Bit(f.huge, 0x80) && g == Bit(f.global, 0x100)
    requires n == Bit(f.noExecute, 0x8000_0000_0000_0000)
    requires w & 0x7f == l && w & 0x80 == h && w & 0x100 == g && w & 0x8000_0000_0000_0000 == n
    ensures FlagsOf(w) == f
  {
    LowBitsOf(f, l);
    LowBitOf(w, l);
  }

  lemma SameFrame(w: bv64, phys: bv64)
    requires w & ADDR_MASK == phys & ADDR_MASK
    ensures WordEntry(w) == Entry(FrameOf(Value(phys)), FlagsOf(w))
  {
    FrameValue(phys);
  }

  /** The flags of `get_flags` occupy their own bits, */
  predicate FlagBits(f: Flags, l: bv64, h: bv64, g: bv64, n: bv64) {
    && l == LowBits(f) && h == Bit(f.huge, 0x80) && g == Bit(f.global, 0x100)
    && n == Bit(f.noExecute, 0x8000_0000_0000_0000)
  }

  lemma FlagShape(f: Flags, l: bv64, h: bv64, g: bv64, n: bv64)
    requires FlagBits(f, l, h, g, n)
    ensures l & 0x7f == l && h & 0x80 == h && g & 0x100 == g && n & 0x8000_0000_0000_0000 == n
  {
    LowBitsOf(f, l);
  }

  lemma WordParts(phys: bv64, l: bv64, h: bv64, g: bv64, n: bv64, w: bv64)
    requires l & 0x7f == l && h & 0x80 == h && g & 0x100 == g && n & 0x8000_0000_0000_0000 == n
    requires w == (phys & ADDR_MASK) | (l | h | g | n)
    ensures WordEntry(w) == Entry(FrameOf(Value(phys)), FlagsOf(w))
    ensures w & 0x7f == l && w & 0x80 == h && w & 0x100 == g && w & 0x8000_0000_0000_0000 == n
  {
    BitsShape(l, h, g, n, phys);
    SameFrame(w, phys);
  }

  /** and so the word that `PageTableEntry::new` makes stands for the entry with that frame and those flags. */
  lemma EntryWord(phys: bv64, f: Flags, l: bv64, h: bv64, g: bv64, n: bv64, w: bv64)
    requires FlagBits(f, l, h, g, n) && w == (phys & ADDR_MASK) | (l | h | g | n)
    ensures WordEntry(w) == Entry(FrameOf(Value(phys)), f)
  {
    FlagShape(f, l, h, g, n);
    WordParts(phys, l, h, g, n, w);
    WordFlags(f, l, h, g, n, w);
  }
}
