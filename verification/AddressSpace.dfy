/**
 A process's address space: its areas joined with its page tables and with the frames it holds.
 Areas use 4 KiB pages here; those without a backing object take their frames from the allocator.
 */
module AddressSpace {
  import opened Wrappers
  import opened PageTable
  import opened VmaSpec
  import opened VmaList
  import opened Teardown

  const USER_PAGES: nat := 0x8_0000_0000

  function PageHit(T: Tables, root: nat, p: nat): Hit { Walk(T, root, IndexesOf(p * 0x1000)) }

  predicate InArea(v: Vma, p: nat) { v.start <= p * 0x1000 < End(v) }

  predicate Covered(vs: seq<Vma>, p: nat) { exists i :: 0 <= i < |vs| && InArea(vs[i], p) }

  /** The page lies in an area whose frames the process owns. */
  predicate Anonymous(vs: seq<Vma>, p: nat) { exists i :: 0 <= i < |vs| && InArea(vs[i], p) && !vs[i].backed }

  predicate AreaOk(v: Vma) {
    !v.flags.huge && v.start % 0x1000 == 0 && v.size % 0x1000 == 0
  }

  predicate AreasOk(vs: seq<Vma>) {
    Sorted(vs) && Bounded(vs) && forall i :: 0 <= i < |vs| ==> AreaOk(vs[i])
  }

  // ---------------------------------------------------------------- residence

  /** Page p is mapped only inside an area, and data records its frame if that area is anonymous. */
  ghost predicate PageOk(T: Tables, root: nat, vs: seq<Vma>, data: map<nat, nat>, p: nat) {
    var h := PageHit(T, root, p);
    && !h.Region?
    && (h.Page? ==> Covered(vs, p))
    && (p in data <==> h.Page? && Anonymous(vs, p))
    && (p in data ==> data[p] == h.frame)
  }

  ghost predicate Injective(data: map<nat, nat>) {
    forall p, q :: p in data && q in data && p != q ==> data[p] != data[q]
  }

  ghost predicate Resident(T: Tables, root: nat, vs: seq<Vma>, data: map<nat, nat>) {
    && (forall p: nat {:trigger PageOk(T, root, vs, data, p)} :: p < USER_PAGES ==> PageOk(T, root, vs, data, p))
    && (forall p :: p in data ==> p < USER_PAGES)
    && Injective(data)
  }

  ghost predicate SpaceOk(T: Tables, home: map<nat, Place>, free: set<nat>, root: nat, vs: seq<Vma>, data: map<nat,
                          nat>) {
    && IsRoot(home, root) && AreasOk(vs) && Resident(T, root, vs, data)
    && data.Values !! free && data.Values !! T.Keys && Physical(data.Values)
  }

  /** Every frame the process has to give back. */
  ghost function Footprint(home: map<nat, Place>, root: nat, data: map<nat, nat>): set<nat> {
    OwnTables(home, root) + data.Values
  }

  // ---------------------------------------------------------------- pages and areas

  lemma UserPage(p: nat)
    requires p < USER_PAGES
    ensures Canonical(p * 0x1000) && InRange(IndexesOf(p * 0x1000)) && IndexesOf(p * 0x1000).l4 < USER_ENTRIES
    ensures p * 0x1000 / 0x1000 == p
  {
    IndexBounds(p * 0x1000);
  }

  lemma UserPagesApart(p: nat, q: nat)
    requires p < USER_PAGES && q < USER_PAGES && p != q
    ensures IndexesOf(p * 0x1000) != IndexesOf(q * 0x1000)
  {
    UserPage(p);
    UserPage(q);
    SamePage(p * 0x1000, q * 0x1000);
  }

  lemma CoveredInsert(vs: seq<Vma>, k: nat, v: Vma, p: nat)
    requires k <= |vs|
    ensures Covered(Insert(vs, k, v), p) <==> Covered(vs, p) || InArea(v, p)
    ensures Anonymous(Insert(vs, k, v), p) <==> Anonymous(vs, p) || (InArea(v, p) && !v.backed)
  {
    var ws := Insert(vs, k, v);
    assert ws[k] == v;
    assert forall i :: 0 <= i < k ==> ws[i] == vs[i];
    assert forall i :: k <= i < |vs| ==> ws[i + 1] == vs[i];
  }

  lemma InsertApart(vs: seq<Vma>, k: nat, v: Vma, p: nat)
    requires k <= |vs| && Sorted(Insert(vs, k, v)) && InArea(v, p)
    ensures !Covered(vs, p)
  {
    var ws := Insert(vs, k, v);
    forall i | 0 <= i < |vs|
      ensures !InArea(vs[i], p)
    {
      assert ws[k] == v && ws[if i < k then i else i + 1] == vs[i];
    }
  }

  lemma CoveredRemove(vs: seq<Vma>, k: nat, p: nat)
    requires k < |vs| && Sorted(vs)
    ensures var ws := vs[..k] + vs[k + 1..];
            && (Covered(vs, p) <==> Covered(ws, p) || InArea(vs[k], p))
            && (Anonymous(vs, p) <==> Anonymous(ws, p) || (InArea(vs[k], p) && !vs[k].backed))
            && (InArea(vs[k], p) ==> !Covered(ws, p) && !Anonymous(ws, p))
  {
    var ws := vs[..k] + vs[k + 1..];
    assert forall i :: 0 <= i < k ==> ws[i] == vs[i];
    assert forall i :: k < i < |vs| ==> ws[i - 1] == vs[i];
    assert forall i :: 0 <= i < |ws| ==> ws[i] == vs[if i < k then i else i + 1];
  }

  lemma CoveredIsUser(vs: seq<Vma>, i: nat, p: nat)
    requires Bounded(vs) && i < |vs| && InArea(vs[i], p)
    ensures p < USER_PAGES
  {
  }

  /** One area holds a page. */
  lemma AnonymousAt(vs: seq<Vma>, i: nat, p: nat)
    requires Sorted(vs) && i < |vs| && InArea(vs[i], p)
    ensures Covered(vs, p) && (Anonymous(vs, p) <==> !vs[i].backed)
  {
    if Anonymous(vs, p) {
      var j :| 0 <= j < |vs| && InArea(vs[j], p) && !vs[j].backed;
      assert j == i;
    }
  }

  // ---------------------------------------------------------------- what each step keeps

  /** New areas cover no page that was mapped, and an unmapped page is in no area's data. */
  lemma MapKeeps(T: Tables, root: nat, vs: seq<Vma>, data: map<nat, nat>, k: nat, v: Vma)
    requires Resident(T, root, vs, data) && k <= |vs| && Sorted(Insert(vs, k, v))
    ensures Resident(T, root, Insert(vs, k, v), data)
  {
    var ws := Insert(vs, k, v);
    forall p: nat | p < USER_PAGES
      ensures PageOk(T, root, ws, data, p)
    {
      assert PageOk(T, root, vs, data, p);
      CoveredInsert(vs, k, v, p);
      if InArea(v, p) { InsertApart(vs, k, v, p); }
    }
  }

  lemma FaultKeeps(T: Tables, T': Tables, home: map<nat, Place>, root: nat, vs: seq<Vma>, data: map<nat, nat>, i: nat,
                   p: nat, e: Entry)
    requires Resident(T, root, vs, data) && IsRoot(home, root) && Sorted(vs) && Bounded(vs) && i < |vs|
    requires InArea(vs[i], p)
    requires Edited(T, T', home, root, IndexesOf(p * 0x1000), Normal, e) && e.flags.present
    requires !vs[i].backed ==> e.frame !in data.Values
    ensures Resident(T', root, vs, if vs[i].backed then data else data[p := e.frame])
  {
    var data' := if vs[i].backed then data else data[p := e.frame];
    CoveredIsUser(vs, i, p);
    AnonymousAt(vs, i, p);
    assert PageOk(T, root, vs, data, p);
    forall q: nat | q < USER_PAGES
      ensures PageOk(T', root, vs, data', q)
    {
      assert PageOk(T, root, vs, data, q);
      UserPage(q);
      UserPage(p);
      if q != p { UserPagesApart(p, q); }
    }
  }

  /** Unmapping a page takes it out of the data. */
  lemma UnmapKeeps(T: Tables, T': Tables, home: map<nat, Place>, root: nat, vs: seq<Vma>, data: map<nat, nat>, p: nat)
    requires Resident(T, root, vs, data) && IsRoot(home, root) && p < USER_PAGES
    requires Edited(T, T', home, root, IndexesOf(p * 0x1000), Normal, Unused)
    ensures Resident(T', root, vs, data - {p}) && PageHit(T', root, p).Miss?
  {
    forall q: nat | q < USER_PAGES
      ensures PageOk(T', root, vs, data - {p}, q)
    {
      assert PageOk(T, root, vs, data, q);
      UserPage(q);
      UserPage(p);
      if q != p { UserPagesApart(p, q); }
    }
    UserPage(p);
  }

  /** An area none of whose pages is mapped can go. */
  lemma RemoveKeeps(T: Tables, root: nat, vs: seq<Vma>, data: map<nat, nat>, k: nat)
    requires Resident(T, root, vs, data) && k < |vs| && Sorted(vs)
    requires forall p: nat {:trigger PageHit(T, root, p)} :: p < USER_PAGES && InArea(vs[k], p) ==>
               PageHit(T, root, p).Miss?
    ensures Resident(T, root, vs[..k] + vs[k + 1..], data)
  {
    var ws := vs[..k] + vs[k + 1..];
    forall p: nat | p < USER_PAGES
      ensures PageOk(T, root, ws, data, p)
    {
      assert PageOk(T, root, vs, data, p);
      CoveredRemove(vs, k, p);
    }
  }

  // ---------------------------------------------------------------- the address space

  /** What every operation of one process leaves alone: the walks and tables of the others, and their frames. */
  ghost predicate OthersKept(T: Tables, home: map<nat, Place>, T': Tables, home': map<nat, Place>, root: nat) {
    && (forall r, x {:trigger Walk(T', r, x)} :: IsRoot(home, r) && r != root && InRange(x) ==>
          Walk(T', r, x) == Walk(T, r, x))
    && (forall t :: t in home && !Mine(home[t], root) ==> t in home' && home'[t] == home[t])
    && (forall t :: t in home' && (t !in home || Mine(home[t], root)) ==> Mine(home'[t], root))
  }

  /** The frames stay where they are but for moves between the allocator and this process. */
  ghost predicate Conserved(free: set<nat>, own: set<nat>, free': set<nat>, own': set<nat>) {
    free + own == free' + own' && free' !! own'
  }

  /** The same, but for frames that from now on nobody has. */
  ghost predicate Moved(free: set<nat>, own: set<nat>, free': set<nat>, own': set<nat>, lost: set<nat>) {
    free + own == free' + own' + lost && free' !! own' && lost !! free' && lost !! own'
  }

  /** The offset of page p into an area that contains it. */
  function OffsetIn(v: Vma, p: nat): nat { if v.start <= p * 0x1000 then p * 0x1000 - v.start else 0 }

  /** The first area that contains page p, or the length. */
  function AreaOf(vs: seq<Vma>, p: nat): (k: nat)
    ensures k <= |vs| && (forall i :: 0 <= i < k ==> !InArea(vs[i], p)) && (k < |vs| ==> InArea(vs[k], p))
  {
    if vs == [] || InArea(vs[0], p) then 0 else 1 + AreaOf(vs[1..], p)
  }

  /** What a fault deserves: an area, the right to write if it writes, and a page if its area is backed. */
  function Verdict(vs: seq<Vma>, p: nat, isWrite: bool, request: nat -> Option<nat>): FaultResult {
    var k := AreaOf(vs, p);
    if k == |vs| then InvalidAddress
    else if isWrite && !vs[k].flags.write then AccessDenied
    else if vs[k].backed && request(OffsetIn(vs[k], p)).None? then MappingFailed
    else Mapped
  }

  /** A fault on an area, by its rights, and by what its object, if it has one, gave for the page's offset in it. */
  predicate Judged(v: Vma, isWrite: bool, given: Option<nat>, r: FaultResult) {
    && (r == AccessDenied <==> isWrite && !v.flags.write)
    && (r == MappingFailed <==> !(isWrite && !v.flags.write) && v.backed && given.None?)
    && r != InvalidAddress
  }

  /**
   What an access to page p deserves, in terms of the area that holds it: it is refused for just the reason there is, or
   the page is mapped with that area's rights and, if the area is backed, to what its object gave for the page's offset
   in the area.
   */
  ghost predicate Deserved(vs: seq<Vma>, T: Tables, root: nat, p: nat, isWrite: bool, request: nat -> Option<nat>,
                           r: FaultResult) {
    && (r == InvalidAddress <==> !Covered(vs, p))
    && forall i :: 0 <= i < |vs| && InArea(vs[i], p) && r != Panic ==>
         var given := request(p * 0x1000 - vs[i].start);
         && Judged(vs[i], isWrite, given, r)
         && (r == Mapped ==> Grants(PageHit(T, root, p), Grant(vs[i].flags, if vs[i].backed then given else None)))
  }

  lemma IsDeserved(vs: seq<Vma>, T: Tables, root: nat, p: nat, isWrite: bool, request: nat -> Option<nat>,
                   r: FaultResult)
    requires Sorted(vs) && (r == Verdict(vs, p, isWrite, request) || r == Panic)
    requires r == Panic ==> Verdict(vs, p, isWrite, request) == Mapped
    requires r == Mapped ==> Grants(PageHit(T, root, p), GrantFor(vs[AreaOf(vs, p)], p, request))
    ensures Deserved(vs, T, root, p, isWrite, request, r)
  {
    VerdictMeans(vs, p, isWrite, request);
  }

  lemma VerdictMeans(vs: seq<Vma>, p: nat, isWrite: bool, request: nat -> Option<nat>)
    requires Sorted(vs)
    ensures Verdict(vs, p, isWrite, request) == InvalidAddress <==> !Covered(vs, p)
    ensures Verdict(vs, p, isWrite, request) != Panic
    ensures forall i :: 0 <= i < |vs| && InArea(vs[i], p) ==>
              && AreaOf(vs, p) == i
              && Judged(vs[i], isWrite, request(p * 0x1000 - vs[i].start), Verdict(vs, p, isWrite, request))
              && GrantFor(vs[i], p, request).backing == if vs[i].backed then request(p * 0x1000 - vs[i].start) else None
  {
    var k := AreaOf(vs, p);
    if k < |vs| { OneArea(vs, k, p); }
  }

  /** The rights on a mapped page, and the address its backing object gave for it, if it has one. */
  datatype Grant = Grant(flags: VmFlags, backing: Option<nat>)

  function GrantFor(v: Vma, p: nat, request: nat -> Option<nat>): Grant {
    Grant(v.flags, if v.backed then request(OffsetIn(v, p)) else None)
  }

  /** The page is mapped with just those rights, to that address. */
  predicate Grants(h: Hit, g: Grant) {
    && h.Page? && h.flags.present
    && (h.flags.writable <==> g.flags.write) && (h.flags.user <==> g.flags.user)
    && (h.flags.noExecute <==> !g.flags.exec) && (h.flags.global <==> g.flags.global)
    && (h.flags.noCache <==> g.flags.cacheDisable) && (h.flags.writeThrough <==> g.flags.writeThrough)
    && (g.backing.Some? ==> h.frame == FrameOf(g.backing.value))
  }

  /** A fault on a page that is there already loses its frame if that was the process's own. */
  ghost function LostBy(data: map<nat, nat>, p: nat, mapped: bool): set<nat> {
    if mapped && p in data then {data[p]} else {}
  }

  datatype FaultResult = Mapped | InvalidAddress | AccessDenied | MappingFailed | Panic

  /** `VirtMemManager::new`; null is the panic of `init_process_pager`. */
  method NewSpace(mem: Memory, active: nat) returns (space: VirtMemManager?)
    requires mem.Valid() && AllReached(mem.tables, mem.home) && IsRoot(mem.home, active)
    modifies mem
    ensures space == null ==> mem.free == old(mem.free) == {}
    ensures space != null ==>
              fresh(space) && fresh(space.areas) && space.mem == mem && space.Valid() && space.areas.vmas == [] &&
                space.areas.repr == {}
    ensures space != null ==> Conserved(old(mem.free), {}, mem.free, space.Own()) && space.root in old(mem.free)
    ensures space != null ==> OthersKept(old(mem.tables), old(mem.home), mem.tables, mem.home, space.root)
    ensures space != null ==>
              forall x {:trigger Walk(mem.tables, space.root, x)} :: InRange(x) && x.l4 >= USER_ENTRIES ==>
              Walk(mem.tables, space.root, x) == old(Walk(mem.tables, active, x))
  {
    ghost var home := mem.home;
    ghost var reached := AllReached(mem.tables, mem.home);
    var root := mem.InitProcess(active);
    if root.None? { return null; }
    assert OwnTables(mem.home, root.value) == {root.value} by { NewRootOwnsItself(old(mem.tables), home, root.value); }
    space := new VirtMemManager(mem, root.value);
    assert space.Own() == {root.value};
  }

  lemma NewRootOwnsItself(T: Tables, home: map<nat, Place>, f: nat)
    requires Tree(T, home) && AllReached(T, home) && f !in home
    ensures OwnTables(home[f := Root(f)], f) == {f}
  {
    forall t | t in home
      ensures !Mine(home[t], f)
    {
      assert Reached(T, home, t);
    }
  }

  class VirtMemManager {
    const mem: Memory
    const areas: Areas
    const root: nat
    ghost var data: map<nat, nat>

    ghost predicate Valid()
      reads this, mem, areas, areas.repr
    {
      areas.Valid() && PagesOk(areas.vmas)
    }

    /** The tables and frames agree with the areas vs. */
    ghost predicate PagesOk(vs: seq<Vma>)
      reads this, mem
    {
      mem.Valid() && AllReached(mem.tables, mem.home) && SpaceOk(mem.tables, mem.home, mem.free, root, vs, data)
    }

    ghost function Own(): set<nat>
      reads this, mem
    {
      Footprint(mem.home, root, data)
    }

    constructor (mem: Memory, root: nat)
      requires mem.Valid() && AllReached(mem.tables, mem.home) && IsRoot(mem.home, root)
      requires forall x {:trigger Walk(mem.tables, root, x)} :: InRange(x) && x.l4 < USER_ENTRIES ==>
                 Walk(mem.tables, root, x) == Miss
      ensures Valid() && fresh(areas) && areas.vmas == [] && areas.repr == {} && data == map[]
      ensures this.mem == mem && this.root == root
    {
      this.mem, this.root, data := mem, root, map[];
      areas := new Areas();
      new;
      forall p: nat | p < USER_PAGES
        ensures PageOk(mem.tables, root, [], map[], p)
      {
        UserPage(p);
      }
    }

    /** `mmap` for 4 KiB pages. */
    method Mmap(size: nat, flags: VmFlags, backed: bool) returns (r: Option<nat>)
      requires Valid() && !flags.huge && (areas.head == null ==> VM_BASE_ADDR + RoundUp(size, false) <= VM_MAX_ALLOWED)
      modifies areas, areas.repr
      ensures Valid() && fresh(areas.repr - old(areas.repr))
      ensures areas.vmas == Apply(old(areas.vmas), Map(size, flags, backed))
      ensures r.Some? ==> r.value + RoundUp(size, false) <= VM_MAX_ALLOWED
      ensures var gap := FindGap(old(areas.vmas), RoundUp(size, false), false);
              r == if gap.None? then None else Some(gap.value.0)
    {
      MapSpace(mem.tables, root, areas.vmas, data, size, flags, backed);
      r := areas.Mmap(size, flags, backed);
    }

    /** `mmap_vmo_at`, at a page boundary and below the end of the arena. */
    method MmapAt(start: nat, size: nat, flags: VmFlags) returns (r: Option<nat>)
      requires Valid() && !flags.huge && start % 0x1000 == 0 && start + RoundUp(size, false) <= VM_MAX_ALLOWED
      modifies areas, areas.repr
      ensures Valid() && fresh(areas.repr - old(areas.repr))
      ensures areas.vmas == Apply(old(areas.vmas), MapAt(start, size, flags))
      ensures r == if PlaceAt(old(areas.vmas), start, RoundUp(size, false)).Some? then Some(start) else None
    {
      MapAtSpace(mem.tables, root, areas.vmas, data, start, size, flags);
      r := areas.MmapAt(start, size, flags);
    }

    /** `handle_page_fault`; request is how the backing object, if the area has one, answers for an offset. */
    method Fault(addr: nat, isWrite: bool, request: nat -> Option<nat>) returns (r: FaultResult)
      requires Valid()
      modifies this`data, mem
      ensures Deserved(areas.vmas, mem.tables, root, addr / 0x1000, isWrite, request, r)
      ensures r == Verdict(areas.vmas, addr / 0x1000, isWrite, request) || r == Panic
      ensures r == Panic ==> Verdict(areas.vmas, addr / 0x1000, isWrite, request) == Mapped && mem.free == {}
      ensures r != Panic ==> Valid()
      ensures r != Panic ==> Moved(old(mem.free), old(Own()), mem.free, Own(),
                                   LostBy(old(data), addr / 0x1000, r == Mapped))
      ensures r != Panic ==> OthersKept(old(mem.tables), old(mem.home), mem.tables, mem.home, root)
      ensures r !in {Mapped, Panic} ==> unchanged(mem) && data == old(data)
      ensures r == Mapped ==>
                var k := AreaOf(areas.vmas, addr / 0x1000);
                k < |areas.vmas| && Grants(PageHit(mem.tables, root, addr / 0x1000),
                                           GrantFor(areas.vmas[k], addr / 0x1000, request))
      ensures r == Mapped ==>
                forall q: nat {:trigger PageHit(mem.tables, root, q)} :: q < USER_PAGES && q != addr / 0x1000 ==>
                PageHit(mem.tables, root, q) == old(PageHit(mem.tables, root, q))
    {
      var node, page;
      ghost var vs := areas.vmas;
      StillConserved(mem.tables, mem.home, mem.free, root, vs, data);
      r, node, page := Admit(addr, isWrite, request);
      if r == Mapped {
        r := MapFault(addr, node.flags, node.backed, page, vs, request);
        assert areas.vmas == vs && areas.Valid();
      }
      IsDeserved(vs, mem.tables, root, addr / 0x1000, isWrite, request, r);
    }

    /** The checks before anything is mapped; Mapped means that they pass. */
    method Admit(addr: nat, isWrite: bool, request: nat -> Option<nat>)
      returns (r: FaultResult, node: VmaNode?, page: Option<nat>)
      requires areas.Valid() && AreasOk(areas.vmas)
      ensures r == Verdict(areas.vmas, addr / 0x1000, isWrite, request)
      ensures r == Mapped ==>
                var k := AreaOf(areas.vmas, addr / 0x1000);
                && node != null && k < |areas.vmas| && node.Value() == areas.vmas[k]
                && (node.backed ==> page.Some? && page == request(OffsetIn(areas.vmas[k], addr / 0x1000)))
    {
      page := None;
      ghost var k;
      node, k := areas.Find(addr);
      AddrInAreas(areas.vmas, addr);
      if node == null { return InvalidAddress, node, page; }
      OneArea(areas.vmas, k, addr / 0x1000);
      r := AccessDenied;
      if !(isWrite && !node.flags.write) {
        r := Mapped;
        if node.backed {
          page := request(addr / 0x1000 * 0x1000 - node.start);
          if page.None? { r := MappingFailed; }
        }
      }
    }

    /** The address to map: the backing object's page, or a frame from the allocator. */
    method PhysFor(backed: bool, page: Option<nat>) returns (phys: Option<nat>)
      requires mem.Valid() && (backed ==> page.Some?)
      modifies mem`free
      ensures mem.Valid() && (phys.None? ==> mem.free == {})
      ensures backed ==> phys == page && mem.free == old(mem.free)
      ensures !backed && phys.Some? ==>
                FrameOf(phys.value) in old(mem.free) && mem.free == old(mem.free) - {FrameOf(phys.value)}
    {
      if backed { return page; }
      var f := mem.Alloc();
      if f.None? { return None; }
      FrameOfExact(f.value);
      phys := Some(f.value * 0x1000);
    }

    method MapFault(addr: nat, flags: VmFlags, backed: bool, page: Option<nat>, ghost vs: seq<Vma>,
                    ghost request: nat -> Option<nat>)
      returns (r: FaultResult)
      requires PagesOk(vs)
      requires var k := AreaOf(vs, addr / 0x1000);
               && k < |vs| && vs[k].backed == backed && vs[k].flags == flags
               && (backed ==> page.Some? && page == request(OffsetIn(vs[k], addr / 0x1000)))
      modifies this`data, mem
      ensures r == Mapped || (r == Panic && mem.free == {})
      ensures r == Mapped ==> PagesOk(vs)
      ensures r == Mapped ==>
                Moved(old(mem.free), old(Own()), mem.free, Own(), LostBy(old(data), addr / 0x1000, true))
      ensures r == Mapped ==> OthersKept(old(mem.tables), old(mem.home), mem.tables, mem.home, root)
      ensures r == Mapped ==> Grants(PageHit(mem.tables, root, addr / 0x1000),
                                     GrantFor(vs[AreaOf(vs, addr / 0x1000)], addr / 0x1000, request))
      ensures r == Mapped ==>
                forall q: nat {:trigger PageHit(mem.tables, root, q)} :: q < USER_PAGES && q != addr / 0x1000 ==>
                PageHit(mem.tables, root, q) == old(PageHit(mem.tables, root, q))
    {
      ghost var p, k := addr / 0x1000, AreaOf(vs, addr / 0x1000);
      ghost var T, home, free := mem.tables, mem.home, mem.free;
      CoveredIsUser(vs, k, p);
      UserPage(p);
      assert PageOk(T, root, vs, data, p);
      var phys := PhysFor(backed, page);
      if phys.None? { return Panic; }
      var e := NewEntry(phys.value, HwFlags(flags), Normal);
      var ok := mem.MapPage(root, addr / 0x1000 * 0x1000, phys.value, HwFlags(flags), Normal);
      if !ok { return Panic; }
      FaultSpace(T, home, free, mem.tables, mem.home, mem.free, root, vs, data, k, p, e);
      FaultPages(T, mem.tables, home, root, p, e);
      if !backed { data := data[p := e.frame]; }
      r := Mapped;
    }

    /**
     Pages lo up to hi have been unmapped since T0, the frames of the process among them being held back in frames.
     */
    ghost predicate Unmapping(T0: Tables, vs: seq<Vma>, lo: nat, hi: nat, frames: seq<nat>)
      reads this, mem
    {
      && mem.Valid() && AllReached(mem.tables, mem.home) && mem.tables.Keys == T0.Keys
      && Pending(mem.tables, mem.home, mem.free, root, vs, data, frames)
      && PagesGone(T0, mem.tables, root, lo, hi)
      && OthersKept(T0, mem.home, mem.tables, mem.home, root)
    }

    /** Translate and unmap the page p of area k, if it is mapped. */
    method TakePage(p: nat, ghost T0: Tables, ghost vs: seq<Vma>, ghost k: nat, ghost lo: nat, ghost frames: seq<nat>)
      returns (phys: Option<nat>, ghost now: seq<nat>)
      requires Unmapping(T0, vs, lo, p, frames) && lo <= p && k < |vs| && InArea(vs[k], p)
      modifies this`data, mem`tables
      ensures Unmapping(T0, vs, lo, p + 1, now)
      ensures phys.Some? && !vs[k].backed ==> now == frames + [phys.value / 0x1000]
      ensures phys.None? || vs[k].backed ==> now == frames
      ensures old(data.Values) + Frames(frames) == data.Values + Frames(now)
    {
      ghost var T := mem.tables;
      TranslatePage(T, root, vs, data, k, p);
      phys, now := Translate(mem.tables, root, p * 0x1000), frames;
      if phys.None? {
        GoneNone(T0, T, root, lo, p);
        return;
      }
      mem.UnmapPage(root, p * 0x1000, Normal);
      UnmapSpace(T, mem.tables, mem.home, mem.free, root, vs, data, frames, k, p);
      GoneOne(T0, T, mem.tables, mem.home, root, lo, p);
      OthersStep(T0, T, mem.tables, mem.home, root, p);
      if !vs[k].backed { now := frames + [data[p]]; }
      data := data - {p};
    }

    /**
     One batch of `munmap`: pages from cur on are unmapped until 64 frames are collected or the area
     ends. The frames, by number, are out of the tables and not yet given back.
     */
    method Batch(cur: nat, end: nat, ghost vs: seq<Vma>, ghost k: nat, ghost lo: nat, ghost last: nat)
      returns (next: nat, batch: seq<nat>, ghost hi: nat, ghost frames: seq<nat>)
      requires PagesOk(vs) && k < |vs| && AreaOk(vs[k])
      requires vs[k].start <= cur < end == End(vs[k]) && cur == lo * 0x1000 && end == last * 0x1000
      modifies this`data, mem`tables
      ensures cur < next <= end && next == hi * 0x1000 && |batch| <= BATCH_SIZE
      ensures Unmapping(old(mem.tables), vs, lo, hi, frames)
      ensures old(data.Values) == data.Values + Frames(frames)
      ensures frames == if vs[k].backed then [] else batch
    {
      next, batch, hi, frames := cur, [], lo, [];
      while next < end && |batch| < BATCH_SIZE
        invariant lo <= hi <= last && next == hi * 0x1000 && |batch| <= BATCH_SIZE && (hi == lo ==> batch == [])
        invariant Unmapping(old(mem.tables), vs, lo, hi, frames)
        invariant old(data.Values) == data.Values + Frames(frames)
        invariant frames == if vs[k].backed then [] else batch
        decreases last - hi
      {
        assert hi < last;
        PageOf(hi, 0);
        var phys, now := TakePage(next / 0x1000, old(mem.tables), vs, k, lo, frames);
        if phys.Some? { batch := batch + [phys.value / 0x1000]; }
        frames, hi := now, hi + 1;
        next := next + 0x1000;
      }
    }

    /** Every frame of the batch goes back to the allocator, none of them being free already. */
    method FreeBatch(frames: seq<nat>, ghost vs: seq<Vma>)
      requires mem.Valid() && AllReached(mem.tables, mem.home)
      requires Pending(mem.tables, mem.home, mem.free, root, vs, data, frames)
      modifies mem
      ensures PagesOk(vs) && mem.tables == old(mem.tables) && mem.home == old(mem.home)
      ensures mem.free == old(mem.free) + Frames(frames)
    {
      ghost var T, home := mem.tables, mem.home;
      for i := 0 to |frames|
        invariant mem.tables == T && mem.home == home && mem.free == old(mem.free) + Frames(frames[..i])
      {
        assert frames[i] in Frames(frames);
        assert frames[i] !in Frames(frames[..i]);
        mem.Free(frames[i]);
        assert mem.tables == T && mem.home == home;
        assert frames[..i + 1] == frames[..i] + [frames[i]];
      }
      assert frames[..|frames|] == frames;
    }

    /** The unmapping loop of `munmap` over the whole of area k: no page skipped, no frame given back twice. */
    method UnmapRange(start: nat, end: nat, backed: bool, ghost vs: seq<Vma>, ghost k: nat, ghost lo: nat,
                      ghost last: nat)
      requires PagesOk(vs) && k < |vs| && vs[k].start == start && End(vs[k]) == end && vs[k].backed == backed
      requires start == lo * 0x1000 && end == last * 0x1000
      modifies this`data, mem
      ensures PagesOk(vs) && mem.home == old(mem.home) && mem.tables.Keys == old(mem.tables.Keys)
      ensures PagesGone(old(mem.tables), mem.tables, root, lo, last)
      ensures OthersKept(old(mem.tables), mem.home, mem.tables, mem.home, root)
      ensures mem.free + data.Values == old(mem.free + data.Values)
    {
      var cur := start;
      ghost var hi := lo;
      ghost var T0 := mem.tables;
      while cur < end
        invariant lo <= hi <= last && cur == hi * 0x1000
        invariant PagesOk(vs) && mem.home == old(mem.home) && mem.tables.Keys == T0.Keys
        invariant PagesGone(T0, mem.tables, root, lo, hi) && OthersKept(T0, mem.home, mem.tables, mem.home, root)
        invariant mem.free + data.Values == old(mem.free + data.Values)
        decreases last - hi
      {
        ghost var T, was := mem.tables, hi;
        var batch;
        ghost var frames;
        cur, batch, hi, frames := Batch(cur, end, vs, k, hi, last);
        GoneTrans(T0, T, mem.tables, mem.home, root, lo, was, hi);
        if batch != [] && !backed { FreeBatch(batch, vs); }
      }
    }

    /** `munmap`: the area goes, its pages are unmapped and the frames that were the process's own are free again. */
    method Munmap(start: nat, size: nat) returns (r: UnmapResult)
      requires Valid()
      modifies this`data, mem, areas, areas.repr
      ensures Valid() && areas.vmas == Apply(old(areas.vmas), Unmap(start, size))
      ensures areas.repr == old(areas.repr)
      ensures Conserved(old(mem.free), old(Own()), mem.free, Own()) && mem.home == old(mem.home)
      ensures OthersKept(old(mem.tables), old(mem.home), mem.tables, mem.home, root)
      ensures var k := FirstAt(old(areas.vmas), start);
              r == if k == |old(areas.vmas)| then NoArea
                   else if old(areas.vmas)[k].size != RoundUp(size, false) then WrongSize else Unmapped
      ensures r == Unmapped ==> var v := old(areas.vmas)[FirstAt(old(areas.vmas), start)];
                PagesGone(old(mem.tables), mem.tables, root, v.start / 0x1000, End(v) / 0x1000)
      ensures r != Unmapped ==> mem.tables == old(mem.tables) && mem.free == old(mem.free) && data == old(data)
    {
      ghost var vs, k := areas.vmas, FirstAt(areas.vmas, start);
      StillConserved(mem.tables, mem.home, mem.free, root, vs, data);
      var from, to, backed;
      r, from, to, backed := areas.Take(start, RoundUp(size, false));
      if r == Unmapped { UnmapArea(from, to, backed, vs, k); }
    }

    /** The pages of area k, already off the list, and the frames that were the process's own. */
    method UnmapArea(start: nat, end: nat, backed: bool, ghost vs: seq<Vma>, ghost k: nat)
      requires PagesOk(vs) && k < |vs| && vs[k].start == start && End(vs[k]) == end && vs[k].backed == backed
      modifies this`data, mem
      ensures PagesOk(vs[..k] + vs[k + 1..]) && mem.home == old(mem.home)
      ensures Conserved(old(mem.free), old(Own()), mem.free, Own())
      ensures OthersKept(old(mem.tables), old(mem.home), mem.tables, mem.home, root)
      ensures PagesGone(old(mem.tables), mem.tables, root, start / 0x1000, end / 0x1000)
    {
      AreaPages(vs[k]);
      UnmapRange(start, end, backed, vs, k, start / 0x1000, end / 0x1000);
      Forget(mem.tables, mem.home, mem.free, root, vs, data, k);
      StillConserved(mem.tables, mem.home, mem.free, root, vs[..k] + vs[k + 1..], data);
    }

    /** `teardown`: unmap area after area, then give back the tables. Every frame of the process is free again. */
    method TearDown()
      requires Valid()
      modifies this`data, mem, areas, areas.repr
      ensures mem.Valid() && AllReached(mem.tables, mem.home) && areas.Valid() && areas.vmas == []
      ensures mem.free == old(mem.free) + old(Own()) && OwnTables(mem.home, root) == {}
      ensures OthersKept(old(mem.tables), old(mem.home), mem.tables, mem.home, root)
    {
      UnmapAll();
      ghost var T, home := mem.tables, mem.home;
      NoAreasNoData(T, root, data);
      FreeTables(mem, root);
      OthersTrans(old(mem.tables), old(mem.home), T, home, mem.tables, mem.home, root);
    }

    method UnmapAll()
      requires Valid()
      modifies this`data, mem, areas, areas.repr
      ensures Valid() && areas.vmas == []
      ensures Conserved(old(mem.free), old(Own()), mem.free, Own())
      ensures OthersKept(old(mem.tables), old(mem.home), mem.tables, mem.home, root)
    {
      StillConserved(mem.tables, mem.home, mem.free, root, areas.vmas, data);
      while areas.head != null
        invariant Valid() && areas.repr == old(areas.repr)
        invariant Conserved(old(mem.free), old(Own()), mem.free, Own())
        invariant OthersKept(old(mem.tables), old(mem.home), mem.tables, mem.home, root)
        decreases |areas.vmas|
      {
        ghost var T, home, vs := mem.tables, mem.home, areas.vmas;
        assert areas.NodeAt(0);
        HeadGoes(vs);
        var r := Munmap(areas.head.start, areas.head.size);
        OthersTrans(old(mem.tables), old(mem.home), T, home, mem.tables, mem.home, root);
      }
    }
  }

  /** The first area is the one its own start and size name. */
  lemma FirstGoes(vs: seq<Vma>, start: nat, size: nat)
    requires vs != [] && vs[0].start == start && vs[0].size == RoundUp(size, false)
    ensures FirstAt(vs, start) == 0 && Apply(vs, Unmap(start, size)) == vs[1..]
  {
    assert vs[..0] + vs[1..] == vs[1..];
  }

  lemma HeadGoes(vs: seq<Vma>)
    requires AreasOk(vs) && vs != []
    ensures FirstAt(vs, vs[0].start) == 0 && RoundUp(vs[0].size, false) == vs[0].size
    ensures Apply(vs, Unmap(vs[0].start, vs[0].size)) == vs[1..]
  {
    assert AreaOk(vs[0]) && End(vs[0]) <= VM_MAX_ALLOWED;
    RoundUpFixed(vs[0].size);
    FirstGoes(vs, vs[0].start, vs[0].size);
  }

  lemma RoundUpFixed(size: nat)
    requires size % 0x1000 == 0 && size <= VM_MAX_ALLOWED
    ensures RoundUp(size, false) == size
  {
    var q := size / 0x1000;
    assert size == q * 0x1000;
    PageOf(q, 0xFFF);
    SmallWord(size + 0xFFF);
  }

  lemma NoAreasNoData(T: Tables, root: nat, data: map<nat, nat>)
    requires Resident(T, root, [], data)
    ensures data == map[]
  {
    forall p: nat | p < USER_PAGES
      ensures p !in data
    {
      assert PageOk(T, root, [], data, p);
    }
  }

  lemma OthersTrans(T: Tables, home: map<nat, Place>, T1: Tables, home1: map<nat, Place>, T2: Tables, home2: map<nat,
                    Place>, root: nat)
    requires OthersKept(T, home, T1, home1, root) && OthersKept(T1, home1, T2, home2, root)
    ensures OthersKept(T, home, T2, home2, root)
  {
    forall r, x | IsRoot(home, r) && r != root && InRange(x)
      ensures Walk(T2, r, x) == Walk(T, r, x)
    {
      assert Walk(T1, r, x) == Walk(T, r, x);
    }
  }

  lemma AreaPages(v: Vma)
    requires AreaOk(v)
    ensures v.start == v.start / 0x1000 * 0x1000 && End(v) == End(v) / 0x1000 * 0x1000
  {
  }

  /** With its pages unmapped, area k can leave the list. */
  lemma Forget(T: Tables, home: map<nat, Place>, free: set<nat>, root: nat, vs: seq<Vma>, data: map<nat, nat>, k: nat)
    requires SpaceOk(T, home, free, root, vs, data) && k < |vs|
    requires forall p: nat {:trigger PageHit(T, root, p)} ::
               p < USER_PAGES && vs[k].start / 0x1000 <= p < End(vs[k]) / 0x1000 ==> PageHit(T, root, p).Miss?
    ensures SpaceOk(T, home, free, root, vs[..k] + vs[k + 1..], data)
  {
    AreaPages(vs[k]);
    RemoveSorted(vs, k);
    RemoveBounded(vs, k);
    forall p: nat | p < USER_PAGES && InArea(vs[k], p)
      ensures PageHit(T, root, p).Miss?
    {
    }
    RemoveKeeps(T, root, vs, data, k);
  }

  lemma GoneTrans(T0: Tables, T: Tables, T': Tables, home: map<nat, Place>, root: nat, lo: nat, mid: nat, hi: nat)
    requires lo <= mid <= hi && PagesGone(T0, T, root, lo, mid) && PagesGone(T, T', root, mid, hi)
    requires OthersKept(T0, home, T, home, root) && OthersKept(T, home, T', home, root)
    ensures PagesGone(T0, T', root, lo, hi) && OthersKept(T0, home, T', home, root)
  {
    forall p: nat | p < USER_PAGES
      ensures PageHit(T', root, p) == if lo <= p < hi then Miss else PageHit(T0, root, p)
    {
      assert PageHit(T, root, p) == if lo <= p < mid then Miss else PageHit(T0, root, p);
    }
    forall r, x | IsRoot(home, r) && r != root && InRange(x)
      ensures Walk(T', r, x) == Walk(T0, r, x)
    {
      assert Walk(T, r, x) == Walk(T0, r, x);
    }
  }

  const BATCH_SIZE: nat := 64

  function Frames(frames: seq<nat>): set<nat> { set f | f in frames }

  /** Frames taken out of the tables that nobody holds but the batch. */
  ghost predicate Pending(T: Tables, home: map<nat, Place>, free: set<nat>, root: nat, vs: seq<Vma>, data: map<nat,
                          nat>, frames: seq<nat>) {
    && SpaceOk(T, home, free, root, vs, data)
    && (forall i, j :: 0 <= i < j < |frames| ==> frames[i] != frames[j])
    && Frames(frames) !! free && Frames(frames) !! T.Keys && Frames(frames) !! data.Values && Physical(Frames(frames))
  }

  /** Pages lo up to hi are unmapped, all others as they were. */
  ghost predicate PagesGone(T: Tables, T': Tables, root: nat, lo: nat, hi: nat) {
    forall p: nat {:trigger PageHit(T', root, p)} :: p < USER_PAGES ==>
      PageHit(T', root, p) == if lo <= p < hi then Miss else PageHit(T, root, p)
  }

  lemma GoneNone(T0: Tables, T: Tables, root: nat, lo: nat, p: nat)
    requires PagesGone(T0, T, root, lo, p) && lo <= p && PageHit(T, root, p).Miss?
    ensures PagesGone(T0, T, root, lo, p + 1)
  {
  }

  lemma GoneOne(T0: Tables, T: Tables, T': Tables, home: map<nat, Place>, root: nat, lo: nat, p: nat)
    requires PagesGone(T0, T, root, lo, p) && lo <= p < USER_PAGES && IsRoot(home, root)
    requires Edited(T, T', home, root, IndexesOf(p * 0x1000), Normal, Unused)
    ensures PagesGone(T0, T', root, lo, p + 1)
  {
    forall q: nat | q < USER_PAGES
      ensures PageHit(T', root, q) == if lo <= q < p + 1 then Miss else PageHit(T0, root, q)
    {
      assert PageHit(T, root, q) == if lo <= q < p then Miss else PageHit(T0, root, q);
      UserPage(q);
      UserPage(p);
      if q != p { UserPagesApart(p, q); }
    }
  }

  lemma TranslatePage(T: Tables, root: nat, vs: seq<Vma>, data: map<nat, nat>, k: nat, p: nat)
    requires Resident(T, root, vs, data) && Bounded(vs) && k < |vs| && InArea(vs[k], p)
    ensures p < USER_PAGES && !PageHit(T, root, p).Region?
    ensures Translate(T, root, p * 0x1000).None? <==> PageHit(T, root, p).Miss?
    ensures Translate(T, root, p * 0x1000).Some? ==>
              Translate(T, root, p * 0x1000).value / 0x1000 == PageHit(T, root, p).frame
  {
    CoveredIsUser(vs, k, p);
    assert PageOk(T, root, vs, data, p);
    if PageHit(T, root, p).Page? { PageOf(PageHit(T, root, p).frame, p * 0x1000 % 0x1000); }
  }

  lemma OthersStep(T0: Tables, T: Tables, T': Tables, home: map<nat, Place>, root: nat, p: nat)
    requires p < USER_PAGES
    requires OthersKept(T0, home, T, home, root) && Edited(T, T', home, root, IndexesOf(p * 0x1000), Normal, Unused)
    ensures OthersKept(T0, home, T', home, root)
  {
    UserPage(p);
    forall r, x | IsRoot(home, r) && r != root && InRange(x)
      ensures Walk(T', r, x) == Walk(T0, r, x)
    {
      assert Walk(T, r, x) == Walk(T0, r, x);
    }
  }

  lemma ValuesRemove(data: map<nat, nat>, p: nat)
    requires p in data && Injective(data)
    ensures (data - {p}).Values == data.Values - {data[p]} && Injective(data - {p})
  {
    var data' := data - {p};
    forall g | g in data.Values && g != data[p]
      ensures g in data'.Values
    {
      var q :| q in data && data[q] == g;
      assert data'[q] == g;
    }
  }

  /** Unmapping one page of area k moves its frame, if the process owns it, from the data to the batch. */
  lemma UnmapSpace(T: Tables, T': Tables, home: map<nat, Place>, free: set<nat>, root: nat, vs: seq<Vma>, data: map<nat,
                   nat>,
                   frames: seq<nat>, k: nat, p: nat)
    requires Pending(T, home, free, root, vs, data, frames) && T'.Keys == T.Keys && k < |vs| && InArea(vs[k], p)
    requires p < USER_PAGES && PageHit(T, root, p).Page?
    requires Edited(T, T', home, root, IndexesOf(p * 0x1000), Normal, Unused)
    ensures !vs[k].backed ==> p in data && PageHit(T, root, p).frame == data[p]
    ensures var frames' := if vs[k].backed then frames else frames + [data[p]];
            Pending(T', home, free, root, vs, data - {p}, frames') &&
              data.Values + Frames(frames) == (data - {p}).Values + Frames(frames')
  {
    AnonymousAt(vs, k, p);
    assert PageOk(T, root, vs, data, p);
    UnmapKeeps(T, T', home, root, vs, data, p);
    if vs[k].backed {
      assert data - {p} == data;
    } else {
      ValuesRemove(data, p);
      assert data[p] in data.Values;
      assert Frames(frames + [data[p]]) == Frames(frames) + {data[p]};
    }
  }

  lemma StillConserved(T: Tables, home: map<nat, Place>, free: set<nat>, root: nat, vs: seq<Vma>, data: map<nat, nat>)
    requires Tree(T, home) && free !! T.Keys && SpaceOk(T, home, free, root, vs, data)
    ensures Conserved(free, Footprint(home, root, data), free, Footprint(home, root, data))
  {
  }

  /** `convert_vm_flags`. */
  function HwFlags(f: VmFlags): Flags {
    Flags(true, f.write, f.user, f.writeThrough, f.cacheDisable, false, false, false, f.global, !f.exec)
  }

  lemma AddrInAreas(vs: seq<Vma>, addr: nat)
    requires AreasOk(vs)
    ensures forall i :: 0 <= i < |vs| ==> (InArea(vs[i], addr / 0x1000) <==> vs[i].start <= addr < End(vs[i]))
  {
    forall i | 0 <= i < |vs|
      ensures InArea(vs[i], addr / 0x1000) <==> vs[i].start <= addr < End(vs[i])
    {
      PageInArea(vs[i].start, End(vs[i]), addr);
    }
  }

  lemma PageInArea(start: nat, end: nat, addr: nat)
    requires start % 0x1000 == 0 && end % 0x1000 == 0
    ensures start <= addr / 0x1000 * 0x1000 < end <==> start <= addr < end
  {
    assert start == start / 0x1000 * 0x1000 && end == end / 0x1000 * 0x1000;
  }

  lemma OneArea(vs: seq<Vma>, k: nat, p: nat)
    requires Sorted(vs) && k < |vs| && InArea(vs[k], p)
    ensures Covered(vs, p) && (Anonymous(vs, p) <==> !vs[k].backed)
    ensures forall i :: 0 <= i < |vs| && InArea(vs[i], p) ==> i == k
  {
    AnonymousAt(vs, k, p);
  }

  lemma OwnGrown(home: map<nat, Place>, home': map<nat, Place>, root: nat)
    requires Placed(home, home', User(root))
    ensures OwnTables(home', root) == OwnTables(home, root) + (home'.Keys - home.Keys)
  {
  }

  lemma FaultPages(T: Tables, T': Tables, home: map<nat, Place>, root: nat, p: nat, e: Entry)
    requires IsRoot(home, root) && p < USER_PAGES && Edited(T, T', home, root, IndexesOf(p * 0x1000), Normal, e)
    requires e.flags.present
    ensures PageHit(T', root, p) == Page(e.frame, e.flags)
    ensures forall q: nat {:trigger PageHit(T', root, q)} :: q < USER_PAGES && q != p ==>
              PageHit(T', root, q) == PageHit(T, root, q)
  {
    UserPage(p);
    forall q: nat | q < USER_PAGES && q != p
      ensures PageHit(T', root, q) == PageHit(T, root, q)
    {
      UserPage(q);
      UserPagesApart(p, q);
    }
  }

  /** An edit in the lower half is nobody else's business. */
  lemma EditOthers(T: Tables, home: map<nat, Place>, T': Tables, home': map<nat, Place>, root: nat, v: Indexes,
                   e: Entry)
    requires Edited(T, T', home, root, v, Normal, e) && v.l4 < USER_ENTRIES && Placed(home, home', User(root))
    ensures OthersKept(T, home, T', home', root)
  {
  }

  /** A fault that maps page p of area k, the frame taken from the allocator unless the area is backed. */
  lemma FaultSpace(T: Tables, home: map<nat, Place>, free: set<nat>, T': Tables, home': map<nat, Place>,
                   free': set<nat>,
                   root: nat, vs: seq<Vma>, data: map<nat, nat>, k: nat, p: nat, e: Entry)
    requires Tree(T, home) && Tree(T', home') && free !! T.Keys && Physical(free)
    requires SpaceOk(T, home, free, root, vs, data) && k < |vs| && InArea(vs[k], p)
    requires Edited(T, T', home, root, IndexesOf(p * 0x1000), Normal, e) && e.flags.present
    requires Placed(home, home', User(root))
    requires if vs[k].backed then free' <= free && T'.Keys == T.Keys + (free - free')
             else e.frame in free && free' <= free - {e.frame} && T'.Keys == T.Keys + ((free - {e.frame}) - free')
    ensures var data' := if vs[k].backed then data else data[p := e.frame];
            && SpaceOk(T', home', free', root, vs, data')
            && Moved(free, Footprint(home, root, data), free', Footprint(home', root, data'), LostBy(data, p, true))
    ensures OthersKept(T, home, T', home', root)
  {
    CoveredIsUser(vs, k, p);
    UserPage(p);
    EditOthers(T, home, T', home', root, IndexesOf(p * 0x1000), e);
    OwnGrown(home, home', root);
    AnonymousAt(vs, k, p);
    assert PageOk(T, root, vs, data, p);
    FaultKeeps(T, T', home, root, vs, data, k, p, e);
    if !vs[k].backed { ValuesInsert(data, p, e.frame); }
    var values := if vs[k].backed then data.Values else data[p := e.frame].Values;
    FaultFrames(T.Keys, T'.Keys, free, free', OwnTables(home, root), OwnTables(home', root), data.Values, values,
                if vs[k].backed then {} else {e.frame}, LostBy(data, p, true));
  }

  lemma ValuesInsert(data: map<nat, nat>, p: nat, f: nat)
    requires Injective(data)
    ensures data[p := f].Values == data.Values - LostBy(data, p, true) + {f}
  {
    var data' := data[p := f];
    assert data'[p] == f;
    forall g | g in data.Values && g !in LostBy(data, p, true)
      ensures g in data'.Values
    {
      var q :| q in data && data[q] == g;
      assert data'[q] == g;
    }
    forall g | g in data'.Values && g != f
      ensures g in data.Values && g !in LostBy(data, p, true)
    {
      var q :| q in data' && data'[q] == g;
    }
  }

  /** The frames of a fault: the tables taken from the allocator and, if the process owns it, the page's. */
  lemma FaultFrames(tables: set<nat>, tables': set<nat>, free: set<nat>, free': set<nat>, own: set<nat>, own': set<nat>,
                    values: set<nat>, values': set<nat>, taken: set<nat>, lost: set<nat>)
    requires free !! tables && values !! free && values !! tables && taken <= free && free' <= free - taken
    requires tables' == tables + (free - taken - free') && own <= tables && own' == own + (tables' - tables)
    requires lost <= values && values' == values - lost + taken
    ensures values' !! free' && values' !! tables' && Moved(free, own + values, free', own' + values', lost)
  {
  }

  lemma MapSpaceAt(T: Tables, root: nat, vs: seq<Vma>, data: map<nat, nat>, size: nat, flags: VmFlags, backed: bool)
    requires AreasOk(vs) && Resident(T, root, vs, data) && !flags.huge && size % 0x1000 == 0
    requires FindGap(vs, size, false).Some?
    requires if vs == [] then VM_BASE_ADDR + size <= VM_MAX_ALLOWED
             else RoundUp(End(vs[|vs| - 1]), false) <= VM_MAX_ALLOWED
    ensures var (addr, k) := FindGap(vs, size, false).value;
            && addr + size <= VM_MAX_ALLOWED && k <= |vs|
            && AreasOk(Insert(vs, k, Vma(addr, size, flags, backed)))
            && Resident(T, root, Insert(vs, k, Vma(addr, size, flags, backed)), data)
  {
    var gap := FindGap(vs, size, false);
    GapAligned(vs, size);
    GapBounded(vs, size, false);
    var v := Vma(gap.value.0, size, flags, backed);
    GapKeepsSorted(vs, v, false);
    InsertOk(vs, gap.value.1, v);
    MapKeeps(T, root, vs, data, gap.value.1, v);
  }

  lemma RoundUpMultiple(raw: nat)
    ensures RoundUp(raw, false) % 0x1000 == 0
  {
  }

  lemma MapSpace(T: Tables, root: nat, vs: seq<Vma>, data: map<nat, nat>, raw: nat, flags: VmFlags, backed: bool)
    requires AreasOk(vs) && Resident(T, root, vs, data) && !flags.huge
    requires vs == [] ==> VM_BASE_ADDR + RoundUp(raw, false) <= VM_MAX_ALLOWED
    ensures var ws := Apply(vs, Map(raw, flags, backed)); AreasOk(ws) && Resident(T, root, ws, data)
    ensures var size := RoundUp(raw, false);
            FindGap(vs, size, false).Some? ==> FindGap(vs, size, false).value.0 + size <= VM_MAX_ALLOWED
  {
    var size := RoundUp(raw, false);
    RoundUpMultiple(raw);
    LastEndInArena(vs);
    if FindGap(vs, size, false).Some? { MapSpaceAt(T, root, vs, data, size, flags, backed); }
  }

  lemma LastEndInArena(vs: seq<Vma>)
    requires Bounded(vs)
    ensures vs != [] ==> RoundUp(End(vs[|vs| - 1]), false) <= VM_MAX_ALLOWED
  {
    if vs != [] {
      RoundUpLeast(End(vs[|vs| - 1]), false);
      assert Multiple(VM_MAX_ALLOWED, false);
    }
  }

  lemma PlaceSpaceAt(T: Tables, root: nat, vs: seq<Vma>, data: map<nat, nat>, v: Vma)
    requires AreasOk(vs) && Resident(T, root, vs, data) && AreaOk(v) && End(v) <= VM_MAX_ALLOWED
    requires PlaceAt(vs, v.start, v.size).Some?
    ensures var ws := Insert(vs, PlaceAt(vs, v.start, v.size).value, v); AreasOk(ws) && Resident(T, root, ws, data)
  {
    var k := PlaceIndex(vs, v.start);
    PlaceNeighbours(vs, v.start, v.size, k);
    InsertSorted(vs, k, v);
    InsertOk(vs, k, v);
    MapKeeps(T, root, vs, data, k, v);
  }

  lemma MapAtSpace(T: Tables, root: nat, vs: seq<Vma>, data: map<nat, nat>, start: nat, raw: nat, flags: VmFlags)
    requires AreasOk(vs) && Resident(T, root, vs, data) && !flags.huge && start % 0x1000 == 0
    requires start + RoundUp(raw, false) <= VM_MAX_ALLOWED
    ensures var ws := Apply(vs, MapAt(start, raw, flags)); AreasOk(ws) && Resident(T, root, ws, data)
  {
    var size := RoundUp(raw, false);
    RoundUpMultiple(raw);
    if PlaceAt(vs, start, size).Some? { PlaceSpaceAt(T, root, vs, data, Vma(start, size, flags, true)); }
  }

  lemma InsertOk(vs: seq<Vma>, k: nat, v: Vma)
    requires AreasOk(vs) && k <= |vs| && AreaOk(v) && Sorted(Insert(vs, k, v)) && End(v) <= VM_MAX_ALLOWED
    ensures AreasOk(Insert(vs, k, v))
  {
    InsertBounded(vs, k, v);
  }

  lemma {:induction false} ScanAligned(vs: seq<Vma>, i: nat, size: nat)
    requires i < |vs| && ScanGap(vs, i, size, false).Some?
    ensures ScanGap(vs, i, size, false).value.0 % 0x1000 == 0
    decreases |vs| - i
  {
    if i + 1 < |vs| && ScanGap(vs, i, size, false) == ScanGap(vs, i + 1, size, false) { ScanAligned(vs, i + 1, size); }
  }

  lemma GapAligned(vs: seq<Vma>, size: nat)
    requires FindGap(vs, size, false).Some?
    ensures FindGap(vs, size, false).value.0 % 0x1000 == 0
  {
    if vs != [] && !(vs[0].start > VM_BASE_ADDR && vs[0].start - VM_BASE_ADDR >= size) { ScanAligned(vs, 0, size); }
  }

  // ---------------------------------------------------------------- other processes, whole lives

  /** Whatever one process does, another's address space stays what it was and its frames stay its own. */
  lemma OtherSpaceKept(T: Tables, home: map<nat, Place>, free: set<nat>, T': Tables, home': map<nat, Place>,
                       free': set<nat>,
                       root: nat, mine: map<nat, nat>, mine': map<nat, nat>, lost: set<nat>, other: nat, vs: seq<Vma>,
                       data: map<nat, nat>)
    requires Tree(T, home) && Tree(T', home') && free !! T.Keys && other != root
    requires SpaceOk(T, home, free, other, vs, data) && OthersKept(T, home, T', home', root)
    requires Moved(free, Footprint(home, root, mine), free', Footprint(home', root, mine'), lost)
    requires Footprint(home, root, mine) !! Footprint(home, other, data)
    ensures SpaceOk(T', home', free', other, vs, data) && Footprint(home', other, data) == Footprint(home, other, data)
    ensures Footprint(home', root, mine') !! Footprint(home', other, data)
  {
    forall p: nat | p < USER_PAGES
      ensures PageOk(T', other, vs, data, p)
    {
      UserPage(p);
      assert PageOk(T, other, vs, data, p);
    }
    assert OwnTables(home', other) == OwnTables(home, other);
    forall t | t in T' && t !in T
      ensures t in Footprint(home', root, mine')
    {
    }
  }
}
