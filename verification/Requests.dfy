/**
 What the requests of a process do, said without tables: an address space is its areas and a map from pages to the
 rights on them, and every request has one answer and one next state. The page-table code is proved to behave so.
 */
module Requests {
  import opened Wrappers
  import opened PageTable
  import opened VmaSpec
  import opened VmaList
  import opened AddressSpace

  // ---------------------------------------------------------------- the simple form

  datatype View = View(vmas: seq<Vma>, pages: map<nat, Grant>)

  /** A change of the areas, or an access that faults; request is how the backing object would answer for an offset. */
  datatype Request = Change(op: Op) | Touch(addr: nat, write: bool, request: nat -> Option<nat>)

  datatype Reply = Placed(at: Option<nat>) | Removed(result: UnmapResult) | Faulted(fault: FaultResult) | PassedOver

  const Fresh: View := View([], map[])

  /** The requests an address space is made for; others are passed over. */
  predicate InScope(vs: seq<Vma>, op: Op) {
    match op
    case Map(size, flags, _) => !flags.huge && (vs == [] ==> VM_BASE_ADDR + RoundUp(size, false) <= VM_MAX_ALLOWED)
    case MapAt(start, size, flags) =>
      !flags.huge && start % 0x1000 == 0 && start + RoundUp(size, false) <= VM_MAX_ALLOWED
    case Unmap(_, _) => true
  }

  function Dropped(pages: map<nat, Grant>, v: Vma): map<nat, Grant> {
    map p | p in pages && !InArea(v, p) :: pages[p]
  }

  function Found(vs: seq<Vma>, start: nat, size: nat): UnmapResult {
    var k := FirstAt(vs, start);
    if k == |vs| then NoArea else if vs[k].size != RoundUp(size, false) then WrongSize else Unmapped
  }

  /** What the process is told. */
  function Answer(v: View, q: Request): Reply {
    match q
    case Touch(addr, write, request) => Faulted(Verdict(v.vmas, addr / 0x1000, write, request))
    case Change(op) =>
      if !InScope(v.vmas, op) then PassedOver
      else
        match op
        case Map(size, _, _) =>
          var gap := FindGap(v.vmas, RoundUp(size, false), false);
          Placed(if gap.None? then None else Some(gap.value.0))
        case MapAt(start, size, _) => Placed(if PlaceAt(v.vmas, start, RoundUp(size, false)).Some? then Some(start)
                                               else None)
        case Unmap(start, size) => Removed(Found(v.vmas, start, size))
  }

  /** What becomes of its address space. */
  function Effect(v: View, q: Request): View {
    match q
    case Touch(addr, write, request) =>
      var p := addr / 0x1000;
      if Verdict(v.vmas, p, write, request) != Mapped then v
      else v.(pages := v.pages[p := GrantFor(v.vmas[AreaOf(v.vmas, p)], p, request)])
    case Change(op) =>
      if !InScope(v.vmas, op) then v
      else View(Apply(v.vmas, op),
                if op.Unmap? && Found(v.vmas, op.start, op.size) == Unmapped
                then Dropped(v.pages, v.vmas[FirstAt(v.vmas, op.start)]) else v.pages)
  }

  /** The fault gets a page, and so takes what the allocator has. */
  predicate NeedsPage(v: View, q: Request) {
    q.Touch? && Verdict(v.vmas, q.addr / 0x1000, q.write, q.request) == Mapped
  }

  /** The frames a request costs for good: one for a fault on a page of the process's own that is there already. */
  function Leaked(v: View, q: Request): nat {
    if q.Touch? && Verdict(v.vmas, q.addr / 0x1000, q.write, q.request) == Mapped && q.addr / 0x1000 in v.pages &&
         !v.vmas[AreaOf(v.vmas, q.addr / 0x1000)].backed
    then 1 else 0
  }

  function After(v: View, qs: seq<Request>): View {
    if qs == [] then v else Effect(After(v, qs[..|qs| - 1]), qs[|qs| - 1])
  }

  function Answers(v: View, qs: seq<Request>): (rs: seq<Reply>)
    ensures |rs| == |qs|
  {
    if qs == [] then [] else Answers(v, qs[..|qs| - 1]) + [Answer(After(v, qs[..|qs| - 1]), qs[|qs| - 1])]
  }

  function Leaks(v: View, qs: seq<Request>): nat {
    if qs == [] then 0 else Leaks(v, qs[..|qs| - 1]) + Leaked(After(v, qs[..|qs| - 1]), qs[|qs| - 1])
  }

  // ---------------------------------------------------------------- what the simple form keeps

  /** Page p lies in an area and has just the rights and the backing of that area. */
  predicate Lies(vs: seq<Vma>, p: nat, g: Grant) {
    exists i :: 0 <= i < |vs| && InArea(vs[i], p) && g.flags == vs[i].flags && (g.backing.Some? <==> vs[i].backed)
  }

  predicate ViewOk(v: View) {
    Sorted(v.vmas) && Bounded(v.vmas) && forall p :: p in v.pages ==> Lies(v.vmas, p, v.pages[p])
  }

  lemma ScopeInArena(vs: seq<Vma>, op: Op)
    requires Bounded(vs) && InScope(vs, op)
    ensures InArena(vs, op)
  {
    if op.Map? && vs != [] {
      RoundUpLeast(End(vs[|vs| - 1]), false);
      assert Multiple(VM_MAX_ALLOWED, false);
    }
  }

  lemma LiesInsert(vs: seq<Vma>, k: nat, v: Vma, p: nat, g: Grant)
    requires k <= |vs| && Lies(vs, p, g)
    ensures Lies(Insert(vs, k, v), p, g)
  {
    var i :| 0 <= i < |vs| && InArea(vs[i], p) && g.flags == vs[i].flags && (g.backing.Some? <==> vs[i].backed);
    assert Insert(vs, k, v)[if i < k then i else i + 1] == vs[i];
  }

  lemma LiesRemove(vs: seq<Vma>, k: nat, p: nat, g: Grant)
    requires k < |vs| && Lies(vs, p, g) && !InArea(vs[k], p)
    ensures Lies(vs[..k] + vs[k + 1..], p, g)
  {
    var i :| 0 <= i < |vs| && InArea(vs[i], p) && g.flags == vs[i].flags && (g.backing.Some? <==> vs[i].backed);
    assert (vs[..k] + vs[k + 1..])[if i < k then i else i - 1] == vs[i];
  }

  /** Each request keeps every page in an area and with that area's rights. */
  lemma EffectOk(v: View, q: Request)
    requires ViewOk(v)
    ensures ViewOk(Effect(v, q))
  {
    var n := Effect(v, q);
    if q.Change? && InScope(v.vmas, q.op) {
      ScopeInArena(v.vmas, q.op);
      StepSorted(v.vmas, q.op);
    }
    forall p | p in n.pages
      ensures Lies(n.vmas, p, n.pages[p])
    {
      if q.Touch? {
        assert p in v.pages ==> Lies(v.vmas, p, v.pages[p]);
      } else if n != v {
        PageStays(v, q.op, p);
      }
    }
  }

  lemma PageStays(v: View, op: Op, p: nat)
    requires ViewOk(v) && InScope(v.vmas, op) && p in Effect(v, Change(op)).pages
    ensures p in v.pages && Effect(v, Change(op)).pages[p] == v.pages[p]
    ensures Lies(Apply(v.vmas, op), p, v.pages[p])
  {
    assert Lies(v.vmas, p, v.pages[p]);
    if op.Unmap? {
      if Found(v.vmas, op.start, op.size) == Unmapped { LiesRemove(v.vmas, FirstAt(v.vmas, op.start), p, v.pages[p]); }
    } else {
      LiesMapped(v.vmas, op, p, v.pages[p]);
    }
  }

  lemma LiesMapped(vs: seq<Vma>, op: Op, p: nat, g: Grant)
    requires !op.Unmap? && Lies(vs, p, g)
    ensures Lies(Apply(vs, op), p, g)
  {
    match op
    case Map(size, flags, backed) =>
      var gap := FindGap(vs, RoundUp(size, flags.huge), flags.huge);
      if gap.Some? && gap.value.1 <= |vs| {
        LiesInsert(vs, gap.value.1, Vma(gap.value.0, RoundUp(size, flags.huge), flags, backed), p, g);
      }
    case MapAt(start, size, flags) =>
      var k := PlaceAt(vs, start, RoundUp(size, false));
      if k.Some? { LiesInsert(vs, k.value, Vma(start, RoundUp(size, false), flags, true), p, g); }
  }

  /** In every run, every mapped page lies in an area, with the rights and the backing of that area. */
  lemma {:induction false} EveryRunInside(v: View, qs: seq<Request>)
    requires ViewOk(v)
    ensures ViewOk(After(v, qs))
    decreases |qs|
  {
    if qs != [] {
      EveryRunInside(v, qs[..|qs| - 1]);
      EffectOk(After(v, qs[..|qs| - 1]), qs[|qs| - 1]);
    }
  }

  /** Once an area is unmapped, an access to it is refused, however the next request asks. */
  lemma UnmappedIsInvalid(v: View, start: nat, size: nat, q: Request)
    requires ViewOk(v) && Found(v.vmas, start, size) == Unmapped && q.Touch?
    requires InArea(v.vmas[FirstAt(v.vmas, start)], q.addr / 0x1000)
    ensures var n := Effect(v, Change(Unmap(start, size)));
            q.addr / 0x1000 !in n.pages && Answer(n, q) == Faulted(InvalidAddress)
  {
    CoveredRemove(v.vmas, FirstAt(v.vmas, start), q.addr / 0x1000);
  }

  /** A new area answers for its own pages, by its own rights, and changes no other page's answer. */
  lemma NewAreaAnswers(vs: seq<Vma>, k: nat, a: Vma, p: nat, isWrite: bool, request: nat -> Option<nat>)
    requires k <= |vs| && Sorted(vs) && Sorted(Insert(vs, k, a))
    ensures var r := Verdict(Insert(vs, k, a), p, isWrite, request);
            if InArea(a, p) then Judged(a, isWrite, request(p * 0x1000 - a.start), r) && r != Panic
            else r == Verdict(vs, p, isWrite, request)
  {
    var ws := Insert(vs, k, a);
    VerdictMeans(ws, p, isWrite, request);
    VerdictMeans(vs, p, isWrite, request);
    if InArea(a, p) {
      assert ws[k] == a;
    } else {
      var i := AreaOf(vs, p);
      if i < |vs| { assert ws[if i < k then i else i + 1] == vs[i]; }
      CoveredInsert(vs, k, a, p);
    }
  }

  /**
   What `at` is good for after a mapping: every access to its bytes is judged by the rights asked for, others as
   before.
   */
  ghost predicate Usable(was: seq<Vma>, now: seq<Vma>, at: nat, size: nat, flags: VmFlags, backed: bool) {
    forall addr: nat, isWrite: bool, request: nat -> Option<nat> ::
      var r, p := Verdict(now, addr / 0x1000, isWrite, request), addr / 0x1000;
      && (at <= addr < at + size ==>
            && r != InvalidAddress && (r == AccessDenied <==> isWrite && !flags.write)
            && (r == MappingFailed <==>
                !(isWrite && !flags.write) && backed && at <= p * 0x1000 && request(p * 0x1000 - at).None?))
      && (p * 0x1000 < at || at + RoundUp(size, false) <= p * 0x1000 ==> r == Verdict(was, p, isWrite, request))
  }

  lemma InsertUsable(vs: seq<Vma>, k: nat, at: nat, size: nat, flags: VmFlags, backed: bool)
    requires k <= |vs| && Sorted(vs) && at % 0x1000 == 0 && size + 0xFFF < WORD
    requires Sorted(Insert(vs, k, Vma(at, RoundUp(size, false), flags, backed)))
    ensures Usable(vs, Insert(vs, k, Vma(at, RoundUp(size, false), flags, backed)), at, size, flags, backed)
  {
    var a := Vma(at, RoundUp(size, false), flags, backed);
    Round4K(size);
    forall addr: nat, isWrite: bool, request: nat -> Option<nat>
      ensures var r, p := Verdict(Insert(vs, k, a), addr / 0x1000, isWrite, request), addr / 0x1000;
              && (at <= addr < at + size ==>
                    && r != InvalidAddress && (r == AccessDenied <==> isWrite && !flags.write)
                    && (r == MappingFailed <==>
                        !(isWrite && !flags.write) && backed && at <= p * 0x1000 && request(p * 0x1000 - at).None?))
              && (p * 0x1000 < at || End(a) <= p * 0x1000 ==> r == Verdict(vs, p, isWrite, request))
    {
      NewAreaAnswers(vs, k, a, addr / 0x1000, isWrite, request);
      if at <= addr < at + size { PageInArea(at, End(a), addr); }
    }
  }

  /** Rounding up a size within a page of the word's end gives zero, and the area it makes is empty. */
  lemma EmptyUnusable(vs: seq<Vma>, k: nat, at: nat, size: nat, flags: VmFlags, backed: bool)
    requires k <= |vs| && at % 0x1000 == 0 && WORD <= size + 0xFFF && size < WORD
    requires Sorted(Insert(vs, k, Vma(at, RoundUp(size, false), flags, backed))) && (k < |vs| ==> at < vs[k].start)
    ensures !Usable(vs, Insert(vs, k, Vma(at, RoundUp(size, false), flags, backed)), at, size, flags, backed)
  {
    var a := Vma(at, RoundUp(size, false), flags, backed);
    var ws, p := Insert(vs, k, a), at / 0x1000;
    assert a.size == 0 && ws[k] == a && p * 0x1000 == at;
    forall i | 0 <= i < |ws|
      ensures !InArea(ws[i], p)
    {
      if k < i {
        assert ws[i] == vs[i - 1] && ws[k + 1] == vs[k];
        assert k + 1 < i ==> End(ws[k + 1]) <= ws[i].start;
      } else if i < k {
        assert End(ws[i]) <= ws[k].start;
      }
    }
    VerdictMeans(ws, p, false, (offset: nat) => None);
  }

  /**
   A mapping that is granted is usable for all its bytes, with just the rights asked for, exactly when its size is not
   so close to the end of the word that rounding it up wraps.
   */
  lemma GrantedIsUsable(v: View, op: Op, at: nat)
    requires ViewOk(v) && InScope(v.vmas, op) && !op.Unmap? && op.size < WORD
    requires Answer(v, Change(op)) == Placed(Some(at))
    ensures op.MapAt? ==> at == op.start
    ensures Usable(v.vmas, Effect(v, Change(op)).vmas, at, op.size, op.flags, op.MapAt? || op.backed) <==>
            op.size + 0xFFF < WORD
    ensures Effect(v, Change(op)).pages == v.pages
  {
    ScopeInArena(v.vmas, op);
    StepSorted(v.vmas, op);
    var size, backed, k := RoundUp(op.size, false), op.MapAt? || op.backed, 0;
    if op.Map? {
      k := FindGap(v.vmas, size, false).value.1;
      GapAligned(v.vmas, size);
      GapKeepsSorted(v.vmas, Vma(at, size, op.flags, op.backed), false);
    } else {
      k := PlaceAt(v.vmas, op.start, size).value;
    }
    if op.size + 0xFFF < WORD {
      InsertUsable(v.vmas, k, at, op.size, op.flags, backed);
    } else {
      EmptyUnusable(v.vmas, k, at, op.size, op.flags, backed);
    }
  }

  /** A request for the whole word but one byte is granted, and the address it gets is invalid. */
  lemma GrantOfNothing(request: nat -> Option<nat>)
    ensures var mapping := Change(Map(WORD - 1, VmFlags(true, true, true, false, false, false, false), false));
            && Answer(Fresh, mapping) == Placed(Some(VM_BASE_ADDR))
            && Answer(Effect(Fresh, mapping), Touch(VM_BASE_ADDR, false, request)) == Faulted(InvalidAddress)
  {
  }

  /** Reads at these addresses, one after another. */
  function Reads(addrs: seq<nat>, request: nat -> Option<nat>): seq<Request> {
    if addrs == [] then []
    else Reads(addrs[..|addrs| - 1], request) + [Touch(addrs[|addrs| - 1], false, request)]
  }

  /** Page first + i with what the object gives for its page i, for each i below n. */
  function Filled(pages: map<nat, Grant>, flags: VmFlags, first: nat, n: nat,
                  request: nat -> Option<nat>): map<nat, Grant> {
    if n == 0 then pages
    else Filled(pages, flags, first, n - 1, request)[first + n - 1 := Grant(flags, request((n - 1) * 0x1000))]
  }

  lemma {:induction false} FilledAt(pages: map<nat, Grant>, flags: VmFlags, first: nat, n: nat,
                                    request: nat -> Option<nat>, i: nat)
    requires i < n
    ensures first + i in Filled(pages, flags, first, n, request)
    ensures Filled(pages, flags, first, n, request)[first + i] == Grant(flags, request(i * 0x1000))
  {
    if i < n - 1 { FilledAt(pages, flags, first, n - 1, request, i); }
  }

  /** An area that starts at page first shows an object, which has the pages that are asked for. */
  ghost predicate ShowsObject(v: View, k: nat, first: nat, n: nat, request: nat -> Option<nat>) {
    && Sorted(v.vmas) && k < |v.vmas| && v.vmas[k].backed && v.vmas[k].start == first * 0x1000
    && n * 0x1000 <= v.vmas[k].size && HasPages(request, n)
  }

  /** The object has its first n pages. */
  predicate HasPages(request: nat -> Option<nat>, n: nat) {
    n == 0 || (request((n - 1) * 0x1000).Some? && HasPages(request, n - 1))
  }

  /** The addresses lie in consecutive pages. */
  predicate InPages(addrs: seq<nat>, first: nat) {
    addrs == [] || (addrs[|addrs| - 1] / 0x1000 == first + |addrs| - 1 && InPages(addrs[..|addrs| - 1], first))
  }

  lemma {:induction false} ObjectFills(v: View, k: nat, first: nat, addrs: seq<nat>, request: nat -> Option<nat>)
    requires ShowsObject(v, k, first, |addrs|, request) && InPages(addrs, first)
    ensures Leads(v, Reads(addrs, request), v.(pages := Filled(v.pages, v.vmas[k].flags, first, |addrs|, request)))
    decreases |addrs|
  {
    if addrs != [] {
      var n := |addrs| - 1;
      var w := v.(pages := Filled(v.pages, v.vmas[k].flags, first, n, request));
      ObjectFills(v, k, first, addrs[..n], request);
      FillNext(v, Reads(addrs[..n], request), w, k, addrs[n], first + n, n, request);
    }
  }

  lemma FillNext(v: View, qs: seq<Request>, w: View, k: nat, addr: nat, p: nat, i: nat, request: nat -> Option<nat>)
    requires Leads(v, qs, w)
    requires Sorted(w.vmas) && k < |w.vmas| && w.vmas[k].backed && p * 0x1000 == w.vmas[k].start + i * 0x1000
    requires (i + 1) * 0x1000 <= w.vmas[k].size && request(i * 0x1000).Some? && addr / 0x1000 == p
    ensures Leads(v, qs + [Touch(addr, false, request)],
                  w.(pages := w.pages[p := Grant(w.vmas[k].flags, request(i * 0x1000))]))
  {
    assert After(v, qs) == w;
    FillOne(w, k, addr, p, i, request);
    AfterOne(v, qs, Touch(addr, false, request));
  }

  /** The requests make any address space like v into w. */
  ghost predicate Leads(v: View, qs: seq<Request>, w: View) {
    forall u: View {:trigger After(u, qs)} :: u == v ==> After(u, qs) == w
  }

  lemma FillOne(w: View, k: nat, addr: nat, p: nat, i: nat, request: nat -> Option<nat>)
    requires Sorted(w.vmas) && k < |w.vmas| && w.vmas[k].backed && p * 0x1000 == w.vmas[k].start + i * 0x1000
    requires (i + 1) * 0x1000 <= w.vmas[k].size && request(i * 0x1000).Some? && addr / 0x1000 == p
    ensures Effect(w, Touch(addr, false, request)) ==
            w.(pages := w.pages[p := Grant(w.vmas[k].flags, request(i * 0x1000))])
  {
    assert InArea(w.vmas[k], p) && p * 0x1000 - w.vmas[k].start == i * 0x1000;
    VerdictMeans(w.vmas, p, false, request);
  }

  /** An object that is read page by page, anywhere in each, shows its page i at page i of the area. */
  lemma ObjectShows(v: View, k: nat, first: nat, addrs: seq<nat>, request: nat -> Option<nat>, i: nat)
    requires ShowsObject(v, k, first, |addrs|, request) && InPages(addrs, first) && i < |addrs|
    ensures var w := After(v, Reads(addrs, request));
            first + i in w.pages && w.pages[first + i] == Grant(v.vmas[k].flags, request(i * 0x1000))
  {
    ObjectFills(v, k, first, addrs, request);
    FilledAt(v.pages, v.vmas[k].flags, first, |addrs|, request, i);
  }

  lemma AfterOne(v: View, qs: seq<Request>, q: Request)
    ensures After(v, qs + [q]) == Effect(After(v, qs), q)
  {
    assert (qs + [q])[..|qs|] == qs;
  }

  /** A process's first mapping, of one page, and a touch of it. */
  function FirstMapping(): Request { Change(Map(0x1000, VmFlags(true, true, true, false, false, false, false), false)) }

  function FirstTouch(): Request { Touch(VM_BASE_ADDR, true, offset => None) }

  function FirstArea(): Vma { Vma(VM_BASE_ADDR, 0x1000, VmFlags(true, true, true, false, false, false, false), false) }

  lemma FirstMapped()
    ensures Effect(Fresh, FirstMapping()) == View([FirstArea()], map[]) && Leaked(Fresh, FirstMapping()) == 0
  {
  }

  lemma FirstTouched(pages: map<nat, Grant>)
    ensures var v, p := View([FirstArea()], pages), VM_BASE_ADDR / 0x1000;
            && Effect(v, FirstTouch()) == v.(pages := pages[p := Grant(FirstArea().flags, None)])
            && Leaked(v, FirstTouch()) == if p in pages then 1 else 0
  {
  }

  /** One page mapped and touched twice, as two threads of a process may at once: the first frame is lost. */
  lemma LeakingFault()
    ensures var mapping := Change(Map(0x1000, VmFlags(true, true, true, false, false, false, false), false));
            var touch := Touch(VM_BASE_ADDR, true, offset => None);
            Leaks(Fresh, [mapping, touch]) == 0 && Leaks(Fresh, [mapping, touch, touch]) == 1
  {
    var mapping := Change(Map(0x1000, VmFlags(true, true, true, false, false, false, false), false));
    var touch := Touch(VM_BASE_ADDR, true, offset => None);
    FirstMapped();
    FirstTouched(map[]);
    FirstTouched(map[VM_BASE_ADDR / 0x1000 := Grant(FirstArea().flags, None)]);
    var qs := [mapping, touch, touch];
    OneMore(Fresh, qs, 0);
    OneMore(Fresh, qs, 1);
    OneMore(Fresh, qs, 2);
    assert qs[..2] == [mapping, touch] && qs[..3] == qs;
  }

  // ---------------------------------------------------------------- the page tables show it

  predicate Shown(T: Tables, root: nat, pages: map<nat, Grant>, p: nat) {
    if p in pages then Grants(PageHit(T, root, p), pages[p]) else PageHit(T, root, p).Miss?
  }

  /** In the lower half exactly the pages of the map are mapped, each with its rights and to its backing. */
  ghost predicate Shows(T: Tables, root: nat, pages: map<nat, Grant>) {
    && (forall p: nat {:trigger Shown(T, root, pages, p)} :: p < USER_PAGES ==> Shown(T, root, pages, p))
    && (forall p :: p in pages ==> p < USER_PAGES)
  }

  ghost predicate Showing(space: VirtMemManager, v: View)
    reads space, space.mem, space.areas, space.areas.repr
  {
    space.Valid() && space.areas.vmas == v.vmas && Shows(space.mem.tables, space.root, v.pages)
  }

  lemma ShowsGone(T: Tables, T': Tables, root: nat, pages: map<nat, Grant>, v: Vma)
    requires Shows(T, root, pages) && AreaOk(v) && PagesGone(T, T', root, v.start / 0x1000, End(v) / 0x1000)
    ensures Shows(T', root, Dropped(pages, v))
  {
    AreaPages(v);
    forall p: nat | p < USER_PAGES
      ensures Shown(T', root, Dropped(pages, v), p)
    {
      assert InArea(v, p) <==> v.start / 0x1000 <= p < End(v) / 0x1000;
      assert Shown(T, root, pages, p);
    }
  }

  /** A fault that ended with r, seen in the tables. */
  lemma TouchShows(T: Tables, T': Tables, root: nat, v: View, q: Request)
    requires Shows(T, root, v.pages) && q.Touch? && Bounded(v.vmas)
    requires var p, r := q.addr / 0x1000, Verdict(v.vmas, q.addr / 0x1000, q.write, q.request);
             && (r != Mapped ==> T' == T)
             && (r == Mapped ==>
                   && Grants(PageHit(T', root, p), GrantFor(v.vmas[AreaOf(v.vmas, p)], p, q.request))
                   && forall q: nat {:trigger PageHit(T', root, q)} :: q < USER_PAGES && q != p ==>
                        PageHit(T', root, q) == PageHit(T, root, q))
    ensures Shows(T', root, Effect(v, q).pages) && Effect(v, q).vmas == v.vmas
  {
    var k := AreaOf(v.vmas, q.addr / 0x1000);
    if k < |v.vmas| { CoveredIsUser(v.vmas, k, q.addr / 0x1000); }
    forall p: nat | p < USER_PAGES
      ensures Shown(T', root, Effect(v, q).pages, p)
    {
      assert Shown(T, root, v.pages, p);
    }
  }

  lemma LostIsLeaked(T: Tables, root: nat, v: View, data: map<nat, nat>, q: Request)
    requires AreasOk(v.vmas) && Resident(T, root, v.vmas, data) && Shows(T, root, v.pages) && q.Touch?
    ensures var p := q.addr / 0x1000;
            |LostBy(data, p, Verdict(v.vmas, p, q.write, q.request) == Mapped)| == Leaked(v, q)
    ensures Verdict(v.vmas, q.addr / 0x1000, q.write, q.request) == Mapped ==> q.addr / 0x1000 < USER_PAGES
  {
    var p := q.addr / 0x1000;
    var k := AreaOf(v.vmas, p);
    if k < |v.vmas| {
      CoveredIsUser(v.vmas, k, p);
      OneArea(v.vmas, k, p);
      assert PageOk(T, root, v.vmas, data, p) && Shown(T, root, v.pages, p);
    }
  }

  // ---------------------------------------------------------------- the code

  /** The frames and the other roots, when process root goes from T to T' losing lost. */
  ghost predicate Quiet(T: Tables, home: map<nat, Place>, free: set<nat>, own: set<nat>,
                        T': Tables, home': map<nat, Place>, free': set<nat>, own': set<nat>, root: nat,
                          lost: set<nat>) {
    Moved(free, own, free', own', lost) && OthersKept(T, home, T', home', root)
  }

  /** What there is of memory, and of the frames of a process, at one moment. */
  datatype Still = Still(T: Tables, home: map<nat, Place>, free: set<nat>, data: map<nat, nat>)

  ghost function Now(space: VirtMemManager): Still
    reads space, space.mem
  {
    Still(space.mem.tables, space.mem.home, space.mem.free, space.data)
  }

  ghost function OwnAt(root: nat, s: Still): set<nat> { Footprint(s.home, root, s.data) }

  /** From one moment to another: the frames of the process, and everything of the other roots. */
  ghost predicate Moves(root: nat, was: Still, now: Still, lost: set<nat>) {
    Quiet(was.T, was.home, was.free, OwnAt(root, was), now.T, now.home, now.free, OwnAt(root, now), root, lost)
  }

  ghost predicate SoundAt(root: nat, now: Still, w: View) {
    && Tree(now.T, now.home) && AllReached(now.T, now.home) && now.free !! now.T.Keys
    && SpaceOk(now.T, now.home, now.free, root, w.vmas, now.data) && Shows(now.T, root, w.pages)
  }

  /** Request q gets reply r, makes v into w, and loses lost; or it would take a page and there is no frame for it. */
  ghost predicate ServedIn(root: nat, was: Still, v: View, q: Request, ok: bool, r: Reply, now: Still, w: View,
                           lost: set<nat>) {
    if !ok then NeedsPage(v, q) && now.free == {}
    else
      && r == Answer(v, q) && w == Effect(v, q) && |lost| == Leaked(v, q)
      && SoundAt(root, now, w) && Moves(root, was, now, lost)
  }

  /** The same, asked of any address space that is like v. */
  ghost predicate Served(root: nat, was: Still, v: View, q: Request, ok: bool, r: Reply, now: Still, w: View,
                         lost: set<nat>) {
    forall u: View {:trigger ServedIn(root, was, u, q, ok, r, now, w, lost)} :: u == v ==>
      ServedIn(root, was, u, q, ok, r, now, w, lost)
  }

  lemma StillMoves(root: nat, now: Still, v: View)
    requires SoundAt(root, now, v)
    ensures Moves(root, now, now, {})
  {
    StillConserved(now.T, now.home, now.free, root, v.vmas, now.data);
  }

  lemma UnmapServed(root: nat, was: Still, v: View, q: Request, result: UnmapResult, now: Still)
    requires q.Change? && q.op.Unmap? && Shows(was.T, root, v.pages) && AreasOk(v.vmas)
    requires result == Found(v.vmas, q.op.start, q.op.size) && OthersKept(was.T, was.home, now.T, now.home, root)
    requires Conserved(was.free, OwnAt(root, was), now.free, OwnAt(root, now))
    requires Tree(now.T, now.home) && AllReached(now.T, now.home) && now.free !! now.T.Keys
    requires SpaceOk(now.T, now.home, now.free, root, Apply(v.vmas, q.op), now.data)
    requires if result != Unmapped then now.T == was.T
             else var a := v.vmas[FirstAt(v.vmas, q.op.start)];
               PagesGone(was.T, now.T, root, a.start / 0x1000, End(a) / 0x1000)
    ensures ServedIn(root, was, v, q, true, Removed(result), now, Effect(v, q), {})
  {
    NoneLost(was.free, OwnAt(root, was), now.free, OwnAt(root, now));
    if result == Unmapped { ShowsGone(was.T, now.T, root, v.pages, v.vmas[FirstAt(v.vmas, q.op.start)]); }
  }

  lemma NoneLost(free: set<nat>, own: set<nat>, free': set<nat>, own': set<nat>)
    requires Conserved(free, own, free', own')
    ensures Moved(free, own, free', own', {})
  {
  }

  /** `munmap` as the simple form has it. */
  method ServeUnmap(space: VirtMemManager, q: Request, ghost v: View) returns (r: Reply)
    requires Showing(space, v) && q.Change? && q.op.Unmap?
    modifies space`data, space.mem, space.areas, space.areas.repr
    ensures space.areas.repr == old(space.areas.repr)
    ensures ServedIn(space.root, old(Now(space)), v, q, true, r, Now(space), Effect(v, q), {})
    ensures space.mem.Valid() && space.areas.Valid() && space.areas.vmas == Effect(v, q).vmas
  {
    ghost var was := Now(space);
    var result := space.Munmap(q.op.start, q.op.size);
    ghost var now := Now(space);
    assert Conserved(was.free, OwnAt(space.root, was), now.free, OwnAt(space.root, now));
    assert OthersKept(was.T, was.home, now.T, now.home, space.root);
    UnmapServed(space.root, was, v, q, result, now);
    r := Removed(result);
  }

  /** `mmap` and `mmappingvmo_at`: no page moves. */
  method ServeMap(space: VirtMemManager, q: Request, ghost v: View) returns (r: Reply)
    requires Showing(space, v) && q.Change? && !q.op.Unmap?
    modifies space.areas, space.areas.repr
    ensures fresh(space.areas.repr - old(space.areas.repr))
    ensures r == Answer(v, q) && Showing(space, Effect(v, q))
  {
    r := PassedOver;
    match q.op
    case Map(size, flags, backed) =>
      if !flags.huge && (space.areas.head == null ==> VM_BASE_ADDR + RoundUp(size, false) <= VM_MAX_ALLOWED) {
        var at := space.Mmap(size, flags, backed);
        r := Placed(at);
      }
    case MapAt(start, size, flags) =>
      if !flags.huge && start % 0x1000 == 0 && start + RoundUp(size, false) <= VM_MAX_ALLOWED {
        var at := space.MmapAt(start, size, flags);
        r := Placed(at);
      }
  }

  lemma TouchServed(root: nat, was: Still, v: View, q: Request, now: Still, lost: set<nat>)
    requires q.Touch? && Shows(was.T, root, v.pages) && Resident(was.T, root, v.vmas, was.data)
    requires Moves(root, was, now, lost)
    requires var p, r := q.addr / 0x1000, Verdict(v.vmas, q.addr / 0x1000, q.write, q.request);
             && lost == LostBy(was.data, p, r == Mapped)
             && (r != Mapped ==> now.T == was.T)
             && (r == Mapped ==>
                   && Grants(PageHit(now.T, root, p), GrantFor(v.vmas[AreaOf(v.vmas, p)], p, q.request))
                   && forall q: nat {:trigger PageHit(now.T, root, q)} :: q < USER_PAGES && q != p ==>
                        PageHit(now.T, root, q) == PageHit(was.T, root, q))
    requires Tree(now.T, now.home) && AllReached(now.T, now.home) && now.free !! now.T.Keys
    requires SpaceOk(now.T, now.home, now.free, root, v.vmas, now.data)
    ensures ServedIn(root, was, v, q, true, Answer(v, q), now, Effect(v, q), lost)
  {
    LostIsLeaked(was.T, root, v, was.data, q);
    TouchShows(was.T, now.T, root, v, q);
  }

  /** `handle_page_fault` as the simple form has it, unless the allocator is exhausted. */
  method ServeTouch(space: VirtMemManager, q: Request, ghost v: View)
    returns (ok: bool, r: Reply, ghost lost: set<nat>)
    requires Showing(space, v) && q.Touch?
    modifies space`data, space.mem
    ensures ServedIn(space.root, old(Now(space)), v, q, ok, r, Now(space), Effect(v, q), lost)
    ensures ok ==> space.mem.Valid() && space.areas.Valid() && space.areas.vmas == Effect(v, q).vmas
  {
    ghost var was := Now(space);
    lost := LostBy(space.data, q.addr / 0x1000, Verdict(v.vmas, q.addr / 0x1000, q.write, q.request) == Mapped);
    var result := space.Fault(q.addr, q.write, q.request);
    ok, r := result != Panic, Faulted(result);
    if ok { TouchServed(space.root, was, v, q, Now(space), lost); }
  }

  /** One request of the process; a panic is the only other outcome, and only of an exhausted allocator. */
  method Serve(space: VirtMemManager, q: Request, ghost v: View)
    returns (ok: bool, r: Reply, ghost w: View, ghost lost: set<nat>)
    requires Showing(space, v)
    modifies space`data, space.mem, space.areas, space.areas.repr
    ensures fresh(space.areas.repr - old(space.areas.repr))
    ensures Served(space.root, old(Now(space)), v, q, ok, r, Now(space), w, lost)
    ensures ok ==> space.mem.Valid() && space.areas.Valid() && space.areas.vmas == w.vmas
  {
    ok, lost, w := true, {}, Effect(v, q);
    if q.Touch? {
      ok, r, lost := ServeTouch(space, q, v);
    } else if q.op.Unmap? {
      r := ServeUnmap(space, q, v);
    } else {
      StillMoves(space.root, Now(space), v);
      r := ServeMap(space, q, v);
      assert ServedIn(space.root, old(Now(space)), v, q, ok, r, Now(space), w, lost);
    }
  }

  // ---------------------------------------------------------------- whole runs

  /** After n of the requests: the address space, the answers and the loss are those of the simple form. */
  ghost predicate RanIn(root: nat, was: Still, v: View, qs: seq<Request>, n: nat, now: Still, w: View, rs: seq<Reply>,
                        lost: set<nat>) {
    Told(v, qs, n, w, rs, |lost|) && SoundAt(root, now, w) && Moves(root, was, now, lost)
  }

  predicate Told(v: View, qs: seq<Request>, n: nat, w: View, rs: seq<Reply>, lost: nat) {
    n <= |qs| && w == After(v, qs[..n]) && rs == Answers(v, qs[..n]) && lost == Leaks(v, qs[..n])
  }

  /** The same, of any address space that was like v. */
  ghost predicate Ran(root: nat, was: Still, v: View, qs: seq<Request>, n: nat, now: Still, w: View, rs: seq<Reply>,
                      lost: set<nat>) {
    forall u: View {:trigger RanIn(root, was, u, qs, n, now, w, rs, lost)} :: u == v ==>
      RanIn(root, was, u, qs, n, now, w, rs, lost)
  }

  /** Stopped after n requests: the next takes a page, and there is no frame. */
  ghost predicate Cut(v: View, qs: seq<Request>, n: nat, rs: seq<Reply>, free: set<nat>) {
    && free == {} && |rs| == n < |qs| && rs == Answers(v, qs[..n]) && NeedsPage(After(v, qs[..n]), qs[n])
  }

  lemma OneMore(v: View, qs: seq<Request>, n: nat)
    requires n < |qs|
    ensures After(v, qs[..n + 1]) == Effect(After(v, qs[..n]), qs[n])
    ensures Answers(v, qs[..n + 1]) == Answers(v, qs[..n]) + [Answer(After(v, qs[..n]), qs[n])]
    ensures Leaks(v, qs[..n + 1]) == Leaks(v, qs[..n]) + Leaked(After(v, qs[..n]), qs[n])
  {
    assert qs[..n + 1][..n] == qs[..n];
  }

  /** One move after another; what the second loses the first still had. */
  lemma MovesTrans(root: nat, a: Still, b: Still, c: Still, lost: set<nat>, more: set<nat>)
    requires Moves(root, a, b, lost) && Moves(root, b, c, more)
    ensures Moves(root, a, c, lost + more) && |lost + more| == |lost| + |more|
  {
    OthersTrans(a.T, a.home, b.T, b.home, c.T, c.home, root);
    MovedTrans(a.free, OwnAt(root, a), b.free, OwnAt(root, b), c.free, OwnAt(root, c), lost, more);
  }

  lemma MovedTrans(free: set<nat>, own: set<nat>, free1: set<nat>, own1: set<nat>, free2: set<nat>, own2: set<nat>,
                   lost: set<nat>, more: set<nat>)
    requires Moved(free, own, free1, own1, lost) && Moved(free1, own1, free2, own2, more)
    ensures Moved(free, own, free2, own2, lost + more) && |lost + more| == |lost| + |more|
  {
    assert free2 + own2 + more == free1 + own1;
    assert lost !! free2 + own2 + more;
    assert free + own == free2 + own2 + more + lost;
  }

  lemma RanNone(root: nat, was: Still, v: View, qs: seq<Request>)
    requires SoundAt(root, was, v)
    ensures Ran(root, was, v, qs, 0, was, v, [], {})
  {
    StillMoves(root, was, v);
    assert RanIn(root, was, v, qs, 0, was, v, [], {});
  }

  lemma ToldNext(v: View, qs: seq<Request>, n: nat, w: View, rs: seq<Reply>, lost: nat)
    requires n < |qs| && Told(v, qs, n, w, rs, lost)
    ensures Told(v, qs, n + 1, Effect(w, qs[n]), rs + [Answer(w, qs[n])], lost + Leaked(w, qs[n]))
    ensures NeedsPage(w, qs[n]) ==> Cut(v, qs, n, rs, {})
  {
    OneMore(v, qs, n);
  }

  lemma RanNext(root: nat, was: Still, v: View, qs: seq<Request>, n: nat, now: Still, w: View, rs: seq<Reply>,
                lost: set<nat>, ok: bool, r: Reply, end: Still, x: View, more: set<nat>)
    requires n < |qs| && Ran(root, was, v, qs, n, now, w, rs, lost)
    requires Served(root, now, w, qs[n], ok, r, end, x, more)
    ensures ok ==> Ran(root, was, v, qs, n + 1, end, x, rs + [r], lost + more)
    ensures !ok ==> Cut(v, qs, n, rs, end.free)
  {
    assert RanIn(root, was, v, qs, n, now, w, rs, lost) && ServedIn(root, now, w, qs[n], ok, r, end, x, more);
    ToldNext(v, qs, n, w, rs, |lost|);
    if ok { MovesTrans(root, was, now, end, lost, more); }
  }

  /** The next request of a run. */
  method ServeNext(space: VirtMemManager, qs: seq<Request>, n: nat, rs: seq<Reply>, ghost was: Still, ghost v: View,
                   ghost w: View, ghost lost: set<nat>)
    returns (ok: bool, told: seq<Reply>, ghost x: View, ghost gone: set<nat>)
    requires n < |qs| && Ran(space.root, was, v, qs, n, Now(space), w, rs, lost)
    requires space.mem.Valid() && space.areas.Valid() && space.areas.vmas == w.vmas
    modifies space`data, space.mem, space.areas, space.areas.repr
    ensures fresh(space.areas.repr - old(space.areas.repr))
    ensures !ok ==> Cut(v, qs, n, told, space.mem.free)
    ensures ok ==> Ran(space.root, was, v, qs, n + 1, Now(space), x, told, gone)
    ensures ok ==> space.mem.Valid() && space.areas.Valid() && space.areas.vmas == x.vmas
  {
    ghost var now := Now(space);
    assert RanIn(space.root, was, v, qs, n, now, w, rs, lost);
    var r;
    ghost var more;
    ok, r, x, more := Serve(space, qs[n], w);
    RanNext(space.root, was, v, qs, n, now, w, rs, lost, ok, r, Now(space), x, more);
    told, gone := if ok then rs + [r] else rs, lost + more;
  }

  /** Any requests of one process, to the last or until a page is needed and no frame is left. */
  method ServeAll(space: VirtMemManager, qs: seq<Request>, ghost v: View)
    returns (ok: bool, rs: seq<Reply>, ghost w: View, ghost lost: set<nat>)
    requires Showing(space, v)
    modifies space`data, space.mem, space.areas, space.areas.repr
    ensures fresh(space.areas.repr - old(space.areas.repr))
    ensures !ok ==> Cut(v, qs, |rs|, rs, space.mem.free)
    ensures ok ==> Ran(space.root, old(Now(space)), v, qs, |qs|, Now(space), w, rs, lost)
    ensures ok ==> space.mem.Valid() && space.areas.Valid() && space.areas.vmas == w.vmas
  {
    ghost var was := Now(space);
    RanNone(space.root, was, v, qs);
    ok, rs, w, lost := true, [], v, {};
    for n := 0 to |qs|
      invariant ok && Ran(space.root, was, v, qs, n, Now(space), w, rs, lost)
      invariant space.mem.Valid() && space.areas.Valid() && space.areas.vmas == w.vmas
      invariant fresh(space.areas.repr - old(space.areas.repr))
    {
      ok, rs, w, lost := ServeNext(space, qs, n, rs, was, v, w, lost);
      if !ok { return; }
    }
  }

  lemma EndMoves(root: nat, was: Still, now: Still, T: Tables, home: map<nat, Place>, free: set<nat>, lost: set<nat>)
    requires Moves(root, was, now, lost) && OthersKept(now.T, now.home, T, home, root)
    requires free == now.free + OwnAt(root, now)
    ensures Quiet(was.T, was.home, was.free, OwnAt(root, was), T, home, free, {}, root, lost)
  {
    OthersTrans(was.T, was.home, now.T, now.home, T, home, root);
  }

  method ServeAndEnd(space: VirtMemManager, qs: seq<Request>)
    returns (ok: bool, rs: seq<Reply>, ghost lost: set<nat>)
    requires Showing(space, Fresh)
    modifies space`data, space.mem, space.areas, space.areas.repr
    ensures !ok ==> Cut(Fresh, qs, |rs|, rs, space.mem.free)
    ensures ok ==> rs == Answers(Fresh, qs) && |lost| == Leaks(Fresh, qs)
    ensures ok ==> space.mem.Valid() && AllReached(space.mem.tables, space.mem.home)
    ensures ok ==> Quiet(old(space.mem.tables), old(space.mem.home), old(space.mem.free), old(space.Own()),
                         space.mem.tables, space.mem.home, space.mem.free, {}, space.root, lost)
  {
    ghost var was, w := Now(space), Fresh;
    ok, rs, w, lost := ServeAll(space, qs, Fresh);
    if ok {
      ghost var now := Now(space);
      assert RanIn(space.root, was, Fresh, qs, |qs|, now, w, rs, lost) && qs[..|qs|] == qs;
      space.TearDown();
      EndMoves(space.root, was, now, space.mem.tables, space.mem.home, space.mem.free, lost);
    }
  }

  /**
   A process from creation through any requests to its end. Every answer is the simple form's, every other root
   translates as before, and the allocator ends with exactly the frames it had but for one per leaking fault.
   */
  method Life(mem: Memory, active: nat, qs: seq<Request>) returns (ok: bool, rs: seq<Reply>)
    requires mem.Valid() && AllReached(mem.tables, mem.home) && IsRoot(mem.home, active)
    modifies mem
    ensures ok ==> mem.Valid() && AllReached(mem.tables, mem.home) && rs == Answers(Fresh, qs)
    ensures ok ==> mem.free <= old(mem.free) && |old(mem.free) - mem.free| == Leaks(Fresh, qs)
    ensures ok ==> (mem.free == old(mem.free) <==> Leaks(Fresh, qs) == 0)
    ensures ok ==> forall r, x {:trigger Walk(mem.tables, r, x)} :: IsRoot(old(mem.home), r) && InRange(x) ==>
              Walk(mem.tables, r, x) == old(Walk(mem.tables, r, x))
    ensures !ok ==> mem.free == {} && (old(mem.free) == {} || Cut(Fresh, qs, |rs|, rs, mem.free))
  {
    ghost var T0, home0 := mem.tables, mem.home;
    rs := [];
    var space := NewSpace(mem, active);
    if space == null { return false, rs; }
    ghost var T1, home1, free1, own1 := mem.tables, mem.home, mem.free, space.Own();
    FreshShown(mem.tables, space.root, space.data);
    ghost var lost;
    ok, rs, lost := ServeAndEnd(space, qs);
    if !ok { return; }
    OthersTrans(T0, home0, T1, home1, mem.tables, mem.home, space.root);
    LostCount(old(mem.free), free1, own1, mem.free, lost);
  }

  lemma LostCount(free: set<nat>, free1: set<nat>, own1: set<nat>, free2: set<nat>, lost: set<nat>)
    requires Conserved(free, {}, free1, own1) && Moved(free1, own1, free2, {}, lost)
    ensures free2 <= free && |free - free2| == |lost| && (free2 == free <==> |lost| == 0)
  {
    assert free - free2 == lost;
  }

  lemma FreshShown(T: Tables, root: nat, data: map<nat, nat>)
    requires Resident(T, root, [], data)
    ensures Shows(T, root, map[])
  {
    forall p: nat | p < USER_PAGES
      ensures Shown(T, root, map[], p)
    {
      assert PageOk(T, root, [], data, p);
    }
  }
}
