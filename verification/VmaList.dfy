/** The areas of a process as the kernel keeps them: doubly linked nodes, searched and spliced by pointer. */
module VmaList {
  import opened Wrappers
  import opened VmaSpec

  class VmaNode {
    const start: nat
    const size: nat
    const backed: bool
    var flags: VmFlags
    var prev: VmaNode?
    var next: VmaNode?

    constructor (start: nat, size: nat, flags: VmFlags, backed: bool, prev: VmaNode?, next: VmaNode?)
      ensures this.start == start && this.size == size && this.flags == flags && this.backed == backed
      ensures this.prev == prev && this.next == next
    {
      this.start, this.size, this.flags, this.backed := start, size, flags, backed;
      this.prev, this.next := prev, next;
    }

    ghost function Value(): Vma
      reads this
    {
      Vma(start, size, flags, backed)
    }
  }

  datatype Detached = Gone(node: VmaNode) | SizeMismatch | NotFound

  datatype UnmapResult = Unmapped | WrongSize | NoArea

  lemma FirstAtIs(vs: seq<Vma>, start: nat, k: nat)
    requires k <= |vs| && (forall i :: 0 <= i < k ==> vs[i].start != start) && (k < |vs| ==> vs[k].start == start)
    ensures FirstAt(vs, start) == k
  {
  }

  lemma PlaceIndexIs(vs: seq<Vma>, start: nat, k: nat)
    requires k <= |vs| && (forall i :: 0 <= i < k ==> vs[i].start <= start) && (k < |vs| ==> vs[k].start > start)
    ensures PlaceIndex(vs, start) == k
  {
  }

  lemma InsertDistinct(nodes: seq<VmaNode>, repr: set<VmaNode>, k: nat, node: VmaNode)
    requires k <= |nodes| && node !in repr && forall i :: 0 <= i < |nodes| ==> nodes[i] in repr
    requires forall i, j :: 0 <= i < j < |nodes| ==> nodes[i] != nodes[j]
    ensures var now := nodes[..k] + [node] + nodes[k..];
            && (forall i, j :: 0 <= i < j < |now| ==> now[i] != now[j])
            && (forall i :: 0 <= i < |now| ==> now[i] in repr + {node})
  {
  }

  ghost function Nth(nodes: seq<VmaNode>, i: int): VmaNode? {
    if 0 <= i < |nodes| then nodes[i] else null
  }

  class Areas {
    var head: VmaNode?
    ghost var nodes: seq<VmaNode>
    ghost var vmas: seq<Vma>
    ghost var repr: set<VmaNode>

    /** Node i knows its neighbours and holds area i. */
    ghost predicate NodeAt(i: int)
      requires 0 <= i < |nodes| && |vmas| == |nodes| && nodes[i] in repr
      reads this, repr
    {
      nodes[i].prev == Nth(nodes, i - 1) && nodes[i].next == Nth(nodes, i + 1) && nodes[i].Value() == vmas[i]
    }

    /** The nodes from head on are linked both ways, no node twice, and hold the areas vmas. */
    ghost predicate Valid()
      reads this, repr
    {
      && head == Nth(nodes, 0)
      && |vmas| == |nodes|
      && (forall i :: 0 <= i < |nodes| ==> nodes[i] in repr)
      && (forall i, j :: 0 <= i < j < |nodes| ==> nodes[i] != nodes[j])
      && (forall i {:trigger NodeAt(i)} :: 0 <= i < |nodes| ==> NodeAt(i))
    }

    constructor ()
      ensures Valid() && vmas == [] && repr == {}
    {
      head, nodes, vmas, repr := null, [], [], {};
    }

    /** The pointer updates shared by both ways of mapping. */
    method Splice(ghost k: nat, prev: VmaNode?, next: VmaNode?, node: VmaNode)
      requires Valid() && k <= |nodes| && prev == Nth(nodes, k - 1) && next == Nth(nodes, k) && node !in repr
      requires node.prev == prev && node.next == next
      modifies this, repr
      ensures Valid() && nodes == old(nodes)[..k] + [node] + old(nodes)[k..]
      ensures vmas == Insert(old(vmas), k, node.Value()) && repr == old(repr) + {node}
    {
      if prev != null { prev.next := node; } else { head := node; }
      if next != null { next.prev := node; }
      InsertDistinct(nodes, repr, k, node);
      nodes := nodes[..k] + [node] + nodes[k..];
      vmas, repr := Insert(vmas, k, node.Value()), repr + {node};
      forall i | 0 <= i < |nodes|
        ensures NodeAt(i)
      {
        if i < k { assert old(NodeAt(i)); }
        if i > k { assert old(NodeAt(i - 1)); }
      }
    }

    /** The search of `mmap_internal`: the gap and the nodes around it. */
    method Search(size: nat, huge: bool) returns (gap: Option<nat>, prev: VmaNode?, current: VmaNode?, ghost k: nat)
      requires Valid()
      ensures gap.None? <==> FindGap(vmas, size, huge).None?
      ensures gap.Some? ==> FindGap(vmas, size, huge) == Some((gap.value, k)) && k <= |nodes|
      ensures gap.Some? ==> prev == Nth(nodes, k - 1) && current == Nth(nodes, k)
    {
      gap, prev, current, k := None, null, head, 0;
      var base := VM_BASE_ADDR;
      if head == null { return Some(base), null, null, 0; }
      assert NodeAt(0);
      if head.start > base && head.start - base >= size { return Some(base), null, head, 0; }
      while current != null
        invariant k <= |nodes| && current == Nth(nodes, k) && prev == Nth(nodes, k - 1)
        invariant FindGap(vmas, size, huge) == ScanGap(vmas, if k < |vmas| then k else |vmas| - 1, size, huge)
        decreases |nodes| - k
      {
        assert NodeAt(k);
        base := RoundUp(current.start + current.size, huge);
        prev, current, k := current, current.next, k + 1;
        if current != null {
          assert NodeAt(k);
          if current.start > base && current.start - base >= size { return Some(base), prev, current, k; }
        }
      }
      assert NodeAt(k - 1);
      base := RoundUp(prev.start + prev.size, huge);
      if (VM_MAX_ALLOWED - base) % WORD >= size { gap := Some(base); }
    }

    /** `mmap_internal`: the areas change exactly by the first fit. */
    method Mmap(rawSize: nat, flags: VmFlags, backed: bool) returns (r: Option<nat>)
      requires Valid()
      modifies this, repr
      ensures Valid() && fresh(repr - old(repr))
      ensures var size := RoundUp(rawSize, flags.huge);
              match FindGap(old(vmas), size, flags.huge)
              case None => r.None? && vmas == old(vmas)
              case Some((addr, k)) =>
                r == Some(addr) && k <= |old(vmas)| && vmas == Insert(old(vmas), k, Vma(addr, size, flags, backed))
    {
      var size := RoundUp(rawSize, flags.huge);
      var gap, prev, current, k := Search(size, flags.huge);
      if gap.None? { return None; }
      var node := new VmaNode(gap.value, size, flags, backed, prev, current);
      Splice(k, prev, current, node);
      r := gap;
    }

    /** `mmap_vmo_at`. */
    method MmapAt(start: nat, rawSize: nat, flags: VmFlags) returns (r: Option<nat>)
      requires Valid()
      modifies this, repr
      ensures Valid() && fresh(repr - old(repr))
      ensures var size := RoundUp(rawSize, false);
              match PlaceAt(old(vmas), start, size)
              case None => r.None? && vmas == old(vmas)
              case Some(k) =>
                && r == Some(start) && k <= |old(vmas)|
                && vmas == Insert(old(vmas), k, Vma(start, size, flags, true))
    {
      var size := RoundUp(rawSize, false);
      var prev: VmaNode?, current := null, head;
      ghost var k := 0;
      while current != null
        invariant k <= |nodes| && current == Nth(nodes, k) && prev == Nth(nodes, k - 1)
        invariant forall i :: 0 <= i < k ==> vmas[i].start <= start
        decreases |nodes| - k
      {
        assert NodeAt(k);
        if current.start > start { break; }
        prev, current, k := current, current.next, k + 1;
      }
      if k < |nodes| { assert NodeAt(k); }
      PlaceIndexIs(vmas, start, k);
      if prev != null {
        assert NodeAt(k - 1);
        if (prev.start + prev.size) % WORD > start { return None; }
      }
      if current != null {
        if (start + size) % WORD > current.start { return None; }
      }
      var node := new VmaNode(start, size, flags, true, prev, current);
      Splice(k, prev, current, node);
      r := Some(start);
    }

    /** The first node whose area contains the address. */
    method Find(addr: nat) returns (node: VmaNode?, ghost k: nat)
      requires Valid()
      ensures node == null ==> forall i :: 0 <= i < |vmas| ==> !(vmas[i].start <= addr < End(vmas[i]))
      ensures node != null ==>
                k < |nodes| && node == nodes[k] && vmas[k].start <= addr < End(vmas[k]) && node.Value() == vmas[k]
    {
      node, k := head, 0;
      while node != null
        invariant k <= |nodes| && node == Nth(nodes, k)
        invariant forall i :: 0 <= i < k ==> !(vmas[i].start <= addr < End(vmas[i]))
        decreases |nodes| - k
      {
        assert NodeAt(k);
        if node.start <= addr < node.start + node.size { return; }
        node, k := node.next, k + 1;
      }
    }

    /** The list half of `munmap`: the first area with this start leaves, if it has this size. */
    method Detach(start: nat, size: nat) returns (r: Detached)
      requires Valid()
      modifies this, repr
      ensures Valid() && repr == old(repr)
      ensures var k := FirstAt(old(vmas), start);
              if k == |old(vmas)| then r == NotFound && vmas == old(vmas)
              else if old(vmas)[k].size != size then r == SizeMismatch && vmas == old(vmas)
              else
                && r.Gone? && r.node in old(nodes) && r.node !in nodes && r.node.Value() == old(vmas)[k]
                && vmas == old(vmas)[..k] + old(vmas)[k + 1..]
    {
      var current := head;
      ghost var k := 0;
      while current != null
        invariant k <= |nodes| && current == Nth(nodes, k)
        invariant forall i :: 0 <= i < k ==> vmas[i].start != start
        decreases |nodes| - k
      {
        assert NodeAt(k);
        if current.start == start { break; }
        current, k := current.next, k + 1;
      }
      FirstAtIs(vmas, start, k);
      if current == null { return NotFound; }
      if current.size != size { return SizeMismatch; }
      Unlink(k, current);
      r := Gone(current);
    }

    /** The bounds and backing of the area that is taken off, or why none is. */
    method Take(start: nat, size: nat) returns (r: UnmapResult, from: nat, to: nat, backed: bool)
      requires Valid()
      modifies this, repr
      ensures Valid() && repr == old(repr)
      ensures var k := FirstAt(old(vmas), start);
              if k == |old(vmas)| then r == NoArea && vmas == old(vmas)
              else if old(vmas)[k].size != size then r == WrongSize && vmas == old(vmas)
              else
                && r == Unmapped && from == old(vmas)[k].start && to == End(old(vmas)[k])
                && backed == old(vmas)[k].backed && vmas == old(vmas)[..k] + old(vmas)[k + 1..]
    {
      var d := Detach(start, size);
      match d
      case NotFound => r, from, to, backed := NoArea, 0, 0, false;
      case SizeMismatch => r, from, to, backed := WrongSize, 0, 0, false;
      case Gone(node) => r, from, to, backed := Unmapped, node.start, node.start + node.size, node.backed;
    }

    method Unlink(ghost k: nat, node: VmaNode)
      requires Valid() && k < |nodes| && node == nodes[k]
      modifies this, repr
      ensures Valid() && nodes == old(nodes)[..k] + old(nodes)[k + 1..] && vmas == old(vmas)[..k] + old(vmas)[k + 1..]
      ensures node.Value() == old(vmas)[k] && repr == old(repr)
    {
      assert NodeAt(k);
      if node.prev != null { node.prev.next := node.next; } else { head := node.next; }
      if node.next != null { node.next.prev := node.prev; }
      nodes := nodes[..k] + nodes[k + 1..];
      vmas := vmas[..k] + vmas[k + 1..];
      forall i | 0 <= i < |nodes|
        ensures NodeAt(i)
      {
        if i < k { assert old(NodeAt(i)); } else { assert old(NodeAt(i + 1)); }
      }
    }
  }
}
