/**
 The ext2 block cache: write-back, second-chance eviction, over a device whose transfers may
 fail half way. Operations do not overlap here; the environment decides how each transfer ends.
 */
module BlockCache {
  import opened Wrappers
  import opened Bits

  type Sector = seq<bv8>

  /** How the device ends one transfer. A failed one may leave anything in the sectors or the buffer it covered. */
  datatype Outcome = Done | Failed(torn: seq<Sector>)

  /** `Stuck` is the spin on a slot left in flight: the yield loop that nothing will ever end. */
  datatype Reply = Ok(data: seq<Sector>) | Err | Stuck

  datatype Entry = Entry(block: Option<nat>, referenced: bool, dirty: bool, inFlight: bool, data: seq<Sector>)

  // ---------------------------------------------------------------- the device

  predicate InRange(disk: seq<Sector>, spb: nat, b: nat) {
    b * spb + spb <= |disk|
  }

  function DiskBlock(disk: seq<Sector>, spb: nat, b: nat): seq<Sector>
    requires InRange(disk, spb, b)
  {
    disk[b * spb..b * spb + spb]
  }

  function Overwrite(disk: seq<Sector>, spb: nat, b: nat, data: seq<Sector>): seq<Sector>
    requires InRange(disk, spb, b) && |data| == spb
  {
    disk[..b * spb] + data + disk[b * spb + spb..]
  }

  lemma BlocksApart(b: nat, c: nat, spb: nat)
    requires b < c
    ensures b * spb + spb <= c * spb
  {
    MulSign(c - b, spb);
    assert c * spb == b * spb + (c - b) * spb;
  }

  /** Overwriting one block's sectors changes that block and no other. */
  lemma OverwriteOne(disk: seq<Sector>, spb: nat, b: nat, data: seq<Sector>, c: nat)
    requires InRange(disk, spb, b) && |data| == spb
    ensures |Overwrite(disk, spb, b, data)| == |disk|
    ensures InRange(disk, spb, c) ==>
              DiskBlock(Overwrite(disk, spb, b, data), spb, c) == if c == b then data else DiskBlock(disk, spb, c)
  {
    var d := Overwrite(disk, spb, b, data);
    if c != b && InRange(disk, spb, c) {
      if b < c { BlocksApart(b, c, spb); } else { BlocksApart(c, b, spb); }
      assert DiskBlock(d, spb, c) == DiskBlock(disk, spb, c);
    } else if c == b {
      assert DiskBlock(d, spb, b) == data;
    }
  }

  // ---------------------------------------------------------------- logical content

  predicate Clean(e: Entry) { !e.dirty && !e.inFlight && e.block.Some? }

  /** Index of the first entry for block b, or the number of entries. */
  function Find(entries: seq<Entry>, b: nat): (i: nat)
    ensures i <= |entries|
    ensures i < |entries| ==> entries[i].block == Some(b)
    ensures forall j :: 0 <= j < i ==> entries[j].block != Some(b)
  {
    if entries == [] || entries[0].block == Some(b) then 0
    else
      var r := Find(entries[1..], b);
      assert forall j :: 1 <= j < r + 1 ==> entries[j] == entries[1..][j - 1];
      r + 1
  }

  /** What a reader of block b is owed: the dirty entry's data, else what the disk holds, else nothing. */
  function Logical(entries: seq<Entry>, disk: seq<Sector>, spb: nat, b: nat): Option<seq<Sector>> {
    var i := Find(entries, b);
    if i < |entries| && entries[i].dirty then Some(entries[i].data)
    else OnDisk(disk, spb, b)
  }

  function OnDisk(disk: seq<Sector>, spb: nat, b: nat): Option<seq<Sector>> {
    if InRange(disk, spb, b) then Some(DiskBlock(disk, spb, b)) else None
  }

  /** Each block sits in at most one entry, dirty entries name a block, and clean settled ones equal the disk. */
  ghost predicate Coherent(entries: seq<Entry>, disk: seq<Sector>, spb: nat) {
    && (forall i, j ::
          0 <= i < |entries| && 0 <= j < |entries| && entries[i].block.Some? && entries[i].block == entries[j].block ==>
          i == j)
    && (forall i :: 0 <= i < |entries| ==> |entries[i].data| == spb)
    && (forall i :: 0 <= i < |entries| && entries[i].dirty ==> entries[i].block.Some?)
    && (forall i :: 0 <= i < |entries| && Clean(entries[i]) ==>
          OnDisk(disk, spb, entries[i].block.value) == Some(entries[i].data))
  }

  /** With one entry a block, the entry found is the only one that counts. */
  lemma LogicalAt(entries: seq<Entry>, disk: seq<Sector>, spb: nat, i: nat)
    requires Coherent(entries, disk, spb) && i < |entries| && entries[i].block.Some?
    ensures Find(entries, entries[i].block.value) == i
    ensures Logical(entries, disk, spb, entries[i].block.value) ==
            if entries[i].dirty then Some(entries[i].data) else OnDisk(disk, spb, entries[i].block.value)
  {
  }

  /** Entries that agree on which blocks are dirty and with what give the same logical content. */
  lemma SameDirty(e: seq<Entry>, e': seq<Entry>, disk: seq<Sector>, disk': seq<Sector>, spb: nat, b: nat)
    requires Coherent(e, disk, spb) && Coherent(e', disk', spb)
    requires forall i :: 0 <= i < |e| && e[i].dirty && e[i].block == Some(b) ==>
               i < |e'| && e'[i].dirty && e'[i].block == Some(b) && e'[i].data == e[i].data
    requires forall i :: 0 <= i < |e'| && e'[i].dirty && e'[i].block == Some(b) ==>
               i < |e| && e[i].dirty && e[i].block == Some(b)
    requires (forall i :: 0 <= i < |e| && e[i].block == Some(b) ==> !e[i].dirty) ==>
               OnDisk(disk, spb, b) == OnDisk(disk', spb, b)
    ensures Logical(e, disk, spb, b) == Logical(e', disk', spb, b)
  {
  }

  // ---------------------------------------------------------------- the clock

  /** The k-th slot from the hand, in circular order, over at most two turns. */
  function Slot(hand: nat, k: nat, n: nat): nat
    requires hand < n && k <= 2 * n
  {
    if hand + k < n then hand + k else if hand + k < 2 * n then hand + k - n else hand + k - 2 * n
  }

  lemma SlotNext(hand: nat, k: nat, n: nat)
    requires hand < n && k < 2 * n && Slot(hand, k, n) < n
    ensures (Slot(hand, k, n) + 1) % n == Slot(hand, k + 1, n) < n
  {
    var s := Slot(hand, k, n);
    if s + 1 == n {
      assert (s + 1) % n == 0;
    } else {
      assert (s + 1) % n == s + 1;
    }
  }

  predicate Evictable(e: Entry) { !e.inFlight && !e.referenced }

  /** How many of the first k slots from the hand are in flight. */
  ghost function InFlightBefore(entries: seq<Entry>, hand: nat, k: nat): nat
    requires hand < |entries| && k <= 2 * |entries|
  {
    if k == 0 then 0
    else InFlightBefore(entries, hand, k - 1) +
         (var s := Slot(hand, k - 1, |entries|); if s < |entries| && entries[s].inFlight then 1 else 0)
  }

  lemma {:induction false} InFlightBounds(entries: seq<Entry>, hand: nat, k: nat)
    requires hand < |entries| && k <= 2 * |entries|
    ensures InFlightBefore(entries, hand, k) <= k
    ensures (forall j :: 0 <= j < k ==>
               Slot(hand, j, |entries|) < |entries| && entries[Slot(hand, j, |entries|)].inFlight)
            <==> InFlightBefore(entries, hand, k) == k
    decreases k
  {
    if k > 0 { InFlightBounds(entries, hand, k - 1); }
  }

  /** The second turn meets the same slots as the first. */
  lemma {:induction false} SecondTurn(entries: seq<Entry>, hand: nat, m: nat)
    requires hand < |entries| && m <= |entries|
    ensures InFlightBefore(entries, hand, |entries| + m) ==
              InFlightBefore(entries, hand, |entries|) + InFlightBefore(entries, hand, m)
    decreases m
  {
    if m > 0 {
      SecondTurn(entries, hand, m - 1);
      assert Slot(hand, |entries| + (m - 1), |entries|) == Slot(hand, m - 1, |entries|);
    }
  }

  lemma {:induction false} InFlightMono(entries: seq<Entry>, hand: nat, j: nat, k: nat)
    requires hand < |entries| && j <= k <= 2 * |entries|
    ensures InFlightBefore(entries, hand, j) <= InFlightBefore(entries, hand, k)
    decreases k
  {
    if j < k { InFlightMono(entries, hand, j, k - 1); }
  }

  predicate Settled(e: Entry) { !e.inFlight }

  /** The k-th slot from the hand is the first, in circular order, in the class c. */
  ghost predicate FirstWith(entries: seq<Entry>, hand: nat, k: nat, c: Entry -> bool)
    requires hand < |entries|
  {
    && k < |entries|
    && c(entries[Slot(hand, k, |entries|)])
    && forall j :: 0 <= j < k ==> !c(entries[Slot(hand, j, |entries|)])
  }

  ghost predicate NoneWith(entries: seq<Entry>, hand: nat, c: Entry -> bool)
    requires hand < |entries|
  {
    forall j :: 0 <= j < |entries| ==> !c(entries[Slot(hand, j, |entries|)])
  }

  /** When the sweep gives up. `checked` is never reset, so besides "everything in flight" there is a second
      case: nothing is evictable yet and the in-flight slots met in the clearing turn, plus those met again
      before the first settled slot, reach the number of slots. */
  ghost predicate SweepFails(entries: seq<Entry>, hand: nat)
    requires hand < |entries|
  {
    && NoneWith(entries, hand, Evictable)
    && forall p :: 0 <= p < |entries| && FirstWith(entries, hand, p, Settled) ==>
         InFlightBefore(entries, hand, |entries|) + p >= |entries|
  }

  /** The slot the sweep settles on: the first evictable one in circular order, or, when there is none, the first
      settled one, reached again after a full clearing turn. */
  ghost predicate SweepPicks(entries: seq<Entry>, hand: nat, i: nat)
    requires hand < |entries|
  {
    exists k :: 0 <= k < |entries| && i == Slot(hand, k, |entries|) &&
      (FirstWith(entries, hand, k, Evictable) ||
       (NoneWith(entries, hand, Evictable) && FirstWith(entries, hand, k, Settled)))
  }

  /** After n steps: settled slots among those passed have lost their reference bit, nothing else changed. */
  ghost predicate Swept(was: seq<Entry>, now: seq<Entry>, hand: nat, n: nat)
    requires hand < |was| && n <= 2 * |was|
  {
    && |now| == |was|
    && (forall i :: 0 <= i < |was| ==> now[i] == was[i] || (!was[i].inFlight && now[i] == was[i].(referenced := false)))
    && (forall j :: 0 <= j < n && j < |was| ==> var i := Slot(hand, j, |was|); !was[i].inFlight ==> !now[i].referenced)
    && (forall j :: n <= j < |was| ==> var i := Slot(hand, j, |was|); now[i] == was[i])
  }

  lemma SlotsDiffer(hand: nat, j: nat, k: nat, n: nat)
    requires hand < n && j < n && k < n && j != k
    ensures Slot(hand, j, n) != Slot(hand, k, n) && Slot(hand, j, n) < n
  {
  }

  /** What the sweep knows after n steps without a decision. */
  ghost predicate Undecided(entries: seq<Entry>, hand: nat, n: nat, checked: nat)
    requires hand < |entries| && n <= 2 * |entries|
  {
    && checked == InFlightBefore(entries, hand, n)
    && (forall j :: 0 <= j < n && j < |entries| ==> !Evictable(entries[Slot(hand, j, |entries|)]))
    && (forall j :: 0 <= j < n - |entries| && j < |entries| ==> entries[Slot(hand, j, |entries|)].inFlight)
  }

  lemma GivesUpRightly(entries: seq<Entry>, hand: nat, n: nat, checked: nat)
    requires hand < |entries| && n <= 2 * |entries| && Undecided(entries, hand, n, checked) && checked >= |entries|
    ensures SweepFails(entries, hand)
  {
    InFlightBounds(entries, hand, n);
    if n <= |entries| {
      forall j | 0 <= j < |entries| ensures entries[Slot(hand, j, |entries|)].inFlight { }
    } else {
      var m := n - |entries|;
      SecondTurn(entries, hand, m);
      InFlightBounds(entries, hand, m);
      forall p | 0 <= p < |entries| && FirstWith(entries, hand, p, Settled)
        ensures InFlightBefore(entries, hand, |entries|) + p >= |entries|
      {
        assert p >= m;
      }
    }
  }

  lemma PicksRightly(entries: seq<Entry>, hand: nat, n: nat, checked: nat, k: nat)
    requires hand < |entries| && n < 2 * |entries| && Undecided(entries, hand, n, checked) && checked < |entries|
    requires k == (if n < |entries| then n else n - |entries|) && !entries[Slot(hand, k, |entries|)].inFlight
    requires n < |entries| ==> !entries[Slot(hand, k, |entries|)].referenced
    ensures Slot(hand, n, |entries|) == Slot(hand, k, |entries|) && !SweepFails(entries, hand)
    ensures SweepPicks(entries, hand, Slot(hand, n, |entries|))
  {
    assert n < |entries| ==> FirstWith(entries, hand, k, Evictable);
    if n >= |entries| {
      SecondTurn(entries, hand, k);
      InFlightBounds(entries, hand, k);
      assert InFlightBefore(entries, hand, k) == k;
      assert FirstWith(entries, hand, k, Settled);
    }
  }

  /** One more step without a decision: an in-flight slot, or a referenced one in the first turn. */
  lemma StaysUndecided(entries: seq<Entry>, hand: nat, n: nat, checked: nat)
    requires hand < |entries| && n < 2 * |entries| && Undecided(entries, hand, n, checked)
    requires var e := entries[Slot(hand, n, |entries|)]; e.inFlight || (n < |entries| && e.referenced)
    ensures Undecided(entries, hand, n + 1, checked + if entries[Slot(hand, n, |entries|)].inFlight then 1 else 0)
  {
    if n >= |entries| { assert Slot(hand, n, |entries|) == Slot(hand, n - |entries|, |entries|); }
  }

  /** Before two full turns are over the sweep has decided. */
  lemma DecidesInTime(entries: seq<Entry>, hand: nat, checked: nat)
    requires hand < |entries| && Undecided(entries, hand, 2 * |entries|, checked)
    ensures checked >= |entries|
  {
    InFlightBounds(entries, hand, |entries|);
    InFlightMono(entries, hand, |entries|, 2 * |entries|);
  }

  /** In the second turn no settled slot is still referenced. */
  lemma SettledByNow(was: seq<Entry>, now: seq<Entry>, hand: nat, n: nat, i: nat)
    requires hand < |was| && n < 2 * |was| && Swept(was, now, hand, n) && i == Slot(hand, n, |was|)
    ensures now[i].inFlight == was[i].inFlight
    ensures !was[i].inFlight && now[i].referenced ==> n < |was| && was[i].referenced
    ensures n < |was| ==> now[i] == was[i]
  {
    if n >= |was| { assert i == Slot(hand, n - |was|, |was|); }
  }

  lemma SweptStep(was: seq<Entry>, now: seq<Entry>, hand: nat, n: nat, i: nat)
    requires hand < |was| && n < 2 * |was| && Swept(was, now, hand, n) && i == Slot(hand, n, |was|)
    requires was[i].inFlight || n >= |was|
    ensures Swept(was, now, hand, n + 1)
  {
  }

  lemma SweptClear(was: seq<Entry>, now: seq<Entry>, hand: nat, n: nat, i: nat)
    requires hand < |was| && n < |was| && Swept(was, now, hand, n) && i == Slot(hand, n, |was|) && !was[i].inFlight
    ensures Swept(was, now[i := now[i].(referenced := false)], hand, n + 1)
  {
    forall j | 0 <= j < |was| && j != n ensures Slot(hand, j, |was|) != i { SlotsDiffer(hand, j, n, |was|); }
  }

  /** The loop invariant of the sweep. */
  ghost predicate Sweeping(was: seq<Entry>, now: seq<Entry>, start: nat, hand: nat, n: nat, checked: nat) {
    && start < |was| && n < 2 * |was| && hand == Slot(start, n, |was|) < |was| == |now|
    && Swept(was, now, start, n) && Undecided(was, start, n, checked) && checked < |was|
  }

  lemma PassInFlight(was: seq<Entry>, now: seq<Entry>, start: nat, hand: nat, n: nat, checked: nat)
    requires Sweeping(was, now, start, hand, n, checked) && now[hand].inFlight
    ensures Swept(was, now, start, n + 1)
    ensures checked + 1 >= |was| ==> SweepFails(was, start)
    ensures checked + 1 < |was| ==> Sweeping(was, now, start, (hand + 1) % |was|, n + 1, checked + 1)
  {
    SettledByNow(was, now, start, n, hand);
    SlotNext(start, n, |was|);
    StaysUndecided(was, start, n, checked);
    SweptStep(was, now, start, n, hand);
    if n + 1 == 2 * |was| { DecidesInTime(was, start, checked + 1); }
    if checked + 1 >= |was| { GivesUpRightly(was, start, n + 1, checked + 1); }
  }

  lemma PassReferenced(was: seq<Entry>, now: seq<Entry>, start: nat, hand: nat, n: nat, checked: nat)
    requires Sweeping(was, now, start, hand, n, checked) && !now[hand].inFlight && now[hand].referenced
    ensures Sweeping(was, now[hand := now[hand].(referenced := false)], start, (hand + 1) % |was|, n + 1, checked)
  {
    SettledByNow(was, now, start, n, hand);
    SlotNext(start, n, |was|);
    StaysUndecided(was, start, n, checked);
    SweptClear(was, now, start, n, hand);
  }

  lemma Pick(was: seq<Entry>, now: seq<Entry>, start: nat, hand: nat, n: nat, checked: nat)
    requires Sweeping(was, now, start, hand, n, checked) && !now[hand].inFlight && !now[hand].referenced
    ensures SweepPicks(was, start, hand) && !SweepFails(was, start) && (hand + 1) % |was| < |was|
  {
    SettledByNow(was, now, start, n, hand);
    SlotNext(start, n, |was|);
    PicksRightly(was, start, n, checked, if n < |was| then n else n - |was|);
  }

  /** One second-chance sweep from the hand, over at least one slot. `steps` counts turns of the loop. */
  method Sweep(entries: seq<Entry>, hand: nat)
    returns (now: seq<Entry>, newHand: nat, selected: Option<nat>, ghost steps: nat)
    requires hand < |entries|
    ensures newHand < |entries| == |now| && steps <= 2 * |entries|
    ensures Swept(entries, now, hand, steps)
    ensures selected.None? <==> SweepFails(entries, hand)
    ensures selected.Some? ==> newHand == (selected.value + 1) % |entries|
    ensures selected.Some? ==>
              && selected.value < |entries| && !now[selected.value].inFlight && !now[selected.value].referenced
              && SweepPicks(entries, hand, selected.value)
  {
    now, newHand, selected, steps := entries, hand, None, 0;
    var checked := 0;
    while true
      invariant Sweeping(entries, now, hand, newHand, steps, checked) && selected == None
      decreases 2 * |entries| - steps
    {
      var i := newHand;
      if now[i].inFlight {
        PassInFlight(entries, now, hand, newHand, steps, checked);
        newHand := (newHand + 1) % |entries|;
        checked := checked + 1;
        steps := steps + 1;
        if checked >= |entries| {
          return;
        }
        continue;
      }
      if !now[i].referenced {
        Pick(entries, now, hand, newHand, steps, checked);
        selected := Some(i);
        newHand := (newHand + 1) % |entries|;
        return;
      } else {
        PassReferenced(entries, now, hand, newHand, steps, checked);
        now := now[i := now[i].(referenced := false)];
        newHand := (newHand + 1) % |entries|;
        steps := steps + 1;
      }
    }
  }

  /** How far slot i lies from the hand, in the direction the hand moves. */
  function Distance(hand: nat, i: nat, n: nat): nat
    requires hand < n && i < n
  {
    (i + n - hand) % n
  }

  lemma DistanceOfSlot(hand: nat, k: nat, n: nat)
    requires hand < n && k < n
    ensures Slot(hand, k, n) < n && Distance(hand, Slot(hand, k, n), n) == k
  {
    var s := Slot(hand, k, n);
    if hand + k < n { assert (s + n - hand) % n == (k + n) % n == k; } else { assert (s + n - hand) % n == k; }
  }

  lemma SlotOfDistance(hand: nat, i: nat, n: nat)
    requires hand < n && i < n
    ensures Distance(hand, i, n) < n && Slot(hand, Distance(hand, i, n), n) == i
  {
    if hand <= i { assert (i + n - hand) % n == i - hand; } else { assert (i + n - hand) % n == i + n - hand; }
  }

  /** Which slot a sweep takes: a settled slot that was not used since the hand last passed, if there is one, and of
      those the one the hand comes to first; otherwise the first settled one. */
  lemma UnreferencedFirst(entries: seq<Entry>, hand: nat, i: nat)
    requires hand < |entries| && SweepPicks(entries, hand, i)
    ensures i < |entries| && !entries[i].inFlight
    ensures entries[i].referenced ==> forall j :: 0 <= j < |entries| && !entries[j].inFlight ==> entries[j].referenced
    ensures forall j :: 0 <= j < |entries| && !entries[j].inFlight ==>
              (entries[j].referenced ==> entries[i].referenced) ==>
              Distance(hand, i, |entries|) <= Distance(hand, j, |entries|)
  {
    var n := |entries|;
    var k :| 0 <= k < n && i == Slot(hand, k, n) &&
    (FirstWith(entries, hand, k, Evictable) ||
     (NoneWith(entries, hand, Evictable) && FirstWith(entries, hand, k, Settled)));
    DistanceOfSlot(hand, k, n);
    forall j | 0 <= j < n && !entries[j].inFlight
      ensures entries[i].referenced ==> entries[j].referenced
      ensures entries[i].referenced || !entries[j].referenced ==> Distance(hand, i, n) <= Distance(hand, j, n)
    {
      SlotOfDistance(hand, j, n);
      var d := Distance(hand, j, n);
      assert entries[Slot(hand, d, n)] == entries[j];
    }
  }

  /** Two slots, one in flight, one settled but referenced: the sweep fails although the second is free to evict. */
  lemma SpuriousFailure(e: Entry, f: Entry)
    requires e.inFlight && !f.inFlight && f.referenced
    ensures SweepFails([e, f], 0)
  {
    var es := [e, f];
    assert Slot(0, 0, 2) == 0 && Slot(0, 1, 2) == 1;
    assert InFlightBefore(es, 0, 1) == 1 && InFlightBefore(es, 0, 2) == 1;
  }

  /** With fewer than half of the slots in flight the sweep always finds a victim. */
  lemma HalfIdleSucceeds(entries: seq<Entry>, hand: nat)
    requires hand < |entries| && 2 * InFlightBefore(entries, hand, |entries|) < |entries|
    ensures !SweepFails(entries, hand)
  {
    var p := FirstSettled(entries, hand, 0);
    InFlightBounds(entries, hand, p);
    InFlightMono(entries, hand, p, |entries|);
  }

  lemma FirstSettled(entries: seq<Entry>, hand: nat, k: nat) returns (p: nat)
    requires hand < |entries| && k <= |entries| && InFlightBefore(entries, hand, |entries|) < |entries|
    requires forall j :: 0 <= j < k ==> entries[Slot(hand, j, |entries|)].inFlight
    ensures p < |entries| && FirstWith(entries, hand, p, Settled)
    ensures forall j :: 0 <= j < p ==> entries[Slot(hand, j, |entries|)].inFlight
    decreases |entries| - k
  {
    InFlightBounds(entries, hand, |entries|);
    if k < |entries| && !entries[Slot(hand, k, |entries|)].inFlight { p := k; }
    else { p := FirstSettled(entries, hand, k + 1); }
  }

  // ---------------------------------------------------------------- operations

  /** Replacing slot i keeps the cache coherent when the new entry's block is found nowhere else. */
  lemma PutKeeps(entries: seq<Entry>, disk: seq<Sector>, spb: nat, i: nat, e: Entry)
    requires Coherent(entries, disk, spb) && i < |entries| && |e.data| == spb && (e.dirty ==> e.block.Some?)
    requires e.block.Some? ==> forall j :: 0 <= j < |entries| && j != i ==> entries[j].block != e.block
    requires Clean(e) ==> OnDisk(disk, spb, e.block.value) == Some(e.data)
    ensures Coherent(entries[i := e], disk, spb)
  {
  }

  /** Overwriting a block whose own entry is dirty or in flight leaves every clean settled entry equal to the disk. */
  lemma DiskWriteKeeps(entries: seq<Entry>, disk: seq<Sector>, spb: nat, b: nat, data: seq<Sector>)
    requires Coherent(entries, disk, spb) && InRange(disk, spb, b) && |data| == spb
    requires forall j :: 0 <= j < |entries| && entries[j].block == Some(b) ==> !Clean(entries[j])
    ensures Coherent(entries, Overwrite(disk, spb, b, data), spb)
    ensures forall c :: c != b ==> OnDisk(Overwrite(disk, spb, b, data), spb, c) == OnDisk(disk, spb, c)
    ensures OnDisk(Overwrite(disk, spb, b, data), spb, b) == Some(data)
  {
    forall c ensures OnDisk(Overwrite(disk, spb, b, data), spb, c) == if c == b then Some(data)
    else OnDisk(disk, spb, c) {
      OverwriteOne(disk, spb, b, data, c);
    }
  }

  ghost predicate SameLogical(e: seq<Entry>, d: seq<Sector>, e': seq<Entry>, d': seq<Sector>, spb: nat) {
    forall b :: Logical(e, d, spb, b) == Logical(e', d', spb, b)
  }

  /** Changing bits other than block, dirty and data changes no logical content. */
  lemma BitsDontMatter(e: seq<Entry>, e': seq<Entry>, disk: seq<Sector>, spb: nat)
    requires Coherent(e, disk, spb) && |e'| == |e|
    requires forall i :: 0 <= i < |e| ==>
               e'[i].block == e[i].block && e'[i].dirty == e[i].dirty && e'[i].data == e[i].data
    requires forall i :: 0 <= i < |e| && e[i].inFlight ==> e'[i].inFlight
    ensures Coherent(e', disk, spb) && SameLogical(e, disk, e', disk, spb)
  {
    forall b ensures Logical(e, disk, spb, b) == Logical(e', disk, spb, b) {
      SameDirty(e, e', disk, disk, spb, b);
    }
  }

  predicate Vacant(e: Entry) { e.block.None? && !e.inFlight }

  /** Block b occupies a slot that is in flight. */
  predicate HeldUp(entries: seq<Entry>, b: nat) {
    Find(entries, b) < |entries| && entries[Find(entries, b)].inFlight
  }

  /** A miss finds no slot: none is vacant and the sweep fails. */
  ghost predicate NoRoom(entries: seq<Entry>, hand: nat)
    requires hand < |entries|
  {
    (forall i :: 0 <= i < |entries| ==> !Vacant(entries[i])) && SweepFails(entries, hand)
  }

  /** The slot a miss takes: the first vacant one, else the one the sweep settles on. */
  ghost predicate Chosen(entries: seq<Entry>, hand: nat, i: nat)
    requires hand < |entries|
  {
    && i < |entries|
    && if exists v :: 0 <= v < |entries| && Vacant(entries[v])
       then Vacant(entries[i]) && forall j :: 0 <= j < i ==> !Vacant(entries[j])
       else !SweepFails(entries, hand) && SweepPicks(entries, hand, i)
  }

  /** The locked section of a miss as a relation: which slot is reserved and what becomes of entries and hand. */
  ghost predicate Reserves(was: seq<Entry>, hand: nat, now: seq<Entry>, newHand: nat, slot: Option<nat>)
    requires hand < |was|
  {
    && |now| == |was| && newHand < |was|
    && (slot.None? <==> NoRoom(was, hand))
    && (slot.Some? ==> Chosen(was, hand, slot.value))
    && if exists v :: 0 <= v < |was| && Vacant(was[v])
       then newHand == hand && slot.Some? && now == Reserved(was, slot.value)
       else
         && (slot.Some? ==> newHand == (slot.value + 1) % |was|)
         && exists swept, steps: nat ::
              steps <= 2 * |was| && Swept(was, swept, hand, steps) && now == if slot.None? then swept
              else Reserved(swept, slot.value)
  }

  /** A slot that holds no block is taken before any block is thrown out, and the hand then stays where it is. */
  lemma EmptyBeforeEviction(was: seq<Entry>, hand: nat, now: seq<Entry>, newHand: nat, i: nat, v: nat)
    requires hand < |was| && Reserves(was, hand, now, newHand, Some(i)) && v < |was|
    requires was[v].block.None? && !was[v].inFlight
    ensures i <= v && was[i].block.None? && !was[i].inFlight && newHand == hand
    ensures now == was[i := was[i].(inFlight := true)]
  {
    assert Vacant(was[v]);
  }

  function Reserved(entries: seq<Entry>, i: nat): seq<Entry> {
    if i < |entries| then entries[i := entries[i].(inFlight := true)] else entries
  }

  /** What a reservation does to slots: one that was not in flight now is; no block, dirty bit or data changes. */
  lemma ReservesOne(was: seq<Entry>, hand: nat, now: seq<Entry>, newHand: nat, slot: Option<nat>)
    requires hand < |was| && Reserves(was, hand, now, newHand, slot)
    ensures slot.Some? ==> slot.value < |was| && !was[slot.value].inFlight && now[slot.value].inFlight
    ensures forall j :: 0 <= j < |was| ==>
              now[j].block == was[j].block && now[j].dirty == was[j].dirty && now[j].data == was[j].data
    ensures forall j :: 0 <= j < |was| && slot != Some(j) ==> now[j].inFlight == was[j].inFlight
  {
    if !(exists v :: 0 <= v < |was| && Vacant(was[v])) {
      var swept, steps: nat :| steps <= 2 * |was| && Swept(was, swept, hand, steps) &&
        now == if slot.None? then swept else Reserved(swept, slot.value);
    }
  }

  /** With one entry a block, a block is held up exactly when some slot holds it in flight. */
  lemma HeldAt(entries: seq<Entry>, disk: seq<Sector>, spb: nat, i: nat)
    requires Coherent(entries, disk, spb) && i < |entries| && entries[i].block.Some?
    ensures HeldUp(entries, entries[i].block.value) <==> entries[i].inFlight
  {
    LogicalAt(entries, disk, spb, i);
  }

  /** When only slot i, not in flight before, changes its block or its flight, at most its block comes to be held up. */
  lemma HeldMove(was: seq<Entry>, now: seq<Entry>, disk: seq<Sector>, disk': seq<Sector>, spb: nat, i: nat)
    requires Coherent(was, disk, spb) && Coherent(now, disk', spb) && |now| == |was| && i < |was| && !was[i].inFlight
    requires forall j :: 0 <= j < |was| && j != i ==> now[j].block == was[j].block && now[j].inFlight == was[j].inFlight
    ensures forall c: nat :: HeldUp(now, c) <==> HeldUp(was, c) || (now[i].inFlight && now[i].block == Some(c))
    ensures forall c: nat :: now[i].inFlight && now[i].block == Some(c) ==> !HeldUp(was, c)
  {
    forall c: nat
      ensures HeldUp(now, c) <==> HeldUp(was, c) || (now[i].inFlight && now[i].block == Some(c))
      ensures now[i].inFlight && now[i].block == Some(c) ==> !HeldUp(was, c)
    {
      var f, g := Find(was, c), Find(now, c);
      if f < |was| { HeldAt(was, disk, spb, f); if f != i { HeldAt(now, disk', spb, f); } }
      if g < |now| { HeldAt(now, disk', spb, g); if g != i { HeldAt(was, disk, spb, g); } }
    }
  }

  lemma HeldSame(was: seq<Entry>, now: seq<Entry>)
    requires |now| == |was| && forall j :: 0 <= j < |was| ==>
               now[j].block == was[j].block && now[j].inFlight == was[j].inFlight
    ensures forall c :: HeldUp(now, c) <==> HeldUp(was, c)
  {
    forall c
      ensures HeldUp(now, c) <==> HeldUp(was, c)
    {
      FindSame(was, now, c);
    }
  }

  /** The blocks held up are those that were, and the lost one, which was not. */
  ghost predicate LosesAtMost(was: seq<Entry>, now: seq<Entry>, lost: Option<nat>) {
    && (forall c: nat :: HeldUp(now, c) <==> HeldUp(was, c) || lost == Some(c))
    && (lost.Some? ==> !HeldUp(was, lost.value))
  }

  /** Every slot keeps its block, and every slot but one its flight. */
  ghost predicate SameSlots(was: seq<Entry>, now: seq<Entry>, slot: Option<nat>) {
    && |now| == |was| && (slot.Some? ==> slot.value < |was|)
    && (forall j :: 0 <= j < |was| ==> now[j].block == was[j].block)
    && (forall j :: 0 <= j < |was| && slot != Some(j) ==> now[j].inFlight == was[j].inFlight)
  }

  /** Which slot a miss works on, and how it ends: no room; a victim that cannot be written back; the rest. */
  ghost predicate MissOn(was: seq<Entry>, hand: nat, disk: seq<Sector>, spb: nat, writeBack: Outcome, i: nat,
                         victim: bool)
    requires hand < |was|
  {
    && Chosen(was, hand, i)
    && (victim <==> was[i].dirty && was[i].block.Some? && Fails(writeBack, disk, spb, was[i].block.value))
  }

  /**
   How a read miss ends. Without room it fails and loses nothing. With room it fails exactly when the chosen slot
   is dirty and cannot be written back, losing that slot's block, or else when the fetch fails, losing b itself.
   */
  ghost predicate ReadEnds(was: seq<Entry>, hand: nat, disk: seq<Sector>, spb: nat, b: nat, writeBack: Outcome,
                           fetch: Outcome,
                           r: Reply, lost: Option<nat>)
    requires hand < |was|
  {
    if NoRoom(was, hand) then r.Err? && lost.None?
    else
      exists i: nat, victim: bool :: MissOn(was, hand, disk, spb, writeBack, i, victim) &&
        if victim then r.Err? && lost == was[i].block
        else if Fails(fetch, disk, spb, b) then r.Err? && lost == Some(b)
        else r.Ok? && lost.None?
  }

  /** The same for a write miss, which fetches nothing. */
  ghost predicate WriteEnds(was: seq<Entry>, hand: nat, disk: seq<Sector>, spb: nat, writeBack: Outcome, r: Reply,
                            lost: Option<nat>)
    requires hand < |was|
  {
    if NoRoom(was, hand) then r.Err? && lost.None?
    else
      exists i: nat, victim: bool :: MissOn(was, hand, disk, spb, writeBack, i, victim) &&
        if victim then r.Err? && lost == was[i].block else r.Ok? && lost.None?
  }

  /** Whether the device refuses or fails a transfer of block b. */
  predicate Fails(outcome: Outcome, disk: seq<Sector>, spb: nat, b: nat) {
    outcome.Failed? || !InRange(disk, spb, b)
  }

  /** A slot that held nothing dirty and is now given to block b, as far as logical content goes. */
  lemma AdoptKeeps(entries: seq<Entry>, disk: seq<Sector>, spb: nat, i: nat, e: Entry, b: nat)
    requires Coherent(entries, disk, spb) && i < |entries| && !entries[i].dirty && Find(entries, b) == |entries|
    requires e.block == Some(b) && |e.data| == spb
    requires Clean(e) ==> OnDisk(disk, spb, b) == Some(e.data)
    ensures Coherent(entries[i := e], disk, spb)
    ensures forall c :: c != b ==> Logical(entries[i := e], disk, spb, c) == Logical(entries, disk, spb, c)
    ensures Logical(entries[i := e], disk, spb, b) == if e.dirty then Some(e.data) else Logical(entries, disk, spb, b)
  {
    PutKeeps(entries, disk, spb, i, e);
    LogicalAt(entries[i := e], disk, spb, i);
    forall c | c != b ensures Logical(entries[i := e], disk, spb, c) == Logical(entries, disk, spb, c) {
      SameDirty(entries, entries[i := e], disk, disk, spb, c);
    }
  }

  /** The same slot updated for the block it already holds. */
  lemma UpdateKeeps(entries: seq<Entry>, disk: seq<Sector>, spb: nat, i: nat, e: Entry)
    requires Coherent(entries, disk, spb) && i < |entries| && entries[i].block.Some? && e.block == entries[i].block
    requires |e.data| == spb
    requires e.dirty || !entries[i].dirty
    requires Clean(e) ==> OnDisk(disk, spb, e.block.value) == Some(e.data)
    ensures Coherent(entries[i := e], disk, spb)
    ensures forall c :: c != e.block.value ==> Logical(entries[i := e], disk, spb, c) == Logical(entries, disk, spb, c)
    ensures Logical(entries[i := e], disk, spb, e.block.value) ==
            if e.dirty then Some(e.data) else Logical(entries, disk, spb, e.block.value)
  {
    PutKeeps(entries, disk, spb, i, e);
    LogicalAt(entries[i := e], disk, spb, i);
    LogicalAt(entries, disk, spb, i);
    forall c | c != e.block.value ensures Logical(entries[i := e], disk, spb, c) == Logical(entries, disk, spb, c) {
      SameDirty(entries, entries[i := e], disk, disk, spb, c);
    }
  }

  lemma FindsSame(e: seq<Entry>, e': seq<Entry>)
    requires |e| == |e'| && forall i :: 0 <= i < |e| ==> e'[i].block == e[i].block
    ensures forall b :: Find(e', b) == Find(e, b)
  {
    forall b ensures Find(e', b) == Find(e, b) {
      FindSame(e, e', b);
    }
  }

  lemma FindSame(e: seq<Entry>, e': seq<Entry>, b: nat)
    requires |e| == |e'| && forall i :: 0 <= i < |e| ==> e'[i].block == e[i].block
    ensures Find(e', b) == Find(e, b)
  {
  }

  /** An entry a flush has to write: dirty and settled. */
  predicate Owing(e: Entry) { e.dirty && !e.inFlight && e.block.Some? }

  /** How many of the first j slots a flush has to write, and so the number of the transfer of slot j. */
  function OwingBefore(entries: seq<Entry>, j: nat): (n: nat)
    requires j <= |entries|
    ensures n <= j
  {
    if j == 0 then 0 else OwingBefore(entries, j - 1) + if Owing(entries[j - 1]) then 1 else 0
  }

  lemma {:induction false} OwingMono(entries: seq<Entry>, i: nat, j: nat)
    requires i < j <= |entries| && Owing(entries[i])
    ensures OwingBefore(entries, i) < OwingBefore(entries, j)
    decreases j
  {
    if i < j - 1 { OwingMono(entries, i, j - 1); }
  }

  /** The device takes every dirty, settled block. */
  ghost predicate DeviceTakes(entries: seq<Entry>, disk: seq<Sector>, spb: nat, verdict: nat -> Outcome, upTo: nat) {
    forall j :: 0 <= j < |entries| && j < upTo && entries[j].dirty && !entries[j].inFlight && entries[j].block.Some? ==>
      !Fails(verdict(OwingBefore(entries, j)), disk, spb, entries[j].block.value)
  }

  /** The last locked section of a flush: settled entries lose their dirty bit and nothing else changes. */
  ghost predicate Cleared(was: seq<Entry>, now: seq<Entry>) {
    && |now| == |was|
    && forall j :: 0 <= j < |was| ==> now[j] == if Settled(was[j]) then was[j].(dirty := false) else was[j]
  }

  /** The list holds exactly what the entries owe the device, in the order of the slots. */
  ghost predicate Listed(entries: seq<Entry>, list: seq<(nat, seq<Sector>)>) {
    && |list| == OwingBefore(entries, |entries|)
    && (forall j :: 0 <= j < |entries| && Owing(entries[j]) ==>
          OwingBefore(entries, j) < |list| &&
            list[OwingBefore(entries, j)] == (entries[j].block.value, entries[j].data))
  }

  /** The slot of the k-th transfer. */
  lemma {:induction false} SlotOf(entries: seq<Entry>, n: nat, k: nat) returns (j: nat)
    requires n <= |entries| && k < OwingBefore(entries, n)
    ensures j < n && Owing(entries[j]) && OwingBefore(entries, j) == k
    decreases n
  {
    if k == OwingBefore(entries, n - 1) { j := n - 1; } else { j := SlotOf(entries, n - 1, k); }
  }

  lemma ListedAt(entries: seq<Entry>, list: seq<(nat, seq<Sector>)>, k: nat) returns (j: nat)
    requires Listed(entries, list) && k < |list|
    ensures j < |entries| && Owing(entries[j]) && OwingBefore(entries, j) == k
    ensures list[k] == (entries[j].block.value, entries[j].data)
  {
    j := SlotOf(entries, |entries|, k);
  }

  lemma ListedApart(entries: seq<Entry>, list: seq<(nat, seq<Sector>)>, disk: seq<Sector>, spb: nat, k: nat, n: nat)
    requires Listed(entries, list) && k < n < |list| && Coherent(entries, disk, spb)
    ensures list[k].0 != list[n].0
  {
    var i := ListedAt(entries, list, k);
    var j := ListedAt(entries, list, n);
    assert entries[i].block != entries[j].block;
  }

  lemma TakesOnlyBefore(entries: seq<Entry>, disk: seq<Sector>, spb: nat, verdict: nat -> Outcome, upTo: nat, f: nat)
    requires DeviceTakes(entries, disk, spb, verdict, upTo) && f < |entries| && Owing(entries[f])
    requires Fails(verdict(OwingBefore(entries, f)), disk, spb, entries[f].block.value)
    ensures upTo <= f
  {
  }

  /** Transfers that succeed up to the first failure, said of the slots they come from. */
  lemma Transfers(entries: seq<Entry>, list: seq<(nat, seq<Sector>)>, disk: seq<Sector>, spb: nat,
                  verdict: nat -> Outcome, n: nat)
    requires Listed(entries, list) && n <= |list|
    requires forall k :: 0 <= k < n ==> !Fails(verdict(k), disk, spb, list[k].0)
    requires n < |list| ==> Fails(verdict(n), disk, spb, list[n].0)
    ensures DeviceTakes(entries, disk, spb, verdict, |entries|) <==> n == |list|
    ensures forall j :: 0 <= j < |entries| && Owing(entries[j]) && DeviceTakes(entries, disk, spb, verdict, j + 1) ==>
              OwingBefore(entries, j) < n
  {
    if n < |list| {
      var f := ListedAt(entries, list, n);
      forall j | 0 <= j < |entries| && Owing(entries[j]) && DeviceTakes(entries, disk, spb, verdict, j + 1)
        ensures OwingBefore(entries, j) < n
      {
        TakesOnlyBefore(entries, disk, spb, verdict, j + 1, f);
        OwingMono(entries, j, f);
      }
    }
  }

  /** The device is written only where a dirty entry waits to be written back. */
  ghost predicate OnlyDirtyWritten(entries: seq<Entry>, disk: seq<Sector>, disk': seq<Sector>, spb: nat) {
    forall c: nat :: OnDisk(disk', spb, c) != OnDisk(disk, spb, c) ==>
      Find(entries, c) < |entries| && entries[Find(entries, c)].dirty
  }

  /** Block b sits in a settled slot that has just been used. */
  predicate Resides(entries: seq<Entry>, b: nat) {
    exists i :: 0 <= i < |entries| && entries[i].block == Some(b) && entries[i].referenced && !entries[i].inFlight
  }

  class Cache {
    var entries: seq<Entry>
    var clockHand: nat
    var disk: seq<Sector>
    const spb: nat

    ghost predicate Valid()
      reads this
    {
      clockHand < |entries| && Coherent(entries, disk, spb)
    }

    ghost function Content(b: nat): Option<seq<Sector>>
      reads this
    {
      Logical(entries, disk, spb, b)
    }

    constructor (device: seq<Sector>, sectorsPerBlock: nat, slots: nat, zero: Sector)
      requires slots > 0
      ensures Valid() && |entries| == slots && disk == device && spb == sectorsPerBlock
      ensures forall b :: Content(b) == OnDisk(disk, spb, b)
      ensures clockHand == 0 && forall i :: 0 <= i < slots ==> Vacant(entries[i]) && !entries[i].dirty
    {
      spb := sectorsPerBlock;
      disk := device;
      clockHand := 0;
      entries := seq(slots, i => Entry(None, false, false, false, seq(sectorsPerBlock, j => zero)));
    }

    /** Transfer a block to the device. A failed write leaves anything in the sectors it covered. */
    method WriteSectors(b: nat, data: seq<Sector>, outcome: Outcome) returns (ok: bool)
      requires Valid() && |data| == spb
      requires forall j :: 0 <= j < |entries| && entries[j].block == Some(b) ==> !Clean(entries[j])
      modifies `disk
      ensures Valid()
      ensures forall c :: c != b ==> OnDisk(disk, spb, c) == OnDisk(old(disk), spb, c)
      ensures ok ==> OnDisk(disk, spb, b) == Some(data)
      ensures ok <==> !Fails(outcome, old(disk), spb, b)
      ensures ok <==> outcome.Done? && b * spb + spb <= |old(disk)|
      ensures |disk| == |old(disk)|
    {
      if b * spb + spb > |disk| {
        return false;
      }
      var written := if outcome.Done? then data else if |outcome.torn| == spb then outcome.torn
      else disk[b * spb..b * spb + spb];
      DiskWriteKeeps(entries, disk, spb, b, written);
      disk := disk[..b * spb] + written + disk[b * spb + spb..];
      ok := outcome.Done?;
    }

    /** Pick a vacant slot, else sweep for one, and reserve it: the locked section of a miss. */
    method Reserve() returns (slot: Option<nat>)
      requires Valid()
      modifies `entries, `clockHand
      ensures Valid() && SameLogical(old(entries), disk, entries, disk, spb)
      ensures Reserves(old(entries), old(clockHand), entries, clockHand, slot)
    {
      var i := 0;
      slot := None;
      while i < |entries|
        invariant 0 <= i <= |entries| && slot == None
        invariant forall j :: 0 <= j < i ==> !Vacant(entries[j])
      {
        if entries[i].block.None? && !entries[i].inFlight {
          slot := Some(i);
          break;
        }
        i := i + 1;
      }
      ghost var swept, taken := entries, 0;
      if slot.None? {
        var now, hand, selected, steps := Sweep(entries, clockHand);
        BitsDontMatter(entries, now, disk, spb);
        entries, clockHand, slot := now, hand, selected;
        swept, taken := now, steps;
        assert Swept(old(entries), swept, old(clockHand), taken);
      }
      if slot.Some? {
        ghost var before := entries;
        var e := entries[slot.value];
        entries := entries[slot.value := e.(inFlight := true)];
        BitsDontMatter(before, entries, disk, spb);
      }
    }

    /** Write back what a reserved slot holds, if dirty; on failure the slot stays dirty and in flight. */
    method WriteBack(slot: nat, outcome: Outcome) returns (ok: bool)
      requires Valid() && slot < |entries| && entries[slot].inFlight
      modifies `entries, `disk
      ensures Valid() && |entries| == |old(entries)|
      ensures SameLogical(old(entries), old(disk), entries, disk, spb)
      ensures entries == if ok then old(entries)[slot := old(entries)[slot].(dirty := false)] else old(entries)
      ensures ok <==> !(old(entries)[slot].dirty && Fails(outcome, old(disk), spb, old(entries)[slot].block.value))
      ensures |disk| == |old(disk)| && OnlyDirtyWritten(old(entries), old(disk), disk, spb)
    {
      var e := entries[slot];
      if !e.dirty {
        assert entries == entries[slot := e.(dirty := false)];
        return true;
      }
      var b := e.block.value;
      LogicalAt(entries, disk, spb, slot);
      ok := WriteSectors(b, e.data, outcome);
      forall c ensures Logical(entries, disk, spb, c) == Logical(old(entries), old(disk), spb, c) {
        SameDirty(old(entries), entries, old(disk), disk, spb, c);
      }
      if ok {
        ghost var before := entries;
        PutKeeps(entries, disk, spb, slot, e.(dirty := false));
        entries := entries[slot := e.(dirty := false)];
        forall c ensures Logical(entries, disk, spb, c) == Logical(before, disk, spb, c) {
          if c == b { LogicalAt(before, disk, spb, slot); LogicalAt(entries, disk, spb, slot); }
          else { SameDirty(before, entries, disk, disk, spb, c); }
        }
      }
    }

    /** `read_block`: on success the caller gets exactly the block's logical content; nothing a read does, and no
        failure on the way, changes any block's logical content. */
    method ReadBlock(b: nat, writeBack: Outcome, fetch: Outcome) returns (r: Reply, ghost lost: Option<nat>)
      requires Valid()
      modifies `entries, `clockHand, `disk
      ensures Valid()
      ensures forall c :: Content(c) == old(Content(c))
      ensures r.Ok? ==> Some(r.data) == Content(b) && Resides(entries, b)
      ensures r.Stuck? <==> old(HeldUp(entries, b))
      ensures r.Stuck? ==> entries == old(entries) && disk == old(disk)
      ensures LosesAtMost(old(entries), entries, lost) && |disk| == |old(disk)|
      ensures OnlyDirtyWritten(old(entries), old(disk), disk, spb)
      ensures old(Find(entries, b) < |entries|) ==> !r.Err? && disk == old(disk)
      ensures old(Find(entries, b) == |entries|) ==>
                ReadEnds(old(entries), old(clockHand), old(disk), spb, b, writeBack, fetch, r, lost)
    {
      lost := None;
      var hit := Find(entries, b);
      if hit < |entries| {
        var e := entries[hit];
        if e.inFlight {
          return Stuck, None;
        }
        LogicalAt(entries, disk, spb, hit);
        UpdateKeeps(entries, disk, spb, hit, e.(referenced := true));
        entries := entries[hit := e.(referenced := true)];
        HeldMove(old(entries), entries, disk, disk, spb, hit);
        assert entries[hit].block == Some(b);
        return Ok(e.data), None;
      }

      r, lost := ReadMiss(b, writeBack, fetch);
    }

    /** The locked reservation of a miss, and the write-back of what its slot held; ok says the slot is clean. */
    method Evict(writeBack: Outcome) returns (slot: Option<nat>, ok: bool)
      requires Valid()
      modifies `entries, `clockHand, `disk
      ensures Valid() && SameLogical(old(entries), old(disk), entries, disk, spb) && |disk| == |old(disk)|
      ensures slot.None? <==> old(NoRoom(entries, clockHand))
      ensures SameSlots(old(entries), entries, slot)
      ensures slot.Some? ==> MissOn(old(entries), old(clockHand), old(disk), spb, writeBack, slot.value, !ok)
      ensures slot.Some? ==> !old(entries)[slot.value].inFlight && entries[slot.value].inFlight
      ensures slot.Some? && ok ==> !entries[slot.value].dirty
      ensures OnlyDirtyWritten(old(entries), old(disk), disk, spb)
    {
      ok := false;
      slot := Reserve();
      ReservesOne(old(entries), old(clockHand), entries, clockHand, slot);
      if slot.Some? {
        FindsSame(old(entries), entries);
        ok := WriteBack(slot.value, writeBack);
      }
    }

    method ReadMiss(b: nat, writeBack: Outcome, fetch: Outcome) returns (r: Reply, ghost lost: Option<nat>)
      requires Valid() && Find(entries, b) == |entries|
      modifies `entries, `clockHand, `disk
      ensures Valid() && |disk| == |old(disk)| && !r.Stuck? && OnlyDirtyWritten(old(entries), old(disk), disk, spb)
      ensures forall c :: Content(c) == old(Content(c))
      ensures r.Ok? ==> Some(r.data) == Content(b) && Resides(entries, b)
      ensures LosesAtMost(old(entries), entries, lost)
      ensures ReadEnds(old(entries), old(clockHand), old(disk), spb, b, writeBack, fetch, r, lost)
    {
      var slot, ok := Evict(writeBack);
      if slot.None? {
        HeldSame(old(entries), entries);
        return Err, None;
      }
      var i := slot.value;
      if !ok {
        HeldMove(old(entries), entries, old(disk), disk, spb, i);
        return Err, entries[i].block;
      }
      FindSame(old(entries), entries, b);
      r := Fetch(b, i, fetch);
      HeldMove(old(entries), entries, old(disk), disk, spb, i);
      lost := if r.Err? then Some(b) else None;
    }

    /** The tail of a read miss: name the block in the reserved slot, fetch it, publish it. */
    method Fetch(b: nat, i: nat, outcome: Outcome) returns (r: Reply)
      requires Valid() && i < |entries| && entries[i].inFlight && !entries[i].dirty && Find(entries, b) == |entries|
      modifies `entries
      ensures Valid() && !r.Stuck?
      ensures SameLogical(old(entries), disk, entries, disk, spb)
      ensures r.Ok? ==> Some(r.data) == Content(b) && Resides(entries, b)
      ensures r.Err? <==> Fails(outcome, disk, spb, b)
      ensures r.Ok? <==> outcome.Done? && b * spb + spb <= |disk|
      ensures |entries| == |old(entries)| && entries[i].block == Some(b) && (entries[i].inFlight <==> r.Err?)
      ensures forall j :: 0 <= j < |entries| && j != i ==> entries[j] == old(entries)[j]
    {
      ghost var before := entries;
      var e := entries[i].(block := Some(b));
      AdoptKeeps(entries, disk, spb, i, e, b);
      entries := entries[i := e];
      var named := entries;
      if b * spb + spb > |disk| {
        return Err;
      }
      if outcome.Failed? {
        var torn := if |outcome.torn| == spb then outcome.torn else e.data;
        UpdateKeeps(named, disk, spb, i, e.(data := torn));
        entries := named[i := e.(data := torn)];
        return Err;
      }
      var fetched := disk[b * spb..b * spb + spb];
      var filled := e.(data := fetched, referenced := true, inFlight := false);
      UpdateKeeps(named, disk, spb, i, filled);
      entries := named[i := filled];
      assert entries[i].block == Some(b);
      LogicalAt(entries, disk, spb, i);
      r := Ok(fetched);
    }

    /** `write_block`: on success the block's logical content becomes `src` and no other block's changes; on any
        failure nothing changes. */
    method WriteBlock(b: nat, src: seq<Sector>, writeBack: Outcome) returns (r: Reply, ghost lost: Option<nat>)
      requires Valid() && |src| == spb
      modifies `entries, `clockHand, `disk
      ensures Valid()
      ensures r.Ok? ==> Resides(entries, b) && forall c :: Content(c) == if c == b then Some(src) else old(Content(c))
      ensures !r.Ok? ==> forall c :: Content(c) == old(Content(c))
      ensures r.Stuck? <==> old(HeldUp(entries, b))
      ensures LosesAtMost(old(entries), entries, lost) && |disk| == |old(disk)|
      ensures OnlyDirtyWritten(old(entries), old(disk), disk, spb)
      ensures r.Ok? ==> OnDisk(disk, spb, b) == OnDisk(old(disk), spb, b)
      ensures old(Find(entries, b) < |entries|) ==> !r.Err? && disk == old(disk)
      ensures old(Find(entries, b) == |entries|) ==>
                WriteEnds(old(entries), old(clockHand), old(disk), spb, writeBack, r, lost)
    {
      lost := None;
      var hit := Find(entries, b);
      if hit < |entries| {
        var e := entries[hit];
        if e.inFlight {
          return Stuck, None;
        }
        var filled := e.(referenced := true, dirty := true, data := src);
        UpdateKeeps(entries, disk, spb, hit, filled);
        entries := entries[hit := filled];
        HeldMove(old(entries), entries, disk, disk, spb, hit);
        assert entries[hit].block == Some(b);
        return Ok([]), None;
      }

      r, lost := WriteMiss(b, src, writeBack);
    }

    method WriteMiss(b: nat, src: seq<Sector>, writeBack: Outcome) returns (r: Reply, ghost lost: Option<nat>)
      requires Valid() && |src| == spb && Find(entries, b) == |entries|
      modifies `entries, `clockHand, `disk
      ensures Valid() && |disk| == |old(disk)| && !r.Stuck? && OnlyDirtyWritten(old(entries), old(disk), disk, spb)
      ensures r.Ok? ==> Resides(entries, b) && forall c :: Content(c) == if c == b then Some(src) else old(Content(c))
      ensures !r.Ok? ==> forall c :: Content(c) == old(Content(c))
      ensures LosesAtMost(old(entries), entries, lost)
      ensures WriteEnds(old(entries), old(clockHand), old(disk), spb, writeBack, r, lost)
    {
      var slot, ok := Evict(writeBack);
      if slot.None? {
        HeldSame(old(entries), entries);
        return Err, None;
      }
      var i := slot.value;
      if !ok {
        HeldMove(old(entries), entries, old(disk), disk, spb, i);
        return Err, entries[i].block;
      }
      FindSame(old(entries), entries, b);
      var filled := Entry(Some(b), true, true, false, src);
      AdoptKeeps(entries, disk, spb, i, filled, b);
      entries := entries[i := filled];
      HeldMove(old(entries), entries, old(disk), disk, spb, i);
      assert entries[i].block == Some(b);
      return Ok([]), None;
    }

    /** `flush`: write every settled dirty entry, then clear their dirty bits. It succeeds exactly when the device takes
        them all, and then no settled entry is dirty and the disk holds the logical content of every block that is not
        in an in-flight slot. Success or not, no logical content changes, and what comes before the first failing
        transfer is on the disk. */
    method Flush(verdict: nat -> Outcome) returns (r: Reply)
      requires Valid()
      modifies `entries, `disk
      ensures Valid() && !r.Stuck?
      ensures r.Ok? <==> old(DeviceTakes(entries, disk, spb, verdict, |entries|))
      ensures forall c :: Content(c) == old(Content(c))
      ensures r.Ok? ==> Cleared(old(entries), entries)
      ensures r.Ok? ==> forall j :: 0 <= j < |entries| && entries[j].dirty ==> entries[j].inFlight
      ensures r.Ok? ==> forall c :: !HeldUp(entries, c) ==> OnDisk(disk, spb, c) == Content(c)
      ensures forall j | 0 <= j < |old(entries)| && Owing(old(entries)[j]) ::
                old(DeviceTakes(entries, disk, spb, verdict, j + 1)) ==>
                OnDisk(disk, spb, old(entries)[j].block.value) == Some(old(entries)[j].data)
      ensures r.Err? ==> entries == old(entries)
      ensures forall c :: HeldUp(entries, c) <==> old(HeldUp(entries, c))
      ensures |entries| == |old(entries)| && |disk| == |old(disk)|
    {
      var dirty := Dirty();
      var n := WriteAll(dirty, verdict);
      Transfers(entries, dirty, old(disk), spb, verdict, n);
      forall j | 0 <= j < |entries| && Owing(entries[j]) && DeviceTakes(entries, old(disk), spb, verdict, j + 1)
        ensures OnDisk(disk, spb, entries[j].block.value) == Some(entries[j].data)
      {
        assert dirty[OwingBefore(entries, j)] == (entries[j].block.value, entries[j].data);
      }
      if n < |dirty| {
        return Err;
      }
      ClearDirty();
      HeldSame(old(entries), entries);
      r := Ok([]);
    }

    /** The second loop of `flush`: one transfer after another, up to the first that fails. */
    method WriteAll(dirty: seq<(nat, seq<Sector>)>, verdict: nat -> Outcome) returns (n: nat)
      requires Valid() && Listed(entries, dirty)
      modifies `disk
      ensures Valid() && |disk| == |old(disk)| && SameLogical(entries, old(disk), entries, disk, spb)
      ensures n <= |dirty| && forall k :: 0 <= k < n ==> OnDisk(disk, spb, dirty[k].0) == Some(dirty[k].1)
      ensures forall k :: 0 <= k < n ==> !Fails(verdict(k), old(disk), spb, dirty[k].0)
      ensures n < |dirty| ==> Fails(verdict(n), old(disk), spb, dirty[n].0)
    {
      n := 0;
      while n < |dirty|
        invariant 0 <= n <= |dirty| && Valid() && |disk| == |old(disk)|
        invariant SameLogical(entries, old(disk), entries, disk, spb)
        invariant forall k :: 0 <= k < n ==> OnDisk(disk, spb, dirty[k].0) == Some(dirty[k].1)
        invariant forall k :: 0 <= k < n ==> !Fails(verdict(k), old(disk), spb, dirty[k].0)
      {
        var ok := WriteListed(dirty, n, verdict(n));
        forall k | 0 <= k < n ensures OnDisk(disk, spb, dirty[k].0) == Some(dirty[k].1) {
          ListedApart(entries, dirty, disk, spb, k, n);
        }
        if !ok {
          return;
        }
        n := n + 1;
      }
    }

    method WriteListed(dirty: seq<(nat, seq<Sector>)>, n: nat, outcome: Outcome) returns (ok: bool)
      requires Valid() && Listed(entries, dirty) && n < |dirty|
      modifies `disk
      ensures Valid() && |disk| == |old(disk)| && SameLogical(entries, old(disk), entries, disk, spb)
      ensures ok <==> !Fails(outcome, old(disk), spb, dirty[n].0)
      ensures forall c :: c != dirty[n].0 ==> OnDisk(disk, spb, c) == OnDisk(old(disk), spb, c)
      ensures ok ==> OnDisk(disk, spb, dirty[n].0) == Some(dirty[n].1)
    {
      ghost var j := ListedAt(entries, dirty, n);
      ok := WriteSectors(dirty[n].0, dirty[n].1, outcome);
      forall c ensures Logical(entries, disk, spb, c) == Logical(entries, old(disk), spb, c) {
        SameDirty(entries, entries, old(disk), disk, spb, c);
      }
    }

    /** The first loop of `flush`: the blocks and data of the settled dirty entries, in the order of the slots. */
    method Dirty() returns (list: seq<(nat, seq<Sector>)>)
      requires Valid()
      ensures Listed(entries, list)
    {
      list := [];
      var i := 0;
      while i < |entries|
        invariant 0 <= i <= |entries| && |list| == OwingBefore(entries, i)
        invariant forall j :: 0 <= j < i && Owing(entries[j]) ==>
                    OwingBefore(entries, j) < |list| &&
                      list[OwingBefore(entries, j)] == (entries[j].block.value, entries[j].data)
      {
        var e := entries[i];
        if e.dirty && !e.inFlight && e.block.Some? {
          list := list + [(e.block.value, e.data)];
        }
        i := i + 1;
      }
    }

    /** The last loop of `flush`. */
    method ClearDirty()
      requires Valid()
      requires forall j :: 0 <= j < |entries| && entries[j].dirty && !entries[j].inFlight ==>
                 OnDisk(disk, spb, entries[j].block.value) == Some(entries[j].data)
      modifies `entries
      ensures Valid() && SameLogical(old(entries), disk, entries, disk, spb)
      ensures forall c :: !HeldUp(entries, c) ==> OnDisk(disk, spb, c) == Content(c)
      ensures Cleared(old(entries), entries)
    {
      var i := 0;
      while i < |entries|
        invariant 0 <= i <= |entries| == |old(entries)| && Valid()
        invariant SameLogical(old(entries), disk, entries, disk, spb)
        invariant forall j :: i <= j < |entries| ==> entries[j] == old(entries)[j]
        invariant forall j :: 0 <= j < i ==> entries[j].dirty ==> entries[j].inFlight
        invariant forall j :: 0 <= j < i ==>
                    entries[j] == if Settled(old(entries)[j]) then old(entries)[j].(dirty := false) else old(entries)[j]
      {
        var e := entries[i];
        if e.dirty && !e.inFlight {
          ghost var before := entries;
          PutKeeps(entries, disk, spb, i, e.(dirty := false));
          entries := entries[i := e.(dirty := false)];
          forall c: nat ensures Logical(entries, disk, spb, c) == Logical(before, disk, spb, c) {
            if e.block == Some(c) { LogicalAt(before, disk, spb, i); LogicalAt(entries, disk, spb, i); }
            else { SameDirty(before, entries, disk, disk, spb, c); }
          }
        }
        i := i + 1;
      }
    }
  }

  // ---------------------------------------------------------------- whole runs

  datatype Request =
    | ReadOp(block: nat, writeBack: Outcome, fetch: Outcome)
    | WriteOp(block: nat, src: seq<Sector>, writeBack: Outcome)
    | FlushOp(verdict: nat -> Outcome)

  /** What block b holds after the requests, on a flat disk where only successful writes count. */
  function Stored(start: Option<seq<Sector>>, b: nat, ops: seq<Request>, replies: seq<Reply>): Option<seq<Sector>>
    requires |replies| == |ops|
  {
    if ops == [] then start
    else
      var n := |ops| - 1;
      if ops[n].WriteOp? && ops[n].block == b && replies[n].Ok? then Some(ops[n].src)
      else Stored(start, b, ops[..n], replies[..n])
  }

  lemma StoredNext(start: Option<seq<Sector>>, b: nat, ops: seq<Request>, replies: seq<Reply>, op: Request, r: Reply)
    requires |replies| == |ops|
    ensures Stored(start, b, ops + [op], replies + [r]) ==
            if op.WriteOp? && op.block == b && r.Ok? then Some(op.src) else Stored(start, b, ops, replies)
  {
    assert (ops + [op])[..|ops|] == ops && (replies + [r])[..|ops|] == replies;
  }

  /** Every reply so far is right: reads return what the flat disk holds at their turn, held up blocks are stuck. */
  ghost predicate Answered(entries: seq<Entry>, disk: seq<Sector>, spb: nat, ops: seq<Request>, replies: seq<Reply>) {
    && |replies| == |ops|
    && (forall k {:trigger replies[k]} :: 0 <= k < |ops| ==>
          AnsweredAt(ops[k], replies[k], HeldUp(entries, BlockOf(ops[k])),
                     Stored(Logical(entries, disk, spb, BlockOf(ops[k])), BlockOf(ops[k]), ops[..k], replies[..k])))
  }

  function BlockOf(op: Request): nat { if op.FlushOp? then 0 else op.block }

  predicate AnsweredAt(op: Request, r: Reply, held: bool, stored: Option<seq<Sector>>) {
    && (op.ReadOp? && r.Ok? ==> Some(r.data) == stored)
    && (!op.FlushOp? && held ==> r.Stuck?)
  }

  lemma AnsweredNext(entries: seq<Entry>, disk: seq<Sector>, spb: nat, ops: seq<Request>, replies: seq<Reply>,
                     op: Request, r: Reply)
    requires Answered(entries, disk, spb, ops, replies)
    requires AnsweredAt(op, r, HeldUp(entries, BlockOf(op)),
                        Stored(Logical(entries, disk, spb, BlockOf(op)), BlockOf(op), ops, replies))
    ensures Answered(entries, disk, spb, ops + [op], replies + [r])
  {
    var ops', replies' := ops + [op], replies + [r];
    forall k | 0 <= k < |ops'|
      ensures AnsweredAt(ops'[k], replies'[k], HeldUp(entries, BlockOf(ops'[k])),
                         Stored(Logical(entries, disk, spb, BlockOf(ops'[k])), BlockOf(ops'[k]), ops'[..k],
                                replies'[..k]))
    {
      if k < |ops| {
        assert ops'[..k] == ops[..k] && replies'[..k] == replies[..k] && replies'[k] == replies[k];
      } else {
        assert ops'[..k] == ops && replies'[..k] == replies;
      }
    }
  }

  /** The cache and its device at one moment. */
  datatype Snap = Snap(entries: seq<Entry>, hand: nat, disk: seq<Sector>)

  ghost function SnapOf(cache: Cache): Snap
    reads cache
  {
    Snap(cache.entries, cache.clockHand, cache.disk)
  }

  /** The reply a request must get, from what the cache is at its turn and from how the device ends its transfers. */
  ghost predicate Ends(was: Snap, spb: nat, op: Request, r: Reply) {
    was.hand < |was.entries| &&
    match op
    case ReadOp(b, writeBack, fetch) =>
      if HeldUp(was.entries, b) then r.Stuck?
      else if Find(was.entries, b) < |was.entries| then r.Ok?
      else exists lost :: ReadEnds(was.entries, was.hand, was.disk, spb, b, writeBack, fetch, r, lost)
    case WriteOp(b, src, writeBack) =>
      if HeldUp(was.entries, b) then r.Stuck?
      else if Find(was.entries, b) < |was.entries| then r.Ok?
      else exists lost :: WriteEnds(was.entries, was.hand, was.disk, spb, writeBack, r, lost)
    case FlushOp(verdict) =>
      if DeviceTakes(was.entries, was.disk, spb, verdict, |was.entries|) then r.Ok? else r.Err?
  }

  /**
   Any run of requests with any failures: every request gets the reply that the state at its turn and the device's
   outcomes give it; the cache is a flat disk on which the successful writes happened, every successful read returns
   what that disk holds at its turn, and a block once held up is stuck in every request.
   */
  method Serve(cache: Cache, ops: seq<Request>) returns (replies: seq<Reply>, ghost trace: seq<Snap>)
    requires cache.Valid() && forall k :: 0 <= k < |ops| && ops[k].WriteOp? ==> |ops[k].src| == cache.spb
    modifies cache
    ensures cache.Valid() && Answered(old(cache.entries), old(cache.disk), cache.spb, ops, replies)
    ensures |replies| == |ops| && |trace| == |ops| + 1 && trace[0] == old(SnapOf(cache))
    ensures trace[|ops|] == SnapOf(cache)
    ensures forall k :: 0 <= k < |ops| ==> Ends(trace[k], cache.spb, ops[k], replies[k])
    ensures forall b: nat :: cache.Content(b) == Stored(old(cache.Content(b)), b, ops, replies)
    ensures forall b: nat :: old(HeldUp(cache.entries, b)) ==> HeldUp(cache.entries, b)
  {
    ghost var was := SnapOf(cache);
    replies, trace := [], [was];
    NothingServed(was, cache.spb);
    for n := 0 to |ops|
      invariant cache.Valid() && Served(was, SnapOf(cache), cache.spb, ops[..n], replies, trace)
    {
      ghost var before := SnapOf(cache);
      var r := ServeOne(cache, ops[n]);
      ServedNext(was, before, SnapOf(cache), cache.spb, ops[..n], replies, trace, ops[n], r);
      assert ops[..n + 1] == ops[..n] + [ops[n]];
      replies, trace := replies + [r], trace + [SnapOf(cache)];
    }
    assert ops[..|ops|] == ops;
  }

  /** What one request does: to contents by its reply, to the blocks held up, and its reply by the state before. */
  ghost predicate Turn(before: Snap, now: Snap, spb: nat, op: Request, r: Reply) {
    && Ends(before, spb, op, r)
    && (forall b: nat :: Logical(now.entries, now.disk, spb, b) ==
          if op.WriteOp? && op.block == b && r.Ok? then Some(op.src)
          else Logical(before.entries, before.disk, spb, b))
    && (op.ReadOp? && r.Ok? ==> Some(r.data) == Logical(before.entries, before.disk, spb, op.block))
    && (!op.FlushOp? ==> (r.Stuck? <==> HeldUp(before.entries, op.block)))
    && (forall b: nat :: HeldUp(before.entries, b) ==> HeldUp(now.entries, b))
  }

  ghost predicate Served(was: Snap, now: Snap, spb: nat, ops: seq<Request>, replies: seq<Reply>, trace: seq<Snap>) {
    && Answered(was.entries, was.disk, spb, ops, replies) && Flat(was, now, spb, ops, replies)
    && Replied(trace, spb, ops, replies) && trace[0] == was && trace[|ops|] == now
    && forall b: nat :: HeldUp(was.entries, b) ==> HeldUp(now.entries, b)
  }

  lemma NothingServed(was: Snap, spb: nat)
    ensures Served(was, was, spb, [], [], [was])
  {
  }

  lemma ServedNext(was: Snap, before: Snap, now: Snap, spb: nat, ops: seq<Request>, replies: seq<Reply>,
                   trace: seq<Snap>, op: Request, r: Reply)
    requires Served(was, before, spb, ops, replies, trace) && Turn(before, now, spb, op, r)
    ensures Served(was, now, spb, ops + [op], replies + [r], trace + [now])
  {
    assert AnsweredAt(op, r, HeldUp(was.entries, BlockOf(op)),
                      Stored(Logical(was.entries, was.disk, spb, BlockOf(op)), BlockOf(op), ops, replies));
    AnsweredNext(was.entries, was.disk, spb, ops, replies, op, r);
    FlatNext(was, before, now, spb, ops, replies, op, r);
    RepliedNext(trace, spb, ops, replies, op, r, now);
  }

  /** Every reply so far is the one its request had to get at its turn. */
  ghost predicate Replied(trace: seq<Snap>, spb: nat, ops: seq<Request>, replies: seq<Reply>) {
    && |replies| == |ops| && |trace| == |ops| + 1
    && forall k :: 0 <= k < |ops| ==> Ends(trace[k], spb, ops[k], replies[k])
  }

  lemma RepliedNext(trace: seq<Snap>, spb: nat, ops: seq<Request>, replies: seq<Reply>, op: Request, r: Reply,
                    now: Snap)
    requires Replied(trace, spb, ops, replies) && Ends(trace[|ops|], spb, op, r)
    ensures Replied(trace + [now], spb, ops + [op], replies + [r])
  {
    var trace', ops', replies' := trace + [now], ops + [op], replies + [r];
    forall k | 0 <= k < |ops'|
      ensures Ends(trace'[k], spb, ops'[k], replies'[k])
    {
      assert trace'[k] == trace[k];
      if k < |ops| { assert Ends(trace[k], spb, ops[k], replies[k]); }
    }
  }

  /** The cache holds what a flat disk would on which the successful writes happened. */
  ghost predicate Flat(was: Snap, now: Snap, spb: nat, ops: seq<Request>, replies: seq<Reply>) {
    && |replies| == |ops|
    && forall b: nat :: Logical(now.entries, now.disk, spb, b) ==
         Stored(Logical(was.entries, was.disk, spb, b), b, ops, replies)
  }

  lemma FlatNext(was: Snap, before: Snap, now: Snap, spb: nat, ops: seq<Request>, replies: seq<Reply>, op: Request,
                 r: Reply)
    requires Flat(was, before, spb, ops, replies)
    requires forall b: nat :: Logical(now.entries, now.disk, spb, b) ==
               if op.WriteOp? && op.block == b && r.Ok? then Some(op.src)
               else Logical(before.entries, before.disk, spb, b)
    ensures Flat(was, now, spb, ops + [op], replies + [r])
  {
    forall b: nat
      ensures Logical(now.entries, now.disk, spb, b) ==
              Stored(Logical(was.entries, was.disk, spb, b), b, ops + [op], replies + [r])
    {
      StoredNext(Logical(was.entries, was.disk, spb, b), b, ops, replies, op, r);
    }
  }

  method ServeOne(cache: Cache, op: Request) returns (r: Reply)
    requires cache.Valid() && (op.WriteOp? ==> |op.src| == cache.spb)
    modifies cache
    ensures cache.Valid() && Turn(old(SnapOf(cache)), SnapOf(cache), cache.spb, op, r)
  {
    ghost var before := SnapOf(cache);
    r := Dispatch(cache, op);
    ghost var now := SnapOf(cache);
    forall b: nat
      ensures Logical(now.entries, now.disk, cache.spb, b) ==
              if op.WriteOp? && op.block == b && r.Ok? then Some(op.src)
              else Logical(before.entries, before.disk, cache.spb, b)
    {
      assert cache.Content(b) == Logical(now.entries, now.disk, cache.spb, b);
      assert old(cache.Content(b)) == Logical(before.entries, before.disk, cache.spb, b);
    }
  }

  method Dispatch(cache: Cache, op: Request) returns (r: Reply)
    requires cache.Valid() && (op.WriteOp? ==> |op.src| == cache.spb)
    modifies cache
    ensures cache.Valid() && Ends(old(SnapOf(cache)), cache.spb, op, r)
    ensures forall b: nat :: cache.Content(b) ==
              if op.WriteOp? && op.block == b && r.Ok? then Some(op.src) else old(cache.Content(b))
    ensures op.ReadOp? && r.Ok? ==> Some(r.data) == old(cache.Content(op.block))
    ensures !op.FlushOp? ==> (r.Stuck? <==> old(HeldUp(cache.entries, op.block)))
    ensures forall b: nat :: old(HeldUp(cache.entries, b)) ==> HeldUp(cache.entries, b)
  {
    ghost var lost;
    match op
    case ReadOp(b, writeBack, fetch) => r, lost := cache.ReadBlock(b, writeBack, fetch);
    case WriteOp(b, src, writeBack) => r, lost := cache.WriteBlock(b, src, writeBack);
    case FlushOp(verdict) => r := cache.Flush(verdict);
  }

  /** One slot, one block, one failed fetch: the block can never be read again, however often one tries. */
  method HeldForEver(zero: Sector, tries: nat) returns (first: Reply, later: seq<Reply>)
    ensures first.Err? && |later| == tries && forall k :: 0 <= k < tries ==> later[k].Stuck?
  {
    var cache := new Cache([zero], 1, 1, zero);
    ghost var lost;
    assert Vacant(cache.entries[0]);
    first, lost := cache.ReadBlock(0, Done, Failed([]));
    assert lost == Some(0);
    ghost var trace;
    later, trace := Serve(cache, seq(tries, k => ReadOp(0, Done, Done)));
    forall k | 0 <= k < tries
      ensures later[k].Stuck?
    {
    }
  }
}
