/**
 Overlapping cache operations, one step per locked section of `read_block`, `write_block` and `flush`; between two
 sections of one operation any other may run. Only slots are claimed here: who reserves, names and releases them.
 */
module CacheProtocol {
  import opened Wrappers
  import opened BlockCache

  /** What an operation does next, and the slot index it remembers from an earlier locked section. */
  datatype Phase =
    | Scanning               // look the block up
    | Hit(slot: nat)         // found settled, lock dropped: touch the remembered slot
    | Missed                 // not found, lock dropped: reserve a slot
    | Taken(slot: nat)       // slot reserved: see whether it is dirty
    | Writing(slot: nat)     // write its old block back
    | Emptied(slot: nat)     // nothing left to write back: name or fill it
    | Named(slot: nat)       // fetch into it, then publish
    | Flushing               // dirty data copied out and being written

  /** A write carries its data; a flush has no block of its own. */
  datatype Kind = Reading | WritingData(src: seq<Sector>) | FlushingAll

  datatype Op = Op(kind: Kind, block: nat, phase: Phase)

  datatype State = State(entries: seq<Entry>, hand: nat, ops: map<nat, Op>)

  // ---------------------------------------------------------------- steps

  /** The locked sections and the ends of device transfers; who is the operation that moves. */
  datatype Event =
    | Begin(who: nat, kind: Kind, block: nat)
    | Scan(who: nat)
    | Touch(who: nat)
    | Reserve(who: nat, now: seq<Entry>, hand: nat, slot: Option<nat>)
    | Inspect(who: nat)
    | WrittenBack(who: nat)
    | Name(who: nat)
    | Fill(who: nat)
    | Publish(who: nat, data: seq<Sector>)
    | Clear(who: nat, now: seq<Entry>)
    | GiveUp(who: nat, torn: seq<Sector>)

  predicate At(s: State, who: nat, p: Phase -> bool) {
    who in s.ops && p(s.ops[who].phase)
  }

  ghost predicate Possible(s: State, e: Event) {
    match e
    case Begin(who, kind, b) => who !in s.ops
    case Scan(who) => At(s, who, (p: Phase) => p.Scanning?)
    case Touch(who) => At(s, who, (p: Phase) => p.Hit?)
    case Reserve(who, now, hand, slot) =>
      At(s, who, (p: Phase) => p.Missed?) && s.hand < |s.entries| && Reserves(s.entries, s.hand, now, hand, slot)
    case Inspect(who) => At(s, who, (p: Phase) => p.Taken?)
    case WrittenBack(who) => At(s, who, (p: Phase) => p.Writing?)
    case Name(who) => At(s, who, (p: Phase) => p.Emptied?) && s.ops[who].kind.Reading?
    case Fill(who) => At(s, who, (p: Phase) => p.Emptied?) && s.ops[who].kind.WritingData?
    case Publish(who, data) => At(s, who, (p: Phase) => p.Named?)
    case Clear(who, now) => At(s, who, (p: Phase) => p.Flushing?) && Cleared(s.entries, now)
    case GiveUp(who, torn) => At(s, who, (p: Phase) => p.Writing? || p.Named? || p.Flushing?)
  }

  function Put(s: State, i: nat, e: Entry): State {
    if i < |s.entries| then s.(entries := s.entries[i := e]) else s
  }

  function EntryAt(s: State, i: nat): Entry {
    if i < |s.entries| then s.entries[i] else Entry(None, false, false, false, [])
  }

  function Go(s: State, who: nat, phase: Phase): State
    requires who in s.ops
  {
    s.(ops := s.ops[who := s.ops[who].(phase := phase)])
  }

  function Leave(s: State, who: nat): State { s.(ops := s.ops - {who}) }

  ghost function Happen(s: State, e: Event): State
    requires Possible(s, e)
  {
    match e
    case Begin(who, kind, b) => s.(ops := s.ops[who := Op(kind, b, if kind.FlushingAll? then Flushing else Scanning)])
    case Scan(who) =>
      var i := Find(s.entries, s.ops[who].block);
      if i == |s.entries| then Go(s, who, Missed) else if s.entries[i].inFlight then s else Go(s, who, Hit(i))
    case Touch(who) =>
      var op := s.ops[who];
      var e := EntryAt(s, op.phase.slot);
      Leave(Put(s, op.phase.slot,
                if op.kind.WritingData? then e.(referenced := true, dirty := true, data := op.kind.src)
                else e.(referenced := true)),
            who)
    case Reserve(who, now, hand, slot) =>
      var s' := s.(entries := now, hand := hand);
      if slot.None? then Leave(s', who) else Go(s', who, Taken(slot.value))
    case Inspect(who) =>
      var i := s.ops[who].phase.slot;
      Go(s, who, if EntryAt(s, i).dirty && EntryAt(s, i).block.Some? then Writing(i) else Emptied(i))
    case WrittenBack(who) =>
      var i := s.ops[who].phase.slot;
      Go(Put(s, i, EntryAt(s, i).(dirty := false)), who, Emptied(i))
    case Name(who) =>
      var i := s.ops[who].phase.slot;
      Go(Put(s, i, EntryAt(s, i).(block := Some(s.ops[who].block))), who, Named(i))
    case Fill(who) =>
      var op := s.ops[who];
      Leave(Put(s, op.phase.slot, Entry(Some(op.block), true, true, false, op.kind.src)), who)
    case Publish(who, data) =>
      var i := s.ops[who].phase.slot;
      Leave(Put(s, i, EntryAt(s, i).(data := data, referenced := true, inFlight := false)), who)
    case Clear(who, now) => Leave(s.(entries := now), who)
    case GiveUp(who, torn) =>
      var op := s.ops[who];
      Leave(if op.phase.Named? then Put(s, op.phase.slot, EntryAt(s, op.phase.slot).(data := torn)) else s, who)
  }

  // ---------------------------------------------------------------- invariant

  /** The operation has reserved the slot and not yet released it. */
  predicate Holds(s: State, who: nat, i: nat) {
    && who in s.ops
    && match s.ops[who].phase
       case Taken(j) => i == j
       case Writing(j) => i == j
       case Emptied(j) => i == j
       case Named(j) => i == j
       case _ => false
  }

  /** Held slots exist, are in flight, and have one holder; a slot held by a fetch carries the block it fetches. */
  ghost predicate Exclusive(s: State) {
    && s.hand < |s.entries|
    && (forall who, i: nat :: Holds(s, who, i) ==> i < |s.entries| && s.entries[i].inFlight)
    && (forall who, other, i: nat :: Holds(s, who, i) && Holds(s, other, i) ==> who == other)
    && (forall who :: who in s.ops && s.ops[who].phase.Named? ==>
          EntryAt(s, s.ops[who].phase.slot).block == Some(s.ops[who].block))
  }

  /** What a step may do to slots: only its own operation's slot may land or change its block. */
  ghost predicate OwnSlotOnly(s: State, s': State, who: nat) {
    && |s'.entries| == |s.entries|
    && (forall i :: 0 <= i < |s.entries| && s.entries[i].inFlight && !Holds(s, who, i) ==> s'.entries[i].inFlight)
    && (forall i :: 0 <= i < |s.entries| && !Holds(s, who, i) ==> s'.entries[i].block == s.entries[i].block)
  }

  /** A step takes flight only in a slot that was not in flight, and that slot is the one it then holds. */
  ghost predicate TakesFree(s: State, s': State, who: nat) {
    && |s'.entries| == |s.entries|
    && (forall i :: 0 <= i < |s.entries| && !s.entries[i].inFlight && s'.entries[i].inFlight ==> Holds(s', who, i))
    && (forall i: nat :: Holds(s', who, i) && !Holds(s, who, i) ==> i < |s.entries| && !s.entries[i].inFlight)
  }

  lemma StepSlots(s: State, e: Event)
    requires Exclusive(s) && Possible(s, e)
    ensures OwnSlotOnly(s, Happen(s, e), e.who)
  {
    if e.Reserve? { ReservesOne(s.entries, s.hand, e.now, e.hand, e.slot); }
  }

  lemma StepTakes(s: State, e: Event)
    requires Exclusive(s) && Possible(s, e)
    ensures TakesFree(s, Happen(s, e), e.who)
  {
    if e.Reserve? { ReservesOne(s.entries, s.hand, e.now, e.hand, e.slot); }
  }

  /** Only the operation that moves changes its phase. */
  lemma StepOthers(s: State, e: Event, other: nat)
    requires Possible(s, e) && other != e.who
    ensures other in s.ops <==> other in Happen(s, e).ops
    ensures other in s.ops ==> Happen(s, e).ops[other] == s.ops[other]
    ensures forall i: nat :: Holds(s, other, i) <==> Holds(Happen(s, e), other, i)
  {
  }

  /** The slot an operation holds after its own step is in flight and, in a fetch, named. */
  lemma StepOwn(s: State, e: Event, i: nat)
    requires Exclusive(s) && Possible(s, e) && Holds(Happen(s, e), e.who, i)
    ensures i < |Happen(s, e).entries| && Happen(s, e).entries[i].inFlight
    ensures Happen(s, e).ops[e.who].phase.Named? ==>
              Happen(s, e).entries[i].block == Some(Happen(s, e).ops[e.who].block)
  {
    if e.Reserve? {
      ReservesOne(s.entries, s.hand, e.now, e.hand, e.slot);
    } else {
      assert Holds(s, e.who, i);
    }
  }

  /** While others move, what an operation holds stays reserved for it: in flight, under the same block. */
  lemma HeldUntouched(s: State, e: Event, who: nat, i: nat)
    requires Exclusive(s) && Possible(s, e) && who != e.who && Holds(s, who, i)
    ensures Holds(Happen(s, e), who, i) && i < |s.entries| == |Happen(s, e).entries|
    ensures Happen(s, e).entries[i].inFlight && Happen(s, e).entries[i].block == s.entries[i].block
  {
    StepSlots(s, e);
    StepOthers(s, e, who);
    assert !Holds(s, e.who, i);
  }

  /** Every locked section of every operation keeps the reservations exclusive. */
  lemma StepKept(s: State, e: Event)
    requires Exclusive(s) && Possible(s, e)
    ensures Exclusive(Happen(s, e))
  {
    var s' := Happen(s, e);
    forall who, i: nat | Holds(s', who, i)
      ensures i < |s'.entries| && s'.entries[i].inFlight
    {
      if who == e.who {
        StepOwn(s, e, i);
      } else {
        StepOthers(s, e, who);
        HeldUntouched(s, e, who, i);
      }
    }
    forall who, other, i: nat | Holds(s', who, i) && Holds(s', other, i)
      ensures who == other
    {
      OneHolder(s, e, who, other, i);
    }
    forall who | who in s'.ops && s'.ops[who].phase.Named?
      ensures EntryAt(s', s'.ops[who].phase.slot).block == Some(s'.ops[who].block)
    {
      var i := s'.ops[who].phase.slot;
      assert Holds(s', who, i);
      if who == e.who {
        StepOwn(s, e, i);
      } else {
        StepOthers(s, e, who);
        HeldUntouched(s, e, who, i);
      }
    }
    HandKept(s, e);
  }

  lemma OneHolder(s: State, e: Event, who: nat, other: nat, i: nat)
    requires Exclusive(s) && Possible(s, e) && Holds(Happen(s, e), who, i) && Holds(Happen(s, e), other, i)
    ensures who == other
  {
    StepTakes(s, e);
    if who != e.who { StepOthers(s, e, who); }
    if other != e.who { StepOthers(s, e, other); }
  }

  lemma HandKept(s: State, e: Event)
    requires Exclusive(s) && Possible(s, e)
    ensures Happen(s, e).hand < |Happen(s, e).entries|
  {
  }

  // ---------------------------------------------------------------- every interleaving

  /** An empty cache of n slots with nothing under way. */
  ghost predicate Initial(s: State) {
    s.ops == map[] && s.hand == 0 < |s.entries| && forall i :: 0 <= i < |s.entries| ==> Vacant(s.entries[i])
  }

  ghost predicate PossibleRun(s: State, es: seq<Event>)
    decreases |es|
  {
    es == [] || (Possible(s, es[0]) && PossibleRun(Happen(s, es[0]), es[1..]))
  }

  ghost function After(s: State, es: seq<Event>): State
    requires PossibleRun(s, es)
    decreases |es|
  {
    if es == [] then s else After(Happen(s, es[0]), es[1..])
  }

  lemma {:induction false} RunExclusive(s: State, es: seq<Event>)
    requires Exclusive(s) && PossibleRun(s, es)
    ensures Exclusive(After(s, es))
    decreases |es|
  {
    if es != [] {
      StepKept(s, es[0]);
      RunExclusive(Happen(s, es[0]), es[1..]);
    }
  }

  /**
   In every interleaving from an empty cache no two operations hold the same slot, and every held slot is in flight.
   */
  lemma NoSharedSlot(s: State, es: seq<Event>, who: nat, other: nat, i: nat)
    requires Initial(s) && PossibleRun(s, es) && Holds(After(s, es), who, i)
    ensures i < |After(s, es).entries| && After(s, es).entries[i].inFlight
    ensures Holds(After(s, es), other, i) ==> who == other
  {
    RunExclusive(s, es);
  }

  /** Between two sections of an operation, however many others run, its slot stays in flight under the same block. */
  lemma {:induction false} HeldAcrossRun(s: State, es: seq<Event>, who: nat, i: nat)
    requires Exclusive(s) && PossibleRun(s, es) && Holds(s, who, i) && forall k :: 0 <= k < |es| ==> es[k].who != who
    ensures var s' := After(s, es);
            Holds(s', who, i) && i < |s.entries| == |s'.entries| && s'.entries[i].inFlight &&
              s'.entries[i].block == s.entries[i].block
    decreases |es|
  {
    if es != [] {
      HeldUntouched(s, es[0], who, i);
      StepKept(s, es[0]);
      HeldAcrossRun(Happen(s, es[0]), es[1..], who, i);
    }
  }

  /** In flight, and no operation left that could land it. */
  ghost predicate Abandoned(s: State, i: nat) {
    i < |s.entries| && s.entries[i].inFlight && forall who :: !Holds(s, who, i)
  }

  /** Giving up after a failed transfer abandons the slot, */
  lemma GiveUpAbandons(s: State, e: Event, i: nat)
    requires Exclusive(s) && Possible(s, e) && e.GiveUp? && Holds(s, e.who, i)
    ensures Abandoned(Happen(s, e), i)
  {
    var s' := Happen(s, e);
    forall who
      ensures !Holds(s', who, i)
    {
      if who != e.who { StepOthers(s, e, who); }
    }
  }

  lemma AbandonedKept(s: State, e: Event, i: nat)
    requires Exclusive(s) && Possible(s, e) && Abandoned(s, i)
    ensures Abandoned(Happen(s, e), i) && Happen(s, e).entries[i].block == s.entries[i].block
  {
    var s' := Happen(s, e);
    StepSlots(s, e);
    StepTakes(s, e);
    forall who
      ensures !Holds(s', who, i)
    {
      if who != e.who { StepOthers(s, e, who); }
    }
  }

  /** and in no run does the cache ever get the slot back. */
  lemma {:induction false} AbandonedForEver(s: State, es: seq<Event>, i: nat)
    requires Exclusive(s) && PossibleRun(s, es) && Abandoned(s, i)
    ensures Abandoned(After(s, es), i) && After(s, es).entries[i].block == s.entries[i].block
    decreases |es|
  {
    if es != [] {
      AbandonedKept(s, es[0], i);
      StepKept(s, es[0]);
      AbandonedForEver(Happen(s, es[0]), es[1..], i);
    }
  }

  // ---------------------------------------------------------------- hits and the slots they remember

  /** The step gives slot i to a block: the one of the operation that moves. */
  ghost predicate Names(s: State, e: Event, i: nat)
    requires Possible(s, e)
  {
    (e.Name? || e.Fill?) && s.ops[e.who].phase.slot == i
  }

  /** The block that slot i was last given to in a run, if it was given to any. */
  ghost function Renamed(s: State, es: seq<Event>, i: nat): Option<nat>
    requires PossibleRun(s, es)
    decreases |es|
  {
    if es == [] then None
    else
      var later := Renamed(Happen(s, es[0]), es[1..], i);
      if later.None? && Names(s, es[0], i) then Some(s.ops[es[0].who].block) else later
  }

  /** A slot's block changes by being given to another one, and in no other way. */
  lemma {:induction false} BlockAlong(s: State, es: seq<Event>, i: nat)
    requires Exclusive(s) && PossibleRun(s, es) && i < |s.entries|
    ensures |After(s, es).entries| == |s.entries|
    ensures After(s, es).entries[i].block == if Renamed(s, es, i).Some? then Renamed(s, es, i) else s.entries[i].block
    decreases |es|
  {
    if es != [] {
      BlockStep(s, es[0], i);
      StepKept(s, es[0]);
      BlockAlong(Happen(s, es[0]), es[1..], i);
    }
  }

  lemma BlockStep(s: State, e: Event, i: nat)
    requires Exclusive(s) && Possible(s, e) && i < |s.entries|
    ensures |Happen(s, e).entries| == |s.entries|
    ensures Happen(s, e).entries[i].block == if Names(s, e, i) then Some(s.ops[e.who].block) else s.entries[i].block
  {
    if e.Reserve? { ReservesOne(s.entries, s.hand, e.now, e.hand, e.slot); }
  }

  /** What a hit remembers is right when it looks: a settled slot with its block. */
  lemma ScanHits(s: State, who: nat, i: nat)
    requires Possible(s, Scan(who)) && Happen(s, Scan(who)).ops[who].phase == Hit(i)
    ensures i < |s.entries| && Settled(s.entries[i]) && s.entries[i].block == Some(s.ops[who].block)
    ensures Happen(s, Scan(who)).entries == s.entries
  {
  }

  /**
   A hit uses the slot it remembers without looking again. It uses its own block's slot if and only if, of the
   operations that were given the slot since, the last one works on the same block.
   */
  lemma HitLandsExactly(s: State, es: seq<Event>, who: nat, i: nat)
    requires Exclusive(s) && Possible(s, Scan(who)) && Happen(s, Scan(who)).ops[who].phase == Hit(i)
    requires PossibleRun(Happen(s, Scan(who)), es)
    ensures var s1 := Happen(s, Scan(who)); var b := s.ops[who].block;
            && i < |After(s1, es).entries|
            && (After(s1, es).entries[i].block == Some(b) <==> Renamed(s1, es, i) in {None, Some(b)})
  {
    ScanHits(s, who, i);
    StepKept(s, Scan(who));
    BlockAlong(Happen(s, Scan(who)), es, i);
  }

  /** A settled slot that no operation reserves is given to none. */
  lemma {:induction false} UnreservedNotRenamed(s: State, es: seq<Event>, i: nat)
    requires Exclusive(s) && PossibleRun(s, es) && i < |s.entries| && Settled(s.entries[i])
    requires forall k :: 0 <= k < |es| && es[k].Reserve? ==> es[k].slot != Some(i)
    ensures Renamed(s, es, i) == None
    decreases |es|
  {
    if es != [] {
      var e := es[0];
      assert !Holds(s, e.who, i);
      StaysSettled(s, e, i);
      StepKept(s, e);
      forall k | 0 <= k < |es[1..]| && es[1..][k].Reserve?
        ensures es[1..][k].slot != Some(i)
      {
        assert es[1..][k] == es[k + 1];
      }
      UnreservedNotRenamed(Happen(s, e), es[1..], i);
    }
  }

  lemma StaysSettled(s: State, e: Event, i: nat)
    requires Exclusive(s) && Possible(s, e) && i < |s.entries| && Settled(s.entries[i])
    requires e.Reserve? ==> e.slot != Some(i)
    ensures |Happen(s, e).entries| == |s.entries| && Settled(Happen(s, e).entries[i])
  {
    if e.Reserve? { ReservesOne(s.entries, s.hand, e.now, e.hand, e.slot); }
  }

  /** A run from its first step. */
  lemma FirstStep(s: State, e: Event, s': State, es: seq<Event>)
    requires Possible(s, e) && Happen(s, e) == s' && PossibleRun(s', es)
    ensures PossibleRun(s, [e] + es) && After(s, [e] + es) == After(s', es)
  {
    assert ([e] + es)[1..] == es;
  }

  // ---------------------------------------------------------------- operations nobody interrupts

  /** The sections of a hit, and those of a miss once the block was looked up in vain. */
  function HitRun(who: nat, kind: Kind, b: nat): seq<Event> {
    [Begin(who, kind, b)] + ([Scan(who)] + ([Touch(who)] + []))
  }

  function MissRun(who: nat, kind: Kind, b: nat, tail: seq<Event>): seq<Event> {
    [Begin(who, kind, b)] + ([Scan(who)] + tail)
  }

  function ReadTail(who: nat, data: seq<Sector>): seq<Event> { [Name(who)] + ([Publish(who, data)] + []) }

  function WriteTail(who: nat): seq<Event> { [Fill(who)] + [] }

  /** Reserve a slot and write back what it holds, if it is dirty. */
  function EvictRun(who: nat, now: seq<Entry>, hand: nat, i: nat, dirty: bool, tail: seq<Event>): seq<Event> {
    [Reserve(who, now, hand, Some(i))] + ([Inspect(who)] + if dirty then [WrittenBack(who)] + tail else tail)
  }

  /** A hit that nobody interrupts marks its block's slot as used and, in a write, leaves the data in it, dirty;
      nothing else changes. */
  lemma HitAlone(s: State, who: nat, kind: Kind, b: nat, i: nat)
    requires who !in s.ops && !kind.FlushingAll? && i < |s.entries| && !s.entries[i].inFlight
    requires s.entries[i].block == Some(b) && forall j :: 0 <= j < i ==> s.entries[j].block != Some(b)
    ensures var e := s.entries[i];
            && PossibleRun(s, HitRun(who, kind, b))
            && After(s, HitRun(who, kind, b)) == s.(entries := s.entries[i :=
                 if kind.Reading? then Entry(Some(b), true, e.dirty, false, e.data)
                 else Entry(Some(b), true, true, false, kind.src)])
  {
    var op := Op(kind, b, Scanning);
    var s1 := s.(ops := s.ops[who := op]);
    var s2 := s.(ops := s.ops[who := op.(phase := Hit(i))]);
    assert Find(s.entries, b) == i;
    assert Happen(s1, Scan(who)) == s2;
    var s3 := Happen(s2, Touch(who));
    assert s3.ops == s.ops;
    FirstStep(s2, Touch(who), s3, []);
    FirstStep(s1, Scan(who), s2, [Touch(who)] + []);
    FirstStep(s, Begin(who, kind, b), s1, [Scan(who)] + ([Touch(who)] + []));
  }

  /** A block found in a slot in flight: the look-up changes nothing and is done again. */
  lemma ScanWaits(s: State, who: nat, i: nat)
    requires Possible(s, Scan(who)) && i < |s.entries| && s.entries[i].inFlight
    requires s.entries[i].block == Some(s.ops[who].block)
    requires forall j :: 0 <= j < i ==> s.entries[j].block != Some(s.ops[who].block)
    ensures Happen(s, Scan(who)) == s
  {
    assert Find(s.entries, s.ops[who].block) == i;
  }

  /** A look-up in vain. */
  lemma LookUpFails(s: State, who: nat, kind: Kind, b: nat, tail: seq<Event>)
    requires who !in s.ops && !kind.FlushingAll?
    requires forall j :: 0 <= j < |s.entries| ==> s.entries[j].block != Some(b)
    requires PossibleRun(s.(ops := s.ops[who := Op(kind, b, Missed)]), tail)
    ensures PossibleRun(s, MissRun(who, kind, b, tail))
    ensures After(s, MissRun(who, kind, b, tail)) == After(s.(ops := s.ops[who := Op(kind, b, Missed)]), tail)
  {
    var s1 := s.(ops := s.ops[who := Op(kind, b, Scanning)]);
    var s2 := s.(ops := s.ops[who := Op(kind, b, Missed)]);
    assert Find(s.entries, b) == |s.entries|;
    assert Happen(s1, Scan(who)) == s2;
    FirstStep(s1, Scan(who), s2, tail);
    FirstStep(s, Begin(who, kind, b), s1, [Scan(who)] + tail);
  }

  /** The reservation and the write-back leave the operation with a slot that is in flight and clean. */
  lemma EvictAlone(s: State, who: nat, op: Op, now: seq<Entry>, hand: nat, i: nat, dirty: bool, tail: seq<Event>)
    requires s.hand < |s.entries| && who in s.ops && s.ops[who] == op && op.phase == Missed
    requires Reserves(s.entries, s.hand, now, hand, Some(i)) && i < |now|
    requires now[i].dirty ==> now[i].block.Some?
    requires dirty == now[i].dirty
    requires PossibleRun(State(now[i := now[i].(dirty := false)], hand, s.ops[who := op.(phase := Emptied(i))]), tail)
    ensures PossibleRun(s, EvictRun(who, now, hand, i, dirty, tail))
    ensures After(s, EvictRun(who, now, hand, i, dirty, tail)) ==
            After(State(now[i := now[i].(dirty := false)], hand, s.ops[who := op.(phase := Emptied(i))]), tail)
  {
    var end := State(now[i := now[i].(dirty := false)], hand, s.ops[who := op.(phase := Emptied(i))]);
    var s1 := State(now, hand, s.ops[who := op.(phase := Taken(i))]);
    var s2 := State(now, hand, s.ops[who := op.(phase := if dirty then Writing(i) else Emptied(i))]);
    assert s1.ops[who := op.(phase := if dirty then Writing(i) else Emptied(i))] == s2.ops;
    assert Happen(s1, Inspect(who)) == s2;
    var rest := if dirty then [WrittenBack(who)] + tail else tail;
    if dirty {
      assert s2.ops[who := op.(phase := Emptied(i))] == end.ops;
      FirstStep(s2, WrittenBack(who), end, tail);
    } else {
      assert now[i := now[i].(dirty := false)] == now;
    }
    FirstStep(s1, Inspect(who), s2, rest);
    FirstStep(s, Reserve(who, now, hand, Some(i)), s1, [Inspect(who)] + rest);
  }

  /** The last section of a write miss. */
  lemma FillAlone(s: State, who: nat, src: seq<Sector>, b: nat, i: nat)
    requires who in s.ops && s.ops[who] == Op(WritingData(src), b, Emptied(i)) && i < |s.entries|
    ensures PossibleRun(s, WriteTail(who))
    ensures After(s, WriteTail(who)) ==
              State(s.entries[i := Entry(Some(b), true, true, false, src)], s.hand, s.ops - {who})
  {
    FirstStep(s, Fill(who), Happen(s, Fill(who)), []);
  }

  /** The last two of a read miss. */
  lemma FetchAlone(s: State, who: nat, data: seq<Sector>, b: nat, i: nat)
    requires who in s.ops && s.ops[who] == Op(Reading, b, Emptied(i)) && i < |s.entries| && !s.entries[i].dirty
    ensures PossibleRun(s, ReadTail(who, data))
    ensures After(s, ReadTail(who, data)) ==
            State(s.entries[i := Entry(Some(b), true, false, false, data)], s.hand, s.ops - {who})
  {
    var s1 := Happen(s, Name(who));
    var s2 := Happen(s1, Publish(who, data));
    assert s2.ops == s.ops - {who};
    FirstStep(s1, Publish(who, data), s2, []);
    FirstStep(s, Name(who), s1, [Publish(who, data)] + []);
  }

  /** Nothing but the operation itself is forgotten when it leaves. */
  lemma LeavesNothing(ops: map<nat, Op>, who: nat, op: Op, op': Op)
    requires who !in ops
    ensures ops[who := op][who := op'] - {who} == ops
  {
  }

  /** A miss can only begin with its block in no slot, and no slot is dirty for no block. */
  ghost predicate CanMiss(s: State, who: nat, b: nat) {
    && s.hand < |s.entries| && who !in s.ops
    && (forall j :: 0 <= j < |s.entries| ==> s.entries[j].block != Some(b))
    && (forall j :: 0 <= j < |s.entries| && s.entries[j].dirty ==> s.entries[j].block.Some?)
  }

  function MissWith(who: nat, kind: Kind, b: nat, now: seq<Entry>, hand: nat, i: nat, tail: seq<Event>): seq<Event>
    requires i < |now|
  {
    MissRun(who, kind, b, EvictRun(who, now, hand, i, now[i].dirty, tail))
  }

  lemma MissAlone(s: State, who: nat, kind: Kind, b: nat, now: seq<Entry>, hand: nat, i: nat, s2: State,
                  tail: seq<Event>)
    requires CanMiss(s, who, b) && !kind.FlushingAll? && Reserves(s.entries, s.hand, now, hand, Some(i)) && i < |now|
    requires s2 == State(now[i := now[i].(dirty := false)], hand,
                         s.ops[who := Op(kind, b, Missed)][who := Op(kind, b, Emptied(i))])
    requires PossibleRun(s2, tail)
    ensures PossibleRun(s, MissWith(who, kind, b, now, hand, i, tail))
    ensures After(s, MissWith(who, kind, b, now, hand, i, tail)) == After(s2, tail)
  {
    ReservesOne(s.entries, s.hand, now, hand, Some(i));
    var op := Op(kind, b, Missed);
    EvictAlone(s.(ops := s.ops[who := op]), who, op, now, hand, i, now[i].dirty, tail);
    LookUpFails(s, who, kind, b, EvictRun(who, now, hand, i, now[i].dirty, tail));
  }

  lemma SlotTaken(was: seq<Entry>, hand: nat, now: seq<Entry>, newHand: nat, i: nat)
    requires hand < |was| && Reserves(was, hand, now, newHand, Some(i))
    ensures i < |now|
  {
  }

  /** A write miss that nobody interrupts leaves the reserved slot settled, used and dirty with the block and its data;
      every other slot is as the reservation left it. */
  lemma WriteMissAlone(s: State, who: nat, src: seq<Sector>, b: nat, now: seq<Entry>, hand: nat, i: nat)
    requires CanMiss(s, who, b) && Reserves(s.entries, s.hand, now, hand, Some(i))
    ensures i < |now|
    ensures var run := MissWith(who, WritingData(src), b, now, hand, i, WriteTail(who));
            PossibleRun(s, run) &&
            After(s, run) == State(now[i := Entry(Some(b), true, true, false, src)], hand, s.ops)
  {
    SlotTaken(s.entries, s.hand, now, hand, i);
    var op, op' := Op(WritingData(src), b, Missed), Op(WritingData(src), b, Emptied(i));
    var s2 := State(now[i := now[i].(dirty := false)], hand, s.ops[who := op][who := op']);
    FillAlone(s2, who, src, b, i);
    LeavesNothing(s.ops, who, op, op');
    MissAlone(s, who, WritingData(src), b, now, hand, i, s2, WriteTail(who));
  }

  /** A read miss that nobody interrupts leaves it settled, used and clean with the block and what was fetched. */
  lemma ReadMissAlone(s: State, who: nat, data: seq<Sector>, b: nat, now: seq<Entry>, hand: nat, i: nat)
    requires CanMiss(s, who, b) && Reserves(s.entries, s.hand, now, hand, Some(i))
    ensures i < |now|
    ensures var run := MissWith(who, Reading, b, now, hand, i, ReadTail(who, data));
            PossibleRun(s, run) &&
            After(s, run) == State(now[i := Entry(Some(b), true, false, false, data)], hand, s.ops)
  {
    SlotTaken(s.entries, s.hand, now, hand, i);
    var op, op' := Op(Reading, b, Missed), Op(Reading, b, Emptied(i));
    var s2 := State(now[i := now[i].(dirty := false)], hand, s.ops[who := op][who := op']);
    FetchAlone(s2, who, data, b, i);
    LeavesNothing(s.ops, who, op, op');
    MissAlone(s, who, Reading, b, now, hand, i, s2, ReadTail(who, data));
  }

  // ---------------------------------------------------------------- a flush and the writes that overtake it

  /** A flush clears the dirty bit of every settled slot and of no other, even of slots written again since it copied
      their data. */
  lemma FlushClears(s: State, who: nat, now: seq<Entry>, j: nat)
    requires Possible(s, Clear(who, now)) && j < |s.entries|
    ensures var e, s' := s.entries[j], Happen(s, Clear(who, now));
            && |s'.entries| == |s.entries| && who !in s'.ops
            && s'.entries[j] == Entry(e.block, e.referenced, e.dirty && e.inFlight, e.inFlight, e.data)
  {
    assert now[j] == if Settled(s.entries[j]) then s.entries[j].(dirty := false) else s.entries[j];
  }

  /** The step puts data into slot i. */
  ghost predicate Puts(s: State, e: Event, i: nat)
    requires Possible(s, e)
  {
    match e
    case Touch(who) => s.ops[who].kind.WritingData? && s.ops[who].phase.slot == i
    case Fill(who) => s.ops[who].phase.slot == i
    case Publish(who, data) => s.ops[who].phase.slot == i
    case GiveUp(who, torn) => s.ops[who].phase.Named? && s.ops[who].phase.slot == i
    case _ => false
  }

  ghost function DataOf(s: State, e: Event): seq<Sector>
    requires Possible(s, e)
  {
    match e
    case Publish(who, data) => data
    case GiveUp(who, torn) => torn
    case _ => if e.who in s.ops && s.ops[e.who].kind.WritingData? then s.ops[e.who].kind.src else []
  }

  /** The data last put into slot i in a run, if any was. */
  ghost function Rewritten(s: State, es: seq<Event>, i: nat): Option<seq<Sector>>
    requires PossibleRun(s, es)
    decreases |es|
  {
    if es == [] then None
    else
      var later := Rewritten(Happen(s, es[0]), es[1..], i);
      if later.None? && Puts(s, es[0], i) then Some(DataOf(s, es[0])) else later
  }

  lemma DataStep(s: State, e: Event, i: nat)
    requires Exclusive(s) && Possible(s, e) && i < |s.entries|
    ensures |Happen(s, e).entries| == |s.entries|
    ensures Happen(s, e).entries[i].data == if Puts(s, e, i) then DataOf(s, e) else s.entries[i].data
  {
    if e.Reserve? { ReservesOne(s.entries, s.hand, e.now, e.hand, e.slot); }
  }

  lemma {:induction false} DataAlong(s: State, es: seq<Event>, i: nat)
    requires Exclusive(s) && PossibleRun(s, es) && i < |s.entries|
    ensures |After(s, es).entries| == |s.entries|
    ensures After(s, es).entries[i].data ==
            if Rewritten(s, es, i).Some? then Rewritten(s, es, i).value else s.entries[i].data
    decreases |es|
  {
    if es != [] {
      DataStep(s, es[0], i);
      StepKept(s, es[0]);
      DataAlong(Happen(s, es[0]), es[1..], i);
    }
  }

  /** The flush that began in s copied exactly this block with this data out of slot i. */
  predicate CopiedOut(s: State, i: nat, e: Entry) {
    && i < |s.entries| && s.entries[i].dirty && !s.entries[i].inFlight && s.entries[i].block.Some?
    && s.entries[i].block == e.block && s.entries[i].data == e.data
  }

  /**
   A flush copies dirty data out, writes it, and then clears dirty bits without looking again. A dirty slot it clears
   was saved by it if and only if the slot was dirty and settled when the flush began, and the last block and the last
   data that were put into the slot since, if any, are those it had.
   */
  lemma FlushSavesExactly(s: State, who: nat, es: seq<Event>, now: seq<Entry>, i: nat)
    requires Exclusive(s) && Possible(s, Begin(who, FlushingAll, 0)) && i < |s.entries|
    requires PossibleRun(Happen(s, Begin(who, FlushingAll, 0)), es)
    requires Possible(After(Happen(s, Begin(who, FlushingAll, 0)), es), Clear(who, now))
    ensures var s1 := Happen(s, Begin(who, FlushingAll, 0));
            var e, was := After(s1, es), s.entries[i];
            && i < |e.entries| == |Happen(e, Clear(who, now)).entries|
            && (!e.entries[i].inFlight ==> !Happen(e, Clear(who, now)).entries[i].dirty)
            && (CopiedOut(s, i, e.entries[i]) <==>
                  && was.dirty && !was.inFlight && was.block.Some?
                  && Renamed(s1, es, i) in {None, was.block} && Rewritten(s1, es, i) in {None, Some(was.data)})
  {
    var s1 := Happen(s, Begin(who, FlushingAll, 0));
    StepKept(s, Begin(who, FlushingAll, 0));
    BlockAlong(s1, es, i);
    DataAlong(s1, es, i);
    FlushClears(After(s1, es), who, now, i);
  }

  /** Slot i was left alone since, or is in flight. */
  predicate AloneOrAway(was: Entry, e: Entry) {
    e.inFlight || (e.block == was.block && e.data == was.data && (e.dirty ==> was.dirty))
  }

  lemma LeftAlone(s: State, e: Event, i: nat, was: Entry)
    requires Exclusive(s) && Possible(s, e) && i < |s.entries| && AloneOrAway(was, s.entries[i]) && !Puts(s, e, i)
    ensures |Happen(s, e).entries| == |s.entries| && AloneOrAway(was, Happen(s, e).entries[i])
  {
    StepSlots(s, e);
    BlockStep(s, e, i);
    DataStep(s, e, i);
    if e.Reserve? { ReservesOne(s.entries, s.hand, e.now, e.hand, e.slot); }
  }

  lemma {:induction false} LeftAloneAlong(s: State, es: seq<Event>, i: nat, was: Entry)
    requires Exclusive(s) && PossibleRun(s, es) && i < |s.entries| && AloneOrAway(was, s.entries[i])
    requires Rewritten(s, es, i) == None
    ensures |After(s, es).entries| == |s.entries| && AloneOrAway(was, After(s, es).entries[i])
    decreases |es|
  {
    if es != [] {
      LeftAlone(s, es[0], i, was);
      StepKept(s, es[0]);
      LeftAloneAlong(Happen(s, es[0]), es[1..], i, was);
    }
  }

  /** So a slot that was settled when the flush began, and into which nobody puts data before the bits are cleared,
      loses no dirty bit that was not paid for. */
  lemma UnwrittenIsSaved(s: State, who: nat, es: seq<Event>, i: nat)
    requires Exclusive(s) && Possible(s, Begin(who, FlushingAll, 0)) && i < |s.entries| && Settled(s.entries[i])
    requires s.entries[i].dirty ==> s.entries[i].block.Some?
    requires PossibleRun(Happen(s, Begin(who, FlushingAll, 0)), es)
    requires Rewritten(Happen(s, Begin(who, FlushingAll, 0)), es, i) == None
    ensures var after := After(Happen(s, Begin(who, FlushingAll, 0)), es);
            && |after.entries| == |s.entries|
            && (after.entries[i].dirty && Settled(after.entries[i]) ==> CopiedOut(s, i, after.entries[i]))
  {
    StepKept(s, Begin(who, FlushingAll, 0));
    LeftAloneAlong(Happen(s, Begin(who, FlushingAll, 0)), es, i, s.entries[i]);
  }

  /** A write that hits after the flush has copied and before it clears. */
  function OvertakenFlush(src: seq<Sector>): seq<Event> {
    [Begin(0, FlushingAll, 0)] + ([Begin(1, WritingData(src), 0)] + ([Scan(1)] + ([Touch(1)] + [])))
  }

  /** That write is left in a slot marked clean, with data the flush never copied: eviction will drop it. */
  lemma LostWrite(d: seq<Sector>, src: seq<Sector>)
    requires d != src
    ensures PossibleRun(OneSlot(d), OvertakenFlush(src))
    ensures var s := After(OneSlot(d), OvertakenFlush(src));
            var now := [Entry(Some(0), true, false, false, src)];
            && Possible(s, Clear(0, now)) && Happen(s, Clear(0, now)) == State(now, 0, map[])
            && |s.entries| == 1 && s.entries[0].dirty && !CopiedOut(OneSlot(d), 0, s.entries[0])
  {
    var s0, flush := OneSlot(d), Op(FlushingAll, 0, Flushing);
    var s1 := s0.(ops := map[0 := flush]);
    var s2 := s0.(ops := map[0 := flush, 1 := Op(WritingData(src), 0, Scanning)]);
    var s3 := s0.(ops := map[0 := flush, 1 := Op(WritingData(src), 0, Hit(0))]);
    var s4 := State([Entry(Some(0), true, true, false, src)], 0, map[0 := flush]);
    FirstStep(s3, Touch(1), s4, []);
    FirstStep(s2, Scan(1), s3, [Touch(1)] + []);
    FirstStep(s1, Begin(1, WritingData(src), 0), s2, [Scan(1)] + ([Touch(1)] + []));
    FirstStep(s0, Begin(0, FlushingAll, 0), s1, [Begin(1, WritingData(src), 0)] + ([Scan(1)] + ([Touch(1)] + [])));
  }

  /** A cache of one slot, which holds block 0. */
  function OneSlot(d: seq<Sector>): State { State([Entry(Some(0), false, false, false, d)], 0, map[]) }

  /** A write to block 0 hits; before it touches the slot, a read of block 1 takes it. */
  function Overtaken(d: seq<Sector>, src: seq<Sector>, fetched: seq<Sector>): seq<Event> {
    [Begin(0, WritingData(src), 0)] + ([Scan(0)] + ([Begin(1, Reading, 1)] + ([Scan(1)] + MissTail(d, fetched))))
  }

  function MissTail(d: seq<Sector>, fetched: seq<Sector>): seq<Event> {
    [Reserve(1, [Entry(Some(0), false, false, true, d)], 0, Some(0))] +
    ([Inspect(1)] + ([Name(1)] + ([Publish(1, fetched)] + ([Touch(0)] + []))))
  }

  /** The write to block 0 ends up as dirty content of block 1. */
  lemma StaleHit(d: seq<Sector>, src: seq<Sector>, fetched: seq<Sector>)
    ensures Exclusive(OneSlot(d)) && PossibleRun(OneSlot(d), Overtaken(d, src, fetched))
    ensures After(OneSlot(d), Overtaken(d, src, fetched)).entries == [Entry(Some(1), true, true, false, src)]
  {
    var s0, write := OneSlot(d), Op(WritingData(src), 0, Hit(0));
    var s1 := s0.(ops := map[0 := Op(WritingData(src), 0, Scanning)]);
    var s2 := s0.(ops := map[0 := write]);
    var s3 := s0.(ops := map[0 := write, 1 := Op(Reading, 1, Scanning)]);
    var s4 := s0.(ops := map[0 := write, 1 := Op(Reading, 1, Missed)]);
    StaleTail(d, src, fetched);
    FirstStep(s3, Scan(1), s4, MissTail(d, fetched));
    FirstStep(s2, Begin(1, Reading, 1), s3, [Scan(1)] + MissTail(d, fetched));
    FirstStep(s1, Scan(0), s2, [Begin(1, Reading, 1)] + ([Scan(1)] + MissTail(d, fetched)));
    FirstStep(s0, Begin(0, WritingData(src), 0), s1,
              [Scan(0)] + ([Begin(1, Reading, 1)] + ([Scan(1)] + MissTail(d, fetched))));
  }

  lemma StaleTail(d: seq<Sector>, src: seq<Sector>, fetched: seq<Sector>)
    ensures var s := OneSlot(d).(ops := map[0 := Op(WritingData(src), 0, Hit(0)), 1 := Op(Reading, 1, Missed)]);
            && PossibleRun(s, MissTail(d, fetched))
            && After(s, MissTail(d, fetched)).entries == [Entry(Some(1), true, true, false, src)]
  {
    var s0, write := OneSlot(d), Op(WritingData(src), 0, Hit(0));
    var held, named := Entry(Some(0), false, false, true, d), Entry(Some(1), false, false, true, d);
    var s4 := s0.(ops := map[0 := write, 1 := Op(Reading, 1, Missed)]);
    var s5 := State([held], 0, map[0 := write, 1 := Op(Reading, 1, Taken(0))]);
    var s6 := State([held], 0, map[0 := write, 1 := Op(Reading, 1, Emptied(0))]);
    var s7 := State([named], 0, map[0 := write, 1 := Op(Reading, 1, Named(0))]);
    var s8 := State([Entry(Some(1), true, false, false, fetched)], 0, map[0 := write]);
    var s9 := State([Entry(Some(1), true, true, false, src)], 0, map[]);
    FirstStep(s8, Touch(0), s9, []);
    FirstStep(s7, Publish(1, fetched), s8, [Touch(0)] + []);
    FirstStep(s6, Name(1), s7, [Publish(1, fetched)] + ([Touch(0)] + []));
    FirstStep(s5, Inspect(1), s6, [Name(1)] + ([Publish(1, fetched)] + ([Touch(0)] + [])));
    OnlySlotTaken(s0.entries, [held]);
    FirstStep(s4, Reserve(1, [held], 0, Some(0)), s5,
              [Inspect(1)] + ([Name(1)] + ([Publish(1, fetched)] + ([Touch(0)] + []))));
  }

  /** The sweep takes a lone evictable slot. */
  lemma OnlySlotTaken(was: seq<Entry>, now: seq<Entry>)
    requires |was| == 1 && Evictable(was[0]) && was[0].block.Some? && now == [was[0].(inFlight := true)]
    ensures Reserves(was, 0, now, 0, Some(0))
  {
    assert Slot(0, 0, 1) == 0 && FirstWith(was, 0, 0, Evictable);
    assert Swept(was, was, 0, 0) && now == Reserved(was, 0);
  }
}
