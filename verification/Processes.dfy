/** Several processes at once: their requests interleave in any order over one physical memory. */
module Processes {
  import opened PageTable
  import opened Teardown
  import opened AddressSpace
  import opened Requests

  // ---------------------------------------------------------------- the simple form

  /** A request and the number of the process that makes it. */
  datatype Ask = Ask(who: nat, request: Request)

  function AfterAll(vs: seq<View>, asks: seq<Ask>): (ws: seq<View>)
    ensures |ws| == |vs|
  {
    if asks == [] then vs
    else
      var ws, a := AfterAll(vs, asks[..|asks| - 1]), asks[|asks| - 1];
      if a.who < |ws| then ws[a.who := Effect(ws[a.who], a.request)] else ws
  }

  function AnswerOf(vs: seq<View>, a: Ask): Reply {
    if a.who < |vs| then Answer(vs[a.who], a.request) else PassedOver
  }

  function AnswersAll(vs: seq<View>, asks: seq<Ask>): (rs: seq<Reply>)
    ensures |rs| == |asks|
  {
    if asks == [] then []
    else AnswersAll(vs, asks[..|asks| - 1]) + [AnswerOf(AfterAll(vs, asks[..|asks| - 1]), asks[|asks| - 1])]
  }

  function LeaksAll(vs: seq<View>, asks: seq<Ask>): nat {
    if asks == [] then 0
    else
      var ws, a := AfterAll(vs, asks[..|asks| - 1]), asks[|asks| - 1];
      LeaksAll(vs, asks[..|asks| - 1]) + if a.who < |ws| then Leaked(ws[a.who], a.request) else 0
  }

  /** The requests of process i, in order, and the answers it gets. */
  function RequestsOf(asks: seq<Ask>, i: nat): seq<Request> {
    if asks == [] then []
    else
      var a := asks[|asks| - 1];
      RequestsOf(asks[..|asks| - 1], i) + if a.who == i then [a.request] else []
  }

  function AnswersTo(asks: seq<Ask>, rs: seq<Reply>, i: nat): seq<Reply>
    requires |rs| == |asks|
  {
    if asks == [] then []
    else
      var n := |asks| - 1;
      AnswersTo(asks[..n], rs[..n], i) + if asks[n].who == i then [rs[n]] else []
  }

  lemma Appended(v: View, qs: seq<Request>, q: Request)
    ensures After(v, qs + [q]) == Effect(After(v, qs), q)
    ensures Answers(v, qs + [q]) == Answers(v, qs) + [Answer(After(v, qs), q)]
  {
    assert (qs + [q])[..|qs|] == qs;
  }

  /** However the others interleave, a process has the answers and the address space it would have alone. */
  lemma Isolation(vs: seq<View>, asks: seq<Ask>, i: nat)
    requires i < |vs|
    ensures AfterAll(vs, asks)[i] == After(vs[i], RequestsOf(asks, i))
    ensures AnswersTo(asks, AnswersAll(vs, asks), i) == Answers(vs[i], RequestsOf(asks, i))
  {
    OwnSpace(vs, asks, i);
    OwnAnswers(vs, asks, i);
  }

  lemma {:induction false} OwnSpace(vs: seq<View>, asks: seq<Ask>, i: nat)
    requires i < |vs|
    ensures AfterAll(vs, asks)[i] == After(vs[i], RequestsOf(asks, i))
    decreases |asks|
  {
    if asks != [] {
      var before, a := asks[..|asks| - 1], asks[|asks| - 1];
      OwnSpace(vs, before, i);
      LastRequest(asks, i);
      if a.who == i { Appended(vs[i], RequestsOf(before, i), a.request); }
    }
  }

  lemma {:induction false} OwnAnswers(vs: seq<View>, asks: seq<Ask>, i: nat)
    requires i < |vs|
    ensures AnswersTo(asks, AnswersAll(vs, asks), i) == Answers(vs[i], RequestsOf(asks, i))
    decreases |asks|
  {
    if asks != [] {
      var before, a := asks[..|asks| - 1], asks[|asks| - 1];
      OwnAnswers(vs, before, i);
      OwnSpace(vs, before, i);
      LastAnswer(vs, asks, i);
      LastRequest(asks, i);
      if a.who == i { Appended(vs[i], RequestsOf(before, i), a.request); }
    }
  }

  lemma LastRequest(asks: seq<Ask>, i: nat)
    requires asks != []
    ensures var before, a := asks[..|asks| - 1], asks[|asks| - 1];
            RequestsOf(asks, i) == if a.who == i then RequestsOf(before, i) + [a.request] else RequestsOf(before, i)
  {
  }

  lemma LastAnswer(vs: seq<View>, asks: seq<Ask>, i: nat)
    requires asks != []
    ensures var before, a := asks[..|asks| - 1], asks[|asks| - 1];
            AnswersTo(asks, AnswersAll(vs, asks), i) ==
            if a.who == i then AnswersTo(before, AnswersAll(vs, before), i) + [AnswerOf(AfterAll(vs, before), a)]
            else AnswersTo(before, AnswersAll(vs, before), i)
  {
    var n := |asks| - 1;
    var rs := AnswersAll(vs, asks);
    assert rs[..n] == AnswersAll(vs, asks[..n]) && rs[n] == AnswerOf(AfterAll(vs, asks[..n]), asks[n]);
  }

  // ---------------------------------------------------------------- as values

  /** What the memory knows of one process: its root, its address space and the frames of its anonymous pages. */
  datatype Proc = Proc(root: nat, view: View, data: map<nat, nat>)

  function Views(procs: seq<Proc>): seq<View> { seq(|procs|, i requires 0 <= i < |procs| => procs[i].view) }

  ghost function Holds(home: map<nat, Place>, p: Proc): set<nat> { Footprint(home, p.root, p.data) }

  ghost predicate ProcOk(T: Tables, home: map<nat, Place>, free: set<nat>, p: Proc) {
    SpaceOk(T, home, free, p.root, p.view.vmas, p.data) && Shows(T, p.root, p.view.pages)
  }

  /** Every process is as it should be, and no two hold a frame in common. */
  ghost predicate World(T: Tables, home: map<nat, Place>, free: set<nat>, procs: seq<Proc>) {
    && Tree(T, home) && AllReached(T, home) && free !! T.Keys
    && (forall j :: 0 <= j < |procs| ==> ProcOk(T, home, free, procs[j]))
    && AllApart(home, procs)
  }

  ghost predicate AllApart(home: map<nat, Place>, procs: seq<Proc>) {
    forall j, k :: 0 <= j < |procs| && 0 <= k < |procs| && j != k ==>
      procs[j].root != procs[k].root && Holds(home, procs[j]) !! Holds(home, procs[k])
  }

  /** The frames all of them hold. */
  ghost function AllHeld(home: map<nat, Place>, procs: seq<Proc>): set<nat> {
    set j, f | 0 <= j < |procs| && f in Holds(home, procs[j]) :: f
  }

  /** When process i moves from p to q, every other one keeps its pages and its frames. */
  lemma OthersStay(T: Tables, home: map<nat, Place>, free: set<nat>, T': Tables, home': map<nat, Place>,
                   free': set<nat>, procs: seq<Proc>, i: nat, q: Proc, lost: set<nat>, j: nat)
    requires World(T, home, free, procs) && i < |procs| && j < |procs| && j != i && q.root == procs[i].root
    requires Tree(T', home')
    requires Quiet(T, home, free, Holds(home, procs[i]), T', home', free', Holds(home', q), q.root, lost)
    ensures ProcOk(T', home', free', procs[j])
    ensures Holds(home', procs[j]) == Holds(home, procs[j]) && Holds(home', q) !! Holds(home', procs[j])
  {
    var p, o := procs[i], procs[j];
    OtherSpaceKept(T, home, free, T', home', free', p.root, p.data, q.data, lost, o.root, o.view.vmas, o.data);
    OtherShows(T, home, T', home', q.root, o.root, o.view.pages);
  }

  lemma OtherShows(T: Tables, home: map<nat, Place>, T': Tables, home': map<nat, Place>, root: nat, other: nat,
                   pages: map<nat, Grant>)
    requires Shows(T, other, pages) && OthersKept(T, home, T', home', root) && other != root && IsRoot(home, other)
    ensures Shows(T', other, pages)
  {
    forall p: nat | p < USER_PAGES
      ensures Shown(T', other, pages, p)
    {
      UserPage(p);
      assert Shown(T, other, pages, p);
    }
  }

  lemma StayApart(home: map<nat, Place>, home': map<nat, Place>, procs: seq<Proc>, i: nat, q: Proc)
    requires AllApart(home, procs) && i < |procs| && q.root == procs[i].root
    requires forall j :: 0 <= j < |procs| && j != i ==>
               Holds(home', procs[j]) == Holds(home, procs[j]) && Holds(home', q) !! Holds(home', procs[j])
    ensures AllApart(home', procs[i := q])
  {
  }

  /**
   One process moves: all are as they should be, and frames free, held and lost are together what was free and held.
   */
  lemma WorldMoves(T: Tables, home: map<nat, Place>, free: set<nat>, T': Tables, home': map<nat, Place>,
                   free': set<nat>, procs: seq<Proc>, i: nat, q: Proc, lost: set<nat>)
    requires World(T, home, free, procs) && i < |procs| && q.root == procs[i].root
    requires Tree(T', home') && AllReached(T', home') && free' !! T'.Keys && ProcOk(T', home', free', q)
    requires Quiet(T, home, free, Holds(home, procs[i]), T', home', free', Holds(home', q), q.root, lost)
    ensures World(T', home', free', procs[i := q])
    ensures free' + AllHeld(home', procs[i := q]) + lost == free + AllHeld(home, procs)
    ensures lost !! free' + AllHeld(home', procs[i := q])
  {
    var procs' := procs[i := q];
    forall j | 0 <= j < |procs| && j != i
      ensures ProcOk(T', home', free', procs'[j])
      ensures Holds(home', procs[j]) == Holds(home, procs[j]) && Holds(home', q) !! Holds(home', procs'[j])
      ensures lost !! Holds(home', procs'[j])
    {
      OthersStay(T, home, free, T', home', free', procs, i, q, lost, j);
      LostOfMine(T, home, free, free', procs, i, j, Holds(home', q), lost);
    }
    StayApart(home, home', procs, i, q);
    HeldMoves(home, free, home', free', procs, i, q, lost);
  }

  /** What a process loses was free or its own, hence nobody else's. */
  lemma LostOfMine(T: Tables, home: map<nat, Place>, free: set<nat>, free': set<nat>, procs: seq<Proc>, i: nat, j: nat,
                   own': set<nat>, lost: set<nat>)
    requires World(T, home, free, procs) && i < |procs| && j < |procs| && j != i
    requires Moved(free, Holds(home, procs[i]), free', own', lost)
    ensures lost !! Holds(home, procs[j])
  {
    assert ProcOk(T, home, free, procs[j]);
    assert Holds(home, procs[i]) !! Holds(home, procs[j]);
    forall f | f in lost
      ensures f !in Holds(home, procs[j])
    {
      assert f in free + Holds(home, procs[i]);
    }
  }

  lemma HeldMoves(home: map<nat, Place>, free: set<nat>, home': map<nat, Place>, free': set<nat>, procs: seq<Proc>,
                  i: nat, q: Proc, lost: set<nat>)
    requires i < |procs| && Moved(free, Holds(home, procs[i]), free', Holds(home', q), lost)
    requires forall j :: 0 <= j < |procs| && j != i ==>
               Holds(home', procs[j]) == Holds(home, procs[j]) && lost !! Holds(home', procs[j])
    ensures free' + AllHeld(home', procs[i := q]) + lost == free + AllHeld(home, procs)
    ensures lost !! free' + AllHeld(home', procs[i := q])
  {
    var procs', rest := procs[i := q], Beside(home, procs, i);
    HeldSplit(home, procs, i);
    HeldSplit(home', procs', i);
    BesideSame(home, home', procs, procs', i);
    forall f | f in rest
      ensures f !in lost
    {
      var j :| 0 <= j < |procs| && j != i && f in Holds(home, procs[j]);
      assert f in Holds(home', procs[j]);
    }
    MovedBeside(free, Holds(home, procs[i]), free', Holds(home', q), lost, rest);
  }

  lemma MovedBeside(free: set<nat>, own: set<nat>, free': set<nat>, own': set<nat>, lost: set<nat>, rest: set<nat>)
    requires Moved(free, own, free', own', lost) && lost !! rest
    ensures free' + (own' + rest) + lost == free + (own + rest) && lost !! free' + (own' + rest)
  {
    assert free' + (own' + rest) + lost == (free' + own' + lost) + rest;
  }

  lemma BesideSame(home: map<nat, Place>, home': map<nat, Place>, procs: seq<Proc>, procs': seq<Proc>, i: nat)
    requires |procs'| == |procs| && forall j :: 0 <= j < |procs| && j != i ==>
               Holds(home', procs'[j]) == Holds(home, procs[j])
    ensures Beside(home', procs', i) == Beside(home, procs, i)
  {
    forall f
      ensures f in Beside(home', procs', i) <==> f in Beside(home, procs, i)
    {
      if f in Beside(home, procs, i) {
        var j :| 0 <= j < |procs| && j != i && f in Holds(home, procs[j]);
        assert f in Holds(home', procs'[j]);
      }
      if f in Beside(home', procs', i) {
        var j :| 0 <= j < |procs| && j != i && f in Holds(home', procs'[j]);
        assert f in Holds(home, procs[j]);
      }
    }
  }

  lemma HeldSplit(home: map<nat, Place>, procs: seq<Proc>, i: nat)
    requires i < |procs|
    ensures AllHeld(home, procs) == Holds(home, procs[i]) + Beside(home, procs, i)
  {
  }

  /** The frames of all processes but i. */
  ghost function Beside(home: map<nat, Place>, procs: seq<Proc>, i: nat): set<nat> {
    set j, f | 0 <= j < |procs| && j != i && f in Holds(home, procs[j]) :: f
  }

  /** A new process, whose frames were all free, joins the others. */
  lemma WorldGrows(T: Tables, home: map<nat, Place>, free: set<nat>, T': Tables, home': map<nat, Place>,
                   free': set<nat>, procs: seq<Proc>, q: Proc)
    requires World(T, home, free, procs) && q.root !in home
    requires Tree(T', home') && AllReached(T', home') && free' !! T'.Keys && ProcOk(T', home', free', q)
    requires OthersKept(T, home, T', home', q.root) && Conserved(free, {}, free', Holds(home', q))
    ensures World(T', home', free', procs + [q])
  {
    forall j | 0 <= j < |procs|
      ensures ProcOk(T', home', free', procs[j]) && Holds(home', procs[j]) == Holds(home, procs[j])
      ensures procs[j].root != q.root && Holds(home', q) !! Holds(home', procs[j])
    {
      NewBeside(T, home, free, T', home', free', procs[j], q);
    }
    forall j, k | 0 <= j < |procs| && 0 <= k < |procs| && j != k
      ensures procs[j].root != procs[k].root && Holds(home', procs[j]) !! Holds(home', procs[k])
    {
      assert Holds(home, procs[j]) !! Holds(home, procs[k]);
    }
  }

  lemma NewBeside(T: Tables, home: map<nat, Place>, free: set<nat>, T': Tables, home': map<nat, Place>,
                  free': set<nat>, p: Proc, q: Proc)
    requires Tree(T, home) && AllReached(T, home) && free !! T.Keys && ProcOk(T, home, free, p) && q.root !in home
    requires Tree(T', home') && OthersKept(T, home, T', home', q.root) && Conserved(free, {}, free', Holds(home', q))
    ensures ProcOk(T', home', free', p) && Holds(home', p) == Holds(home, p)
    ensures p.root != q.root && Holds(home', q) !! Holds(home', p)
  {
    assert Footprint(home, q.root, map[]) == {} by { NothingOf(T, home, q.root); }
    OtherSpaceKept(T, home, free, T', home', free', q.root, map[], q.data, {}, p.root, p.view.vmas, p.data);
    OtherShows(T, home, T', home', q.root, p.root, p.view.pages);
  }

  lemma NothingOf(T: Tables, home: map<nat, Place>, root: nat)
    requires Tree(T, home) && AllReached(T, home) && root !in home
    ensures OwnTables(home, root) == {}
  {
    forall t | t in home
      ensures !Mine(home[t], root)
    {
      assert Reached(T, home, t);
    }
  }

  /** All the frames there are, free, held or lost, each in one place only. */
  ghost predicate Frames(home: map<nat, Place>, free: set<nat>, procs: seq<Proc>, lost: set<nat>, total: set<nat>) {
    free + AllHeld(home, procs) + lost == total && lost !! free + AllHeld(home, procs)
  }

  lemma FramesNext(home: map<nat, Place>, free: set<nat>, procs: seq<Proc>, lost: set<nat>, total: set<nat>,
                   home': map<nat, Place>, free': set<nat>, procs': seq<Proc>, more: set<nat>)
    requires Frames(home, free, procs, lost, total) && Frames(home', free', procs', more, free + AllHeld(home, procs))
    ensures Frames(home', free', procs', lost + more, total) && |lost + more| == |lost| + |more|
  {
    forall f | f in more
      ensures f !in lost
    {
      assert f in free + AllHeld(home, procs);
    }
    assert free' + AllHeld(home', procs') <= free + AllHeld(home, procs);
  }

  // ---------------------------------------------------------------- as objects

  /** The object is this process of the value world, over this memory. */
  ghost predicate Tied(space: VirtMemManager, p: Proc, mem: Memory)
    reads space, space.areas, space.areas.repr
  {
    && space.mem == mem && space.areas.Valid()
    && p.root == space.root && p.view.vmas == space.areas.vmas && p.data == space.data
  }

  ghost predicate TieAt(spaces: seq<VirtMemManager>, procs: seq<Proc>, mem: Memory, j: int)
    requires 0 <= j < |spaces| && 0 <= j < |procs|
    reads spaces[j], spaces[j].areas, spaces[j].areas.repr
  {
    Tied(spaces[j], procs[j], mem)
  }

  /** The two share no object but the memory. */
  ghost predicate ListsApart(spaces: seq<VirtMemManager>, j: int, k: int)
    requires 0 <= j < |spaces| && 0 <= k < |spaces|
    reads spaces[j].areas, spaces[k].areas
  {
    spaces[j] != spaces[k] && spaces[j].areas != spaces[k].areas && spaces[j].areas.repr !! spaces[k].areas.repr
  }

  /**
   One request of process i beside all the others: its answer and its address space are the simple form's, nobody
   else's pages or frames move, and the frames lost are those the simple form counts.
   */
  ghost predicate TurnIn(was: Still, procs: seq<Proc>, i: nat, q: Request, ok: bool, r: Reply, end: Still,
                         now: seq<Proc>, lost: set<nat>)
    requires i < |procs|
  {
    if !ok then NeedsPage(procs[i].view, q) && end.free == {}
    else
      && r == Answer(procs[i].view, q) && |lost| == Leaked(procs[i].view, q)
      && now == procs[i := Proc(procs[i].root, Effect(procs[i].view, q), end.data)]
      && World(end.T, end.home, end.free, now)
      && Frames(end.home, end.free, now, lost, was.free + AllHeld(was.home, procs))
  }

  lemma ServedTurns(was: Still, procs: seq<Proc>, i: nat, q: Request, ok: bool, r: Reply, end: Still, w: View,
                    lost: set<nat>)
    requires i < |procs| && World(was.T, was.home, was.free, procs) && was.data == procs[i].data
    requires Served(procs[i].root, was, procs[i].view, q, ok, r, end, w, lost)
    ensures TurnIn(was, procs, i, q, ok, r, end, procs[i := Proc(procs[i].root, w, end.data)], lost)
  {
    assert ServedIn(procs[i].root, was, procs[i].view, q, ok, r, end, w, lost);
    if ok {
      WorldMoves(was.T, was.home, was.free, end.T, end.home, end.free, procs, i, Proc(procs[i].root, w, end.data),
                 lost);
    }
  }

  method Turn(mem: Memory, spaces: seq<VirtMemManager>, ghost procs: seq<Proc>, i: nat, q: Request)
    returns (ok: bool, r: Reply, ghost now: seq<Proc>, ghost lost: set<nat>)
    requires mem.Valid() && i < |spaces| == |procs| && World(mem.tables, mem.home, mem.free, procs)
    requires forall j {:trigger TieAt(spaces, procs, mem, j)} :: 0 <= j < |spaces| ==> TieAt(spaces, procs, mem, j)
    requires forall j, k {:trigger ListsApart(spaces, j, k)} ::
               0 <= j < |spaces| && 0 <= k < |spaces| && j != k ==> ListsApart(spaces, j, k)
    modifies mem, spaces[i], spaces[i].areas, spaces[i].areas.repr
    ensures TurnIn(old(Now(spaces[i])), procs, i, q, ok, r, Now(spaces[i]), now, lost)
    ensures fresh(spaces[i].areas.repr - old(spaces[i].areas.repr))
    ensures |now| == |procs| && (ok ==> mem.Valid())
    ensures ok ==>
              forall j {:trigger TieAt(spaces, now, mem, j)} :: 0 <= j < |spaces| ==> TieAt(spaces, now, mem, j)
    ensures forall j, k {:trigger ListsApart(spaces, j, k)} ::
              0 <= j < |spaces| && 0 <= k < |spaces| && j != k ==> ListsApart(spaces, j, k)
  {
    ghost var was := Now(spaces[i]);
    assert TieAt(spaces, procs, mem, i) && ProcOk(was.T, was.home, was.free, procs[i]);
    ghost var w;
    ok, r, w, lost := Serve(spaces[i], q, procs[i].view);
    now := procs[i := Proc(procs[i].root, w, spaces[i].data)];
    forall j, k | 0 <= j < |spaces| && 0 <= k < |spaces| && j != k
      ensures ListsApart(spaces, j, k)
    {
      assert old(ListsApart(spaces, j, k));
    }
    if ok {
      forall j | 0 <= j < |spaces|
        ensures TieAt(spaces, now, mem, j)
      {
        if j != i { assert old(TieAt(spaces, procs, mem, j)) && old(ListsApart(spaces, i, j)) && now[j] == procs[j]; }
      }
    }
    ServedTurns(was, procs, i, q, ok, r, Now(spaces[i]), w, lost);
  }

  /** A process is created beside the others; null is the panic of an exhausted allocator. */
  method Spawn(mem: Memory, spaces: seq<VirtMemManager>, ghost procs: seq<Proc>, active: nat)
    returns (space: VirtMemManager?, ghost now: seq<Proc>)
    requires mem.Valid() && |spaces| == |procs| && World(mem.tables, mem.home, mem.free, procs)
    requires IsRoot(mem.home, active)
    requires forall j {:trigger TieAt(spaces, procs, mem, j)} :: 0 <= j < |spaces| ==> TieAt(spaces, procs, mem, j)
    requires forall j, k {:trigger ListsApart(spaces, j, k)} ::
               0 <= j < |spaces| && 0 <= k < |spaces| && j != k ==> ListsApart(spaces, j, k)
    modifies mem
    ensures space == null ==> mem.free == old(mem.free) == {}
    ensures space != null ==>
              && mem.Valid() && |now| == |procs| + 1 && now[..|procs|] == procs && now[|procs|].view == Fresh
              && World(mem.tables, mem.home, mem.free, now)
    ensures space != null ==>
              && (forall j {:trigger TieAt(spaces + [space], now, mem, j)} :: 0 <= j <= |spaces| ==>
                    TieAt(spaces + [space], now, mem, j))
              && (forall j, k {:trigger ListsApart(spaces + [space], j, k)} ::
                    0 <= j <= |spaces| && 0 <= k <= |spaces| && j != k ==> ListsApart(spaces + [space], j, k))
  {
    ghost var T, home, free := mem.tables, mem.home, mem.free;
    space := NewSpace(mem, active);
    now := procs;
    if space != null {
      FreshShown(mem.tables, space.root, space.data);
      now := procs + [Proc(space.root, Fresh, space.data)];
      WorldGrows(T, home, free, mem.tables, mem.home, mem.free, procs, now[|procs|]);
      forall j | 0 <= j <= |spaces|
        ensures TieAt(spaces + [space], now, mem, j)
      {
        if j < |spaces| { assert TieAt(spaces, procs, mem, j); }
      }
      forall j, k | 0 <= j <= |spaces| && 0 <= k <= |spaces| && j != k
        ensures ListsApart(spaces + [space], j, k)
      {
        if j < |spaces| && k < |spaces| { assert ListsApart(spaces, j, k); }
      }
    }
  }

  // ---------------------------------------------------------------- every interleaving

  /**
   After n of the requests: the address spaces, the answers and the loss are the simple form's, and no frame is gone.
   */
  ghost predicate ComesTo(vs: seq<View>, total: set<nat>, asks: seq<Ask>, n: nat, now: seq<Proc>,
                          home: map<nat, Place>, free: set<nat>, rs: seq<Reply>, lost: set<nat>) {
    Told(vs, asks, n, now, rs, |lost|) && Frames(home, free, now, lost, total)
  }

  ghost predicate Told(vs: seq<View>, asks: seq<Ask>, n: nat, now: seq<Proc>, rs: seq<Reply>, lost: nat) {
    && n <= |asks| && |now| == |vs| && (forall j :: 0 <= j < |vs| ==> now[j].view == AfterAll(vs, asks[..n])[j])
    && rs == AnswersAll(vs, asks[..n]) && lost == LeaksAll(vs, asks[..n])
  }

  lemma ToldNext(vs: seq<View>, asks: seq<Ask>, n: nat, procs: seq<Proc>, rs: seq<Reply>, lost: nat, now: seq<Proc>,
                 data: map<nat, nat>)
    requires n < |asks| && asks[n].who < |procs| && Told(vs, asks, n, procs, rs, lost)
    requires var p, q := procs[asks[n].who], asks[n].request;
             now == procs[asks[n].who := Proc(p.root, Effect(p.view, q), data)]
    ensures var p, q := procs[asks[n].who], asks[n].request;
            Told(vs, asks, n + 1, now, rs + [Answer(p.view, q)], lost + Leaked(p.view, q))
  {
    OneMore(vs, asks, n);
  }

  lemma ComesToNext(vs: seq<View>, total: set<nat>, asks: seq<Ask>, n: nat, procs: seq<Proc>, was: Still,
                    rs: seq<Reply>, lost: set<nat>, r: Reply, end: Still, now: seq<Proc>, more: set<nat>)
    requires n < |asks| && ComesTo(vs, total, asks, n, procs, was.home, was.free, rs, lost) && asks[n].who < |procs|
    requires TurnIn(was, procs, asks[n].who, asks[n].request, true, r, end, now, more)
    ensures ComesTo(vs, total, asks, n + 1, now, end.home, end.free, rs + [r], lost + more)
  {
    FramesNext(was.home, was.free, procs, lost, total, end.home, end.free, now, more);
    ToldNext(vs, asks, n, procs, rs, |lost|, now, end.data);
  }

  lemma OneMore(vs: seq<View>, asks: seq<Ask>, n: nat)
    requires n < |asks|
    ensures var ws, a := AfterAll(vs, asks[..n]), asks[n];
            && AfterAll(vs, asks[..n + 1]) == (if a.who < |ws| then ws[a.who := Effect(ws[a.who], a.request)] else ws)
            && AnswersAll(vs, asks[..n + 1]) == AnswersAll(vs, asks[..n]) + [AnswerOf(ws, a)]
            && LeaksAll(vs, asks[..n + 1]) ==
               LeaksAll(vs, asks[..n]) + (if a.who < |ws| then Leaked(ws[a.who], a.request) else 0)
  {
    assert asks[..n + 1][..n] == asks[..n];
  }

  /** The same as ComesTo, of any views like these. */
  ghost predicate Along(vs: seq<View>, total: set<nat>, asks: seq<Ask>, n: nat, now: seq<Proc>,
                        home: map<nat, Place>, free: set<nat>, rs: seq<Reply>, lost: set<nat>) {
    forall us: seq<View> {:trigger ComesTo(us, total, asks, n, now, home, free, rs, lost)} :: us == vs ==>
      ComesTo(us, total, asks, n, now, home, free, rs, lost)
  }

  /** A request of nobody is passed over. */
  lemma PassedBy(vs: seq<View>, total: set<nat>, asks: seq<Ask>, n: nat, procs: seq<Proc>, home: map<nat, Place>,
                 free: set<nat>, rs: seq<Reply>, lost: set<nat>)
    requires n < |asks| && Along(vs, total, asks, n, procs, home, free, rs, lost) && asks[n].who >= |procs|
    ensures Along(vs, total, asks, n + 1, procs, home, free, rs + [PassedOver], lost)
  {
    assert ComesTo(vs, total, asks, n, procs, home, free, rs, lost);
    OneMore(vs, asks, n);
  }

  /** Stopped after n requests: the next takes a page, and there is no frame. */
  ghost predicate Stopped(vs: seq<View>, asks: seq<Ask>, n: nat, rs: seq<Reply>, free: set<nat>) {
    && free == {} && |rs| == n < |asks| && rs == AnswersAll(vs, asks[..n]) && asks[n].who < |vs|
    && NeedsPage(AfterAll(vs, asks[..n])[asks[n].who], asks[n].request)
  }

  lemma TurnedIn(vs: seq<View>, total: set<nat>, asks: seq<Ask>, n: nat, procs: seq<Proc>, was: Still,
                 rs: seq<Reply>, lost: set<nat>, ok: bool, r: Reply, end: Still, now: seq<Proc>, more: set<nat>)
    requires n < |asks| && Along(vs, total, asks, n, procs, was.home, was.free, rs, lost) && asks[n].who < |procs|
    requires TurnIn(was, procs, asks[n].who, asks[n].request, ok, r, end, now, more)
    ensures ok ==> Along(vs, total, asks, n + 1, now, end.home, end.free, rs + [r], lost + more)
    ensures !ok ==> Stopped(vs, asks, n, rs, end.free)
  {
    assert ComesTo(vs, total, asks, n, procs, was.home, was.free, rs, lost);
    if ok { ComesToNext(vs, total, asks, n, procs, was, rs, lost, r, end, now, more); }
  }

  /** The next request of a run. */
  method TurnNext(mem: Memory, spaces: seq<VirtMemManager>, ghost procs: seq<Proc>, asks: seq<Ask>, n: nat,
                  rs: seq<Reply>, ghost lost: set<nat>, ghost vs: seq<View>, ghost total: set<nat>)
    returns (ok: bool, told: seq<Reply>, ghost now: seq<Proc>, ghost gone: set<nat>)
    requires n < |asks| && asks[n].who < |spaces| == |procs|
    requires mem.Valid() && World(mem.tables, mem.home, mem.free, procs)
    requires Along(vs, total, asks, n, procs, mem.home, mem.free, rs, lost)
    requires forall j {:trigger TieAt(spaces, procs, mem, j)} :: 0 <= j < |spaces| ==> TieAt(spaces, procs, mem, j)
    requires forall j, k {:trigger ListsApart(spaces, j, k)} ::
               0 <= j < |spaces| && 0 <= k < |spaces| && j != k ==> ListsApart(spaces, j, k)
    modifies mem, spaces[asks[n].who], spaces[asks[n].who].areas, spaces[asks[n].who].areas.repr
    ensures fresh(spaces[asks[n].who].areas.repr - old(spaces[asks[n].who].areas.repr)) && |now| == |procs|
    ensures !ok ==> Stopped(vs, asks, n, told, mem.free)
    ensures ok ==> mem.Valid() && World(mem.tables, mem.home, mem.free, now)
    ensures ok ==> Along(vs, total, asks, n + 1, now, mem.home, mem.free, told, gone)
    ensures ok ==>
              forall j {:trigger TieAt(spaces, now, mem, j)} :: 0 <= j < |spaces| ==> TieAt(spaces, now, mem, j)
    ensures forall j, k {:trigger ListsApart(spaces, j, k)} ::
              0 <= j < |spaces| && 0 <= k < |spaces| && j != k ==> ListsApart(spaces, j, k)
  {
    var i := asks[n].who;
    ghost var was := Now(spaces[i]);
    assert TieAt(spaces, procs, mem, i);
    var r;
    ghost var more;
    ok, r, now, more := Turn(mem, spaces, procs, i, asks[n].request);
    TurnedIn(vs, total, asks, n, procs, was, rs, lost, ok, r, Now(spaces[i]), now, more);
    told, gone := if ok then rs + [r] else rs, lost + more;
  }

  /**
   Requests of any number of processes in any order. Every answer and every address space is the simple form's, so that
   each process lives as if alone; no two ever hold a frame in common; and the frames free, held and lost are together
   always the same. The run ends early only at a request that takes a page when no frame is left.
   */
  method Interleave(mem: Memory, spaces: seq<VirtMemManager>, ghost procs: seq<Proc>, asks: seq<Ask>)
    returns (ok: bool, rs: seq<Reply>, ghost now: seq<Proc>, ghost lost: set<nat>)
    requires mem.Valid() && |spaces| == |procs| && World(mem.tables, mem.home, mem.free, procs)
    requires forall j {:trigger TieAt(spaces, procs, mem, j)} :: 0 <= j < |spaces| ==> TieAt(spaces, procs, mem, j)
    requires forall j, k {:trigger ListsApart(spaces, j, k)} ::
               0 <= j < |spaces| && 0 <= k < |spaces| && j != k ==> ListsApart(spaces, j, k)
    modifies mem, spaces, set s | s in spaces :: s.areas, set s, n | s in spaces && n in s.areas.repr :: n
    ensures |now| == |procs|
    ensures ok ==>
              && mem.Valid() && World(mem.tables, mem.home, mem.free, now)
              && forall j {:trigger TieAt(spaces, now, mem, j)} :: 0 <= j < |spaces| ==> TieAt(spaces, now, mem, j)
    ensures ok ==> ComesTo(Views(procs), old(mem.free + AllHeld(mem.home, procs)), asks, |asks|, now, mem.home,
                           mem.free,
                           rs, lost)
    ensures !ok ==> Stopped(Views(procs), asks, |rs|, rs, mem.free)
  {
    ghost var vs, total := Views(procs), mem.free + AllHeld(mem.home, procs);
    ok, rs, now, lost := true, [], procs, {};
    for n := 0 to |asks|
      invariant mem.Valid() && |now| == |procs| && World(mem.tables, mem.home, mem.free, now)
      invariant Along(vs, total, asks, n, now, mem.home, mem.free, rs, lost)
      invariant forall j {:trigger TieAt(spaces, now, mem, j)} :: 0 <= j < |spaces| ==> TieAt(spaces, now, mem, j)
      invariant forall j, k {:trigger ListsApart(spaces, j, k)} ::
                  0 <= j < |spaces| && 0 <= k < |spaces| && j != k ==> ListsApart(spaces, j, k)
      invariant forall j :: 0 <= j < |spaces| ==> fresh(spaces[j].areas.repr - old(spaces[j].areas.repr))
    {
      var i := asks[n].who;
      if i < |spaces| {
        forall j | 0 <= j < |spaces| && j != i
          ensures spaces[j].areas != spaces[i].areas
        {
          assert ListsApart(spaces, j, i);
        }
        ok, rs, now, lost := TurnNext(mem, spaces, now, asks, n, rs, lost, vs, total);
        if !ok { return; }
      } else {
        PassedBy(vs, total, asks, n, now, mem.home, mem.free, rs, lost);
        rs := rs + [PassedOver];
      }
    }
    assert ComesTo(vs, total, asks, |asks|, now, mem.home, mem.free, rs, lost);
  }
}
