/**
 Adders and collectors sharing one store under the lock, as an interleaved step
 system: every put, the key snapshot, the pin snapshot, every turn of every pin's
 walk and every delete is a step of its own (peer/_content.py).
 */
module GcSystem {
  import opened Bytes
  import opened Cids
  import opened Ipld
  import opened Graphs
  import opened Dag
  import opened Pins
  import opened Content
  import opened RWLock

  /** How far a collection inside the lock has come. */
  datatype GcStep =
    | Begun
    | Keyed(keys: set<Cid>)
    | Marking(keys: set<Cid>, pins: PinTable, left: PinTable, marked: set<Cid>,
              queue: seq<Cid>, visited: set<Cid>, recursive: bool)
    | Deleting(pins: PinTable, retained: nat, todo: set<Cid>, deleted: nat)
    | Ended(pins: PinTable, result: GCResult)
  {
    predicate HasPins() {
      Marking? || Deleting? || Ended?
    }
  }

  /** What a task does inside the lock. start is the store at the moment a collector acquired it. */
  datatype Work =
    | Adding(todo: seq<(Cid, Bytes)>, mine: set<Cid>)
    | Collecting(step: GcStep, start: Store)

  /** removed records which blocks remove_node was called for since they were last put. */
  datatype System = System(
    lock: Lock, work: map<Tid, Work>, blocks: Store, pins: PinTable, removed: set<Cid>)
  {
    function Do(t: Tid, x: Work): System {
      this.(work := work[t := x])
    }
  }

  ghost function PinGraph(w: World, blocks: Store, recursive: bool): Graph<Cid> {
    if recursive then LinkGraph(w, blocks) else map[]
  }

  /** One step of gc between acquiring and releasing the write lock. */
  ghost predicate GcMoves(w: World, blocks: Store, pins: PinTable, step: GcStep, blocks': Store, step': GcStep) {
    match step
    case Begun => blocks' == blocks && step' == Keyed(blocks.Keys)
    case Keyed(keys) => blocks' == blocks && step' == Marking(keys, pins, pins, {}, [], {}, false)
    case Marking(keys, snapshot, left, marked, queue, visited, recursive) =>
      && blocks' == blocks
      && if queue != [] then step' == WalkTurn(w, blocks, step)
         else if left != map[] then exists s :: s in left && step' == PickPin(w, step, s)
         else step' == Deleting(snapshot, |marked|, keys - marked, 0)
    case Deleting(snapshot, retained, todo, deleted) =>
      if todo != {} then
        exists c :: c in todo && blocks' == blocks - {c}
          && step' == Deleting(snapshot, retained, todo - {c}, deleted + 1)
      else blocks' == blocks && step' == Ended(snapshot, GCResult(deleted, retained))
    case Ended(_, _) => false
  }

  /** The next pin: its walk starts, unless its text does not parse. */
  ghost function PickPin(w: World, step: GcStep, s: string): GcStep
    requires step.Marking? && s in step.left
  {
    match w.parseText(s)
    case None => step.(left := step.left - {s})
    case Some(root) =>
      step.(left := step.left - {s}, queue := [root], visited := {}, recursive := step.left[s] == Recursive)
  }

  /** Where the walk of a pin raises; the exception is swallowed, and the next pin's turn comes. */
  function ReadStops(w: World, recursive: bool): Cid -> bool {
    if recursive then w.readFails else Never
  }

  /** One turn of the loop in walk_dag, reading the store as it is now. */
  ghost function WalkTurn(w: World, blocks: Store, step: GcStep): GcStep
    requires step.Marking? && step.queue != []
  {
    var c, rest := step.queue[0], step.queue[1..];
    if c in step.visited then step.(queue := rest)
    else
      var stops := ReadStops(w, step.recursive);
      step.(
        queue := if stops(c) then [] else rest + Succ(PinGraph(w, blocks, step.recursive), c),
        visited := step.visited + {c},
        marked := step.marked + {c})
  }

  predicate NoCollector(l: Lock) {
    forall t :: t in l.phase ==> l.phase[t] != Writing
  }

  datatype Event =
    | Arrive(t: Tid)
    | LockStep(t: Tid)
    | Put(t: Tid)
    | Gc(t: Tid)
    | SetPins
    | UnlockedPut(c: Cid, data: Bytes)
    | RemoveNode(c: Cid)

  /**
   The steps of the system. add_pin and remove_pin take no lock and may happen at
   any time; remove_node and the writers that put without the lock are assumed to
   stay outside a collection.
   */
  ghost predicate Next(w: World, s: System, e: Event, s': System) {
    match e
    case Arrive(t) =>
      && Arrives(s.lock, t, s'.lock)
      && exists x: Work ::
           && (if s'.lock.phase[t] == Enter then x.Adding? && x.mine == {} else x == Collecting(Begun, map[]))
           && s' == s.(lock := s'.lock).Do(t, x)
    case LockStep(t) =>
      && t in s.work
      && RWLock.Steps(s.lock, t, s'.lock)
      && (s.lock.phase[t] == Writing && s.work[t].Collecting? ==> s.work[t].step.Ended?)
      && s' == (if s.lock.phase[t] == WriteEnter then s.Do(t, Collecting(Begun, s.blocks)) else s).(lock := s'.lock)
    case Put(t) =>
      && t in s.work && t in s.lock.phase && s.lock.phase[t] == Reading
      && s.work[t].Adding? && s.work[t].todo != []
      && var (c, data) := s.work[t].todo[0];
         s' == s.Do(t, Adding(s.work[t].todo[1..], s.work[t].mine + {c}))
                .(blocks := s.blocks[c := data], removed := s.removed - {c})
    case Gc(t) =>
      && t in s.work && t in s.lock.phase && s.lock.phase[t] == Writing
      && s.work[t].Collecting? && t in s'.work && s'.work[t].Collecting?
      && GcMoves(w, s.blocks, s.pins, s.work[t].step, s'.blocks, s'.work[t].step)
      && s' == s.Do(t, s.work[t].(step := s'.work[t].step)).(blocks := s'.blocks)
    case SetPins => s' == s.(pins := s'.pins)
    case UnlockedPut(c, data) =>
      NoCollector(s.lock) && s' == s.(blocks := s.blocks[c := data], removed := s.removed - {c})
    case RemoveNode(c) => NoCollector(s.lock) && s' == s.(blocks := s.blocks - {c}, removed := s.removed + {c})
  }

  ghost predicate Initial(s: System) {
    s.lock == INIT && s.work == map[] && s.removed == {}
  }

  ghost predicate IsRun(w: World, run: seq<System>, events: seq<Event>) {
    && |run| == |events| + 1
    && Initial(run[0])
    && forall i :: 0 <= i < |events| ==> Next(w, run[i], events[i], run[i + 1])
  }

  // ---------------------------------------------------------------------
  // The invariant of one collection
  // ---------------------------------------------------------------------

  /** What a marking collection will have marked in the end, were the store to stay as it is. */
  ghost function WillMark(w: World, start: Store, step: GcStep): set<Cid>
    requires step.Marking?
  {
    var walk := Bfs(PinGraph(w, start, step.recursive), step.queue, step.visited);
    step.marked + Elems(UpTo(walk, ReadStops(w, step.recursive))) + Marked(w, start, step.left)
  }

  ghost function Garbage(w: World, start: Store, pins: PinTable): set<Cid> {
    start.Keys - Marked(w, start, pins)
  }

  ghost predicate OnTrack(w: World, start: Store, blocks: Store, step: GcStep) {
    match step
    case Begun => blocks == start
    case Keyed(keys) => blocks == start && keys == start.Keys
    case Marking(keys, pins, _, _, _, _, _) =>
      blocks == start && keys == start.Keys && WillMark(w, start, step) == Marked(w, start, pins)
    case Deleting(pins, retained, todo, deleted) =>
      var garbage := Garbage(w, start, pins);
      && retained == |Marked(w, start, pins)|
      && todo <= garbage
      && blocks == start - (garbage - todo)
      && deleted + |todo| == |garbage|
    case Ended(pins, result) => IsCollected(w, start, blocks, pins, result)
  }

  /** blocks is what one atomic collection of start leaves, and result reports it truthfully. */
  ghost predicate IsCollected(w: World, start: Store, blocks: Store, pins: PinTable, result: GCResult) {
    && blocks == Collect(w, start, pins)
    && result.reclaimedBlocks == |start| - |blocks|
    && result.retainedBlocks == |Marked(w, start, pins)|
  }

  lemma WalkTurnOnTrack(w: World, start: Store, step: GcStep)
    requires step.Marking? && step.queue != []
    ensures WillMark(w, start, WalkTurn(w, start, step)) == WillMark(w, start, step)
  {
    hide Marked, Bfs, UpTo, ReadStops, PinGraph;
    var c, rest := step.queue[0], step.queue[1..];
    var g := PinGraph(w, start, step.recursive);
    var stops := ReadStops(w, step.recursive);
    assert step.queue == [c] + rest;
    if c in step.visited {
      BfsSkip(g, c, rest, step.visited);
    } else {
      var tail := Bfs(g, rest + Succ(g, c), step.visited + {c});
      BfsTake(g, c, rest, step.visited);
      UpToCons(c, tail, stops);
      assert Elems([c]) == {c} && Elems([c] + UpTo(tail, stops)) == {c} + Elems(UpTo(tail, stops));
      EmptyWalk(g, step.visited + {c});
      NothingUpTo(stops);
    }
  }

  lemma NothingUpTo(stops: Cid -> bool)
    ensures Elems(UpTo<Cid>([], stops)) == {}
  {
  }

  lemma MarkedSplits(w: World, start: Store, left: PinTable, s: string)
    requires s in left
    ensures Marked(w, start, left) == Held(w, start, s, left[s]) + Marked(w, start, left - {s})
  {
    hide Held;
    var rest := left - {s};
    assert forall p :: p in left <==> p == s || p in rest;
    assert forall p :: p in rest ==> rest[p] == left[p];
  }

  lemma PickPinOnTrack(w: World, start: Store, step: GcStep, s: string)
    requires step.Marking? && step.queue == [] && s in step.left
    ensures WillMark(w, start, PickPin(w, step, s)) == WillMark(w, start, step)
  {
    MarkedSplits(w, start, step.left, s);
    hide Marked;
    if w.parseText(s).Some? {
      NoLinksNoWalk(w.parseText(s).value);
    }
  }

  lemma MarkingEnds(w: World, start: Store, step: GcStep)
    requires step.Marking? && step.queue == [] && step.left == map[]
    ensures WillMark(w, start, step) == step.marked
  {
  }

  lemma DeletingEnds(w: World, start: Store, blocks: Store, pins: PinTable)
    requires blocks == start - Garbage(w, start, pins)
    ensures blocks == Collect(w, start, pins)
    ensures |start| - |blocks| == |Garbage(w, start, pins)|
  {
    hide Marked, Collect;
    CollectIsRemaining(w, start, pins);
    Remaining(start, Marked(w, start, pins));
  }

  lemma DeleteOnTrack(start: Store, garbage: set<Cid>, todo: set<Cid>, c: Cid)
    requires c in todo && todo <= garbage
    ensures (start - (garbage - todo)) - {c} == start - (garbage - (todo - {c}))
  {
  }

  lemma TurnStaysOnTrack(w: World, start: Store, step: GcStep)
    requires step.Marking? && OnTrack(w, start, start, step) && step.queue != []
    ensures OnTrack(w, start, start, WalkTurn(w, start, step))
  {
    hide Marked, WillMark, WalkTurn;
    WalkTurnOnTrack(w, start, step);
    WalkTurnKeeps(w, start, step);
  }

  lemma PickStaysOnTrack(w: World, start: Store, step: GcStep, s: string)
    requires step.Marking? && OnTrack(w, start, start, step) && step.queue == [] && s in step.left
    ensures OnTrack(w, start, start, PickPin(w, step, s))
  {
    hide Marked, WillMark, PickPin;
    PickPinOnTrack(w, start, step, s);
    PickPinKeeps(w, step, s);
  }

  lemma MarkedStaysOnTrack(w: World, start: Store, step: GcStep)
    requires step.Marking? && OnTrack(w, start, start, step) && step.queue == [] && step.left == map[]
    ensures OnTrack(w, start, start, Deleting(step.pins, |step.marked|, step.keys - step.marked, 0))
  {
    hide Marked, WillMark, IsCollected, Garbage, Elems, Bfs;
    MarkingEnds(w, start, step);
    GarbageMeans(w, start, step.pins);
    NothingDeleted(start, Garbage(w, start, step.pins));
  }

  lemma GarbageMeans(w: World, start: Store, pins: PinTable)
    ensures Garbage(w, start, pins) == start.Keys - Marked(w, start, pins)
  {
    hide Marked;
  }

  lemma NothingDeleted(start: Store, garbage: set<Cid>)
    ensures start - (garbage - garbage) == start
  {
  }

  lemma MarkingStaysOnTrack(w: World, start: Store, pins: PinTable, step: GcStep, step': GcStep)
    requires step.Marking? && OnTrack(w, start, start, step)
    requires GcMoves(w, start, pins, step, start, step')
    ensures OnTrack(w, start, start, step')
  {
    hide OnTrack, WalkTurn, PickPin;
    if step.queue != [] {
      TurnStaysOnTrack(w, start, step);
    } else if step.left != map[] {
      var s :| s in step.left && step' == PickPin(w, step, s);
      PickStaysOnTrack(w, start, step, s);
    } else {
      MarkedStaysOnTrack(w, start, step);
    }
  }

  lemma WalkTurnKeeps(w: World, start: Store, step: GcStep)
    requires step.Marking? && step.queue != []
    ensures
      var turned := WalkTurn(w, start, step);
      turned.Marking? && turned.keys == step.keys && turned.pins == step.pins
  {
  }

  lemma PickPinKeeps(w: World, step: GcStep, s: string)
    requires step.Marking? && s in step.left
    ensures var picked := PickPin(w, step, s); picked.Marking? && picked.keys == step.keys && picked.pins == step.pins
  {
  }

  lemma DeleteStaysOnTrack(w: World, start: Store, blocks: Store, step: GcStep, c: Cid)
    requires step.Deleting? && OnTrack(w, start, blocks, step) && c in step.todo
    ensures OnTrack(w, start, blocks - {c}, step.(todo := step.todo - {c}, deleted := step.deleted + 1))
  {
    hide Marked, Garbage, IsCollected;
    DeleteOnTrack(start, Garbage(w, start, step.pins), step.todo, c);
  }

  lemma EndStaysOnTrack(w: World, start: Store, blocks: Store, step: GcStep)
    requires step.Deleting? && OnTrack(w, start, blocks, step) && step.todo == {}
    ensures OnTrack(w, start, blocks, Ended(step.pins, GCResult(step.deleted, step.retained)))
  {
    hide Marked, Collect, Garbage;
    var garbage := Garbage(w, start, step.pins);
    assert garbage - {} == garbage;
    DeletingEnds(w, start, blocks, step.pins);
  }

  lemma DeletingStaysOnTrack(
    w: World, start: Store, blocks: Store, pins: PinTable, step: GcStep, blocks': Store, step': GcStep)
    requires step.Deleting? && OnTrack(w, start, blocks, step)
    requires GcMoves(w, blocks, pins, step, blocks', step')
    ensures OnTrack(w, start, blocks', step')
  {
    hide OnTrack;
    if step.todo != {} {
      var c :| c in step.todo && blocks' == blocks - {c}
        && step' == Deleting(step.pins, step.retained, step.todo - {c}, step.deleted + 1);
      DeleteStaysOnTrack(w, start, blocks, step, c);
    } else {
      EndStaysOnTrack(w, start, blocks, step);
    }
  }

  /** Every step of a collection keeps it on track towards one atomic collection. */
  lemma GcStaysOnTrack(
    w: World, start: Store, blocks: Store, pins: PinTable, step: GcStep, blocks': Store, step': GcStep)
    requires OnTrack(w, start, blocks, step)
    requires GcMoves(w, blocks, pins, step, blocks', step')
    ensures OnTrack(w, start, blocks', step')
  {
    match step {
      case Begun =>
      case Keyed(_) =>
        StartsOnTrack(w, start, pins);
      case Marking(_, _, _, _, _, _, _) =>
        hide WillMark, WalkTurn, PickPin;
        MarkingStaysOnTrack(w, start, pins, step, step');
      case Deleting(_, _, _, _) =>
        hide OnTrack, GcMoves;
        DeletingStaysOnTrack(w, start, blocks, pins, step, blocks', step');
    }
  }

  lemma StartsOnTrack(w: World, start: Store, pins: PinTable)
    ensures WillMark(w, start, Marking(start.Keys, pins, pins, {}, [], {}, false)) == Marked(w, start, pins)
  {
    hide Marked;
  }

  // ---------------------------------------------------------------------
  // Every collection comes to an end
  // ---------------------------------------------------------------------

  /** A collection that has not ended always has a next step. */
  lemma CollectionNeverStuck(w: World, blocks: Store, pins: PinTable, step: GcStep)
    requires !step.Ended?
    ensures exists blocks', step' :: GcMoves(w, blocks, pins, step, blocks', step')
  {
    match step {
      case Begun => assert GcMoves(w, blocks, pins, step, blocks, Keyed(blocks.Keys));
      case Keyed(keys) => assert GcMoves(w, blocks, pins, step, blocks, Marking(keys, pins, pins, {}, [], {}, false));
      case Marking(keys, snapshot, left, marked, queue, _, _) =>
        hide WalkTurn, PickPin;
        if queue != [] {
          assert GcMoves(w, blocks, pins, step, blocks, WalkTurn(w, blocks, step));
        } else if left != map[] {
          var s :| s in left;
          assert GcMoves(w, blocks, pins, step, blocks, PickPin(w, step, s));
        } else {
          assert GcMoves(w, blocks, pins, step, blocks, Deleting(snapshot, |marked|, keys - marked, 0));
        }
      case Deleting(snapshot, retained, todo, deleted) =>
        if todo != {} {
          var c :| c in todo;
          assert GcMoves(w, blocks, pins, step, blocks - {c}, Deleting(snapshot, retained, todo - {c}, deleted + 1));
        } else {
          assert GcMoves(w, blocks, pins, step, blocks, Ended(snapshot, GCResult(deleted, retained)));
        }
    }
  }

  /** The most steps one pin can cost. */
  ghost function PinBudget(w: World, start: Store): nat {
    2 + LinkCount(LinkGraph(w, start), start.Keys)
  }

  ghost function PinsBudget(w: World, start: Store, count: nat): nat {
    if count == 0 then 0 else PinBudget(w, start) + PinsBudget(w, start, count - 1)
  }

  /** At most so many steps a collection of start has still to take; its pins are those given until it reads them. */
  ghost function Budget(w: World, start: Store, pins: PinTable, step: GcStep): nat {
    match step
    case Begun => 4 + |start| + PinsBudget(w, start, |pins|)
    case Keyed(keys) => 3 + |keys| + PinsBudget(w, start, |pins|)
    case Marking(keys, _, left, _, queue, visited, recursive) =>
      2 + |keys| + TurnsLeft(PinGraph(w, start, recursive), queue, visited) + PinsBudget(w, start, |left|)
    case Deleting(_, _, todo, _) => 1 + |todo|
    case Ended(_, _) => 0
  }

  lemma TurnSpends(w: World, start: Store, pins: PinTable, step: GcStep)
    requires step.Marking? && step.queue != []
    ensures Budget(w, start, pins, WalkTurn(w, start, step)) < Budget(w, start, pins, step)
  {
    hide LinkCount, PinsBudget, PinGraph;
    if step.queue[0] !in step.visited {
      TurnSpendsOne(PinGraph(w, start, step.recursive), step.queue, step.visited);
    }
  }

  lemma WalkCosts(w: World, start: Store, root: Cid, recursive: bool)
    ensures TurnsLeft(PinGraph(w, start, recursive), [root], {}) < PinBudget(w, start)
  {
    var g := PinGraph(w, start, recursive);
    assert g.Keys - {} == if recursive then start.Keys else {};
  }

  lemma PickSpends(w: World, start: Store, pins: PinTable, step: GcStep, s: string)
    requires step.Marking? && step.queue == [] && s in step.left
    ensures Budget(w, start, pins, PickPin(w, step, s)) < Budget(w, start, pins, step)
  {
    hide TurnsLeft, PinBudget, PinGraph;
    assert (step.left - {s}).Keys == step.left.Keys - {s};
    assert |step.left - {s}| == |step.left| - 1;
    if w.parseText(s).Some? {
      WalkCosts(w, start, w.parseText(s).value, step.left[s] == Recursive);
    } else {
      SomePinBudget(w, start);
    }
  }

  lemma SomePinBudget(w: World, start: Store)
    ensures PinBudget(w, start) > 0
  {
  }

  lemma NoTurns(w: World, start: Store)
    ensures TurnsLeft(PinGraph(w, start, false), [], {}) == 0
  {
  }

  /** Every step of a collection spends some of its budget. */
  lemma GcMakesProgress(
    w: World, start: Store, blocks: Store, pins: PinTable, step: GcStep, blocks': Store, step': GcStep)
    requires OnTrack(w, start, blocks, step) && GcMoves(w, blocks, pins, step, blocks', step')
    ensures Budget(w, start, pins, step') < Budget(w, start, pins, step)
  {
    hide TurnsLeft, PinsBudget, PinGraph, WalkTurn, PickPin, Marked, WillMark, Garbage, IsCollected;
    match step {
      case Begun =>
      case Keyed(_) => NoTurns(w, start);
      case Marking(keys, _, left, marked, queue, _, _) =>
        if queue != [] {
          TurnSpends(w, start, pins, step);
        } else if left != map[] {
          var s :| s in left && step' == PickPin(w, step, s);
          PickSpends(w, start, pins, step, s);
        } else {
          SubsetCount(keys - marked, keys);
        }
      case Deleting(_, _, _, _) =>
    }
  }

  // ---------------------------------------------------------------------
  // The invariant of the system
  // ---------------------------------------------------------------------

  predicate IsWriter(p: Phase) {
    p in {WriteEnter, Writing, WriteDone}
  }

  ghost predicate RolesMatch(s: System) {
    && s.work.Keys == s.lock.phase.Keys
    && forall t :: t in s.work ==> (s.work[t].Collecting? <==> IsWriter(s.lock.phase[t]))
  }

  ghost predicate Collects(s: System, t: Tid) {
    t in s.work && t in s.lock.phase && s.lock.phase[t] == Writing && s.work[t].Collecting?
  }

  ghost predicate CollectorsOnTrack(w: World, s: System) {
    forall t :: Collects(s, t) ==> OnTrack(w, s.work[t].start, s.blocks, s.work[t].step)
  }

  predicate MayHavePut(p: Phase) {
    p !in {Enter, CountLocked, Counted, Acquired}
  }

  ghost predicate HasPut(s: System, t: Tid, c: Cid) {
    t in s.work && t in s.lock.phase && s.work[t].Adding? && c in s.work[t].mine
  }

  /** Blocks are put inside an open section only, and stay there until it closes unless a caller removes them. */
  ghost predicate OpenBlocksKept(s: System) {
    forall t, c :: HasPut(s, t, c) ==>
      && MayHavePut(s.lock.phase[t])
      && (s.lock.phase[t] == Reading ==> c in s.blocks || c in s.removed)
  }

  ghost predicate SysInv(w: World, s: System) {
    Inv(s.lock) && RolesMatch(s) && CollectorsOnTrack(w, s) && OpenBlocksKept(s)
  }

  /** While a collector is inside, no adder is: a delete can hit no block of an open section. */
  lemma CollectorIsAlone(s: System, t: Tid, u: Tid)
    requires Inv(s.lock) && t in s.lock.phase && u in s.lock.phase && t != u && s.lock.phase[t] == Writing
    ensures s.lock.phase[u] != Reading && s.lock.phase[u] != Writing
  {
  }

  lemma TrackFrame(w: World, s: System, s': System)
    requires CollectorsOnTrack(w, s) && s'.blocks == s.blocks
    requires forall t :: Collects(s', t) ==>
      (Collects(s, t) && s'.work[t] == s.work[t]) || s'.work[t] == Collecting(Begun, s.blocks)
    ensures CollectorsOnTrack(w, s')
  {
    forall t | Collects(s', t)
      ensures OnTrack(w, s'.work[t].start, s'.blocks, s'.work[t].step)
    {
      if s'.work[t] != Collecting(Begun, s.blocks) {
        hide OnTrack;
        assert Collects(s, t);
      }
    }
  }

  lemma OpenFrame(s: System, s': System)
    requires OpenBlocksKept(s)
    requires forall t, c :: HasPut(s', t, c) ==>
      && HasPut(s, t, c)
      && (MayHavePut(s.lock.phase[t]) ==> MayHavePut(s'.lock.phase[t]))
      && (s'.lock.phase[t] == Reading && MayHavePut(s.lock.phase[t]) ==> s.lock.phase[t] == Reading)
    requires forall c :: c in s.blocks || c in s.removed ==> c in s'.blocks || c in s'.removed
    ensures OpenBlocksKept(s')
  {
    hide HasPut;
  }

  lemma ArriveChanges(w: World, s: System, t: Tid, s': System)
    requires RolesMatch(s) && Next(w, s, Arrive(t), s')
    ensures s'.blocks == s.blocks && s'.removed == s.removed
    ensures t !in s.lock.phase && s'.lock.phase.Keys == s.lock.phase.Keys + {t} == s'.work.Keys
    ensures forall u :: u in s.lock.phase ==> s'.lock.phase[u] == s.lock.phase[u] && s'.work[u] == s.work[u]
    ensures s'.lock.phase[t] != Writing && s'.work[t].Collecting? == IsWriter(s'.lock.phase[t])
    ensures forall c :: !HasPut(s', t, c)
  {
  }

  lemma ArriveRoles(w: World, s: System, t: Tid, s': System)
    requires SysInv(w, s) && Next(w, s, Arrive(t), s')
    ensures RolesMatch(s')
  {
    ArriveChanges(w, s, t, s');
    hide Inv, Next, CollectorsOnTrack, OpenBlocksKept;
  }

  lemma ArriveTracks(w: World, s: System, t: Tid, s': System)
    requires SysInv(w, s) && Next(w, s, Arrive(t), s')
    ensures CollectorsOnTrack(w, s')
  {
    ArriveChanges(w, s, t, s');
    hide Inv, Next, CollectorsOnTrack, OpenBlocksKept;
    TrackFrame(w, s, s');
  }

  lemma ArriveKeepsOpen(w: World, s: System, t: Tid, s': System)
    requires SysInv(w, s) && Next(w, s, Arrive(t), s')
    ensures OpenBlocksKept(s')
  {
    ArriveChanges(w, s, t, s');
    hide Inv, Next, CollectorsOnTrack, OpenBlocksKept;
    OpenFrame(s, s');
  }

  lemma ArriveKeepsInv(w: World, s: System, t: Tid, s': System)
    requires SysInv(w, s) && Next(w, s, Arrive(t), s')
    ensures SysInv(w, s')
  {
    hide Inv, RolesMatch, CollectorsOnTrack, OpenBlocksKept;
    ArrivalKeepsInv(s.lock, t, s'.lock);
    ArriveRoles(w, s, t, s');
    ArriveTracks(w, s, t, s');
    ArriveKeepsOpen(w, s, t, s');
  }

  lemma PhaseAfter(l: Lock, t: Tid, l': Lock)
    requires RWLock.Steps(l, t, l')
    ensures t in l.phase && l'.phase.Keys == l.phase.Keys
    ensures forall u :: u in l.phase && u != t ==> l'.phase[u] == l.phase[u]
    ensures
      var p, p' := l.phase[t], l'.phase[t];
      && IsWriter(p') == IsWriter(p)
      && (MayHavePut(p) ==> MayHavePut(p') && p' != Reading)
      && (p' == Writing <==> p == WriteEnter)
  {
  }

  lemma LockStepChanges(w: World, s: System, t: Tid, s': System)
    requires SysInv(w, s) && Next(w, s, LockStep(t), s')
    ensures s'.blocks == s.blocks && s'.removed == s.removed && s'.work.Keys == s.work.Keys
    ensures t in s.lock.phase && s'.lock.phase.Keys == s.lock.phase.Keys
    ensures forall u :: u in s.lock.phase && u != t ==> s'.lock.phase[u] == s.lock.phase[u] && s'.work[u] == s.work[u]
    ensures
      var p, p' := s.lock.phase[t], s'.lock.phase[t];
      && IsWriter(p') == IsWriter(p)
      && (MayHavePut(p) ==> MayHavePut(p') && p' != Reading)
      && (p' == Writing <==> p == WriteEnter)
      && s'.work[t] == if p == WriteEnter then Collecting(Begun, s.blocks) else s.work[t]
  {
    hide Inv, CollectorsOnTrack, OpenBlocksKept, RWLock.Steps, IsWriter, MayHavePut;
    PhaseAfter(s.lock, t, s'.lock);
  }

  lemma LockStepRoles(w: World, s: System, t: Tid, s': System)
    requires SysInv(w, s) && Next(w, s, LockStep(t), s')
    ensures RolesMatch(s')
  {
    LockStepChanges(w, s, t, s');
    hide Inv, Next, CollectorsOnTrack, OpenBlocksKept;
  }

  lemma LockStepTracks(w: World, s: System, t: Tid, s': System)
    requires SysInv(w, s) && Next(w, s, LockStep(t), s')
    ensures CollectorsOnTrack(w, s')
  {
    LockStepChanges(w, s, t, s');
    hide Inv, Next, CollectorsOnTrack, OpenBlocksKept;
    TrackFrame(w, s, s');
  }

  lemma LockStepKeepsOpen(w: World, s: System, t: Tid, s': System)
    requires SysInv(w, s) && Next(w, s, LockStep(t), s')
    ensures OpenBlocksKept(s')
  {
    LockStepChanges(w, s, t, s');
    hide Inv, Next, CollectorsOnTrack, OpenBlocksKept;
    OpenFrame(s, s');
  }

  lemma LockStepKeepsInv(w: World, s: System, t: Tid, s': System)
    requires SysInv(w, s) && Next(w, s, LockStep(t), s')
    ensures SysInv(w, s')
  {
    hide Inv, RolesMatch, CollectorsOnTrack, OpenBlocksKept;
    StepKeepsInv(s.lock, t, s'.lock);
    LockStepRoles(w, s, t, s');
    LockStepTracks(w, s, t, s');
    LockStepKeepsOpen(w, s, t, s');
  }

  lemma PutKeepsInv(w: World, s: System, t: Tid, s': System)
    requires SysInv(w, s) && Next(w, s, Put(t), s')
    ensures SysInv(w, s')
  {
    hide CollectorsOnTrack, OpenBlocksKept, Inv;
    NobodyCollects(w, s, s', t);
    PutKeepsOpen(w, s, t, s');
  }

  lemma PutKeepsOpen(w: World, s: System, t: Tid, s': System)
    requires OpenBlocksKept(s) && Next(w, s, Put(t), s')
    ensures OpenBlocksKept(s')
  {
    assert forall u, c :: HasPut(s', u, c) && !HasPut(s, u, c) ==> u == t && c in s'.blocks;
  }

  lemma NobodyCollects(w: World, s: System, s': System, t: Tid)
    requires Inv(s.lock) && t in s.lock.phase && s.lock.phase[t] == Reading && s'.lock == s.lock
    ensures CollectorsOnTrack(w, s')
  {
    hide OnTrack;
    forall u | Collects(s', u)
      ensures false
    {
      CollectorIsAlone(s, u, t);
    }
  }

  lemma NobodyReads(s: System, s': System, t: Tid)
    requires Inv(s.lock) && t in s.lock.phase && s.lock.phase[t] == Writing && s'.lock == s.lock
    requires OpenBlocksKept(s) && forall u, c :: HasPut(s', u, c) ==> HasPut(s, u, c)
    ensures OpenBlocksKept(s')
  {
    forall u, c | HasPut(s', u, c)
      ensures MayHavePut(s'.lock.phase[u]) && s'.lock.phase[u] != Reading
    {
      assert HasPut(s, u, c);
      if u != t {
        CollectorIsAlone(s, t, u);
      }
    }
  }

  lemma OnlyOneCollects(w: World, s: System, s': System, t: Tid)
    requires Inv(s.lock) && t in s.lock.phase && s.lock.phase[t] == Writing && s'.lock == s.lock
    requires t in s'.work && s'.work[t].Collecting? && OnTrack(w, s'.work[t].start, s'.blocks, s'.work[t].step)
    ensures CollectorsOnTrack(w, s')
  {
    hide OnTrack;
    forall u | Collects(s', u)
      ensures u == t
    {
      if u != t {
        CollectorIsAlone(s, t, u);
      }
    }
  }

  lemma GcChanges(w: World, s: System, t: Tid, s': System)
    requires SysInv(w, s) && Next(w, s, Gc(t), s')
    ensures s'.lock == s.lock && RolesMatch(s')
    ensures forall u, c :: HasPut(s', u, c) ==> HasPut(s, u, c)
    ensures Collects(s, t) && Collects(s', t) && s'.work[t].start == s.work[t].start
  {
    hide Inv, OnTrack, GcMoves, CollectorsOnTrack, OpenBlocksKept;
  }

  lemma GcKeepsInv(w: World, s: System, t: Tid, s': System)
    requires SysInv(w, s) && Next(w, s, Gc(t), s')
    ensures SysInv(w, s')
  {
    GcChanges(w, s, t, s');
    GcStaysOnTrack(w, s.work[t].start, s.blocks, s.pins, s.work[t].step, s'.blocks, s'.work[t].step);
    hide OnTrack, GcMoves, Inv, RolesMatch, CollectorsOnTrack, OpenBlocksKept, Next, HasPut;
    OnlyOneCollects(w, s, s', t);
    NobodyReads(s, s', t);
  }

  lemma OutsideKeepsInv(w: World, s: System, e: Event, s': System)
    requires SysInv(w, s) && Next(w, s, e, s')
    requires e.SetPins? || e.UnlockedPut? || e.RemoveNode?
    ensures SysInv(w, s')
  {
    hide OnTrack, Inv, OpenBlocksKept;
    assert forall u, c :: HasPut(s', u, c) <==> HasPut(s, u, c);
    if e.SetPins? {
      TrackFrame(w, s, s');
    } else {
      assert forall u :: !Collects(s', u);
    }
    OpenFrame(s, s');
  }

  lemma NextKeepsInv(w: World, s: System, e: Event, s': System)
    requires SysInv(w, s) && Next(w, s, e, s')
    ensures SysInv(w, s')
  {
    hide SysInv, Next;
    match e {
      case Arrive(t) => ArriveKeepsInv(w, s, t, s');
      case LockStep(t) => LockStepKeepsInv(w, s, t, s');
      case Put(t) => PutKeepsInv(w, s, t, s');
      case Gc(t) => GcKeepsInv(w, s, t, s');
      case _ => OutsideKeepsInv(w, s, e, s');
    }
  }

  lemma {:induction false} RunKeepsInv(w: World, run: seq<System>, events: seq<Event>, i: nat)
    requires IsRun(w, run, events) && i < |run|
    ensures SysInv(w, run[i])
    decreases i
  {
    if i > 0 {
      RunKeepsInv(w, run, events, i - 1);
      NextKeepsInv(w, run[i - 1], events[i - 1], run[i]);
    } else {
      assert CountedTasks(INIT) == {};
    }
  }

  // ---------------------------------------------------------------------
  // The theorems
  // ---------------------------------------------------------------------

  /** Task t acquired the write lock with its i-th step and is still inside at state j. */
  ghost predicate InsideSince(run: seq<System>, events: seq<Event>, t: Tid, i: nat, j: nat)
    requires |run| == |events| + 1
  {
    && i < j < |run|
    && events[i] == LockStep(t)
    && t in run[i].lock.phase && run[i].lock.phase[t] == WriteEnter
    && forall k :: i < k <= j ==> t in run[k].lock.phase && run[k].lock.phase[t] == Writing
  }

  /** The start it remembers is the store it found; the pins it uses are those of one moment inside. */
  ghost predicate Remembers(run: seq<System>, t: Tid, i: nat, j: nat)
    requires i < j < |run|
  {
    && t in run[j].work && run[j].work[t].Collecting?
    && run[j].work[t].start == run[i].blocks
    && (run[j].work[t].step.HasPins() ==> exists k :: i < k <= j && PinsOf(run[j].work[t].step) == run[k].pins)
  }

  lemma {:induction false} SectionRemembers(w: World, run: seq<System>, events: seq<Event>, t: Tid, i: nat, j: nat)
    requires IsRun(w, run, events) && InsideSince(run, events, t, i, j)
    ensures Remembers(run, t, i, j)
    decreases j
  {
    assert Next(w, run[j - 1], events[j - 1], run[j]);
    if j == i + 1 {
      SectionBegins(w, run[i], t, run[j]);
    } else {
      SectionRemembers(w, run, events, t, i, j - 1);
      SectionStep(w, run[j - 1], events[j - 1], run[j], t);
      hide Next, IsRun, InsideSince;
      assert PinsAreRemembered(run, t, i, j);
    }
  }

  ghost predicate PinsAreRemembered(run: seq<System>, t: Tid, i: nat, j: nat)
    requires i < j < |run|
  {
    t in run[j].work && run[j].work[t].Collecting? && run[j].work[t].step.HasPins() ==>
      exists k :: i < k <= j && PinsOf(run[j].work[t].step) == run[k].pins
  }

  lemma SectionBegins(w: World, s: System, t: Tid, s': System)
    requires Next(w, s, LockStep(t), s') && t in s.lock.phase && s.lock.phase[t] == WriteEnter
    ensures t in s'.work && s'.work[t] == Collecting(Begun, s.blocks)
  {
  }

  function PinsOf(step: GcStep): PinTable
    requires step.HasPins()
  {
    step.pins
  }

  /** Inside its section a collector keeps its start, and takes its pins once. */
  lemma SectionStep(w: World, s: System, e: Event, s': System, t: Tid)
    requires Next(w, s, e, s')
    requires t in s.lock.phase && s.lock.phase[t] == Writing
    requires t in s'.lock.phase && s'.lock.phase[t] == Writing
    requires t in s.work && s.work[t].Collecting?
    ensures t in s'.work && s'.work[t].Collecting? && s'.work[t].start == s.work[t].start
    ensures
      var step, step' := s.work[t].step, s'.work[t].step;
      if step.HasPins() then step'.HasPins() && step'.pins == step.pins
      else step'.HasPins() ==> step'.pins == s'.pins
  {
    hide GcMoves;
    if e == Gc(t) {
      assert GcMoves(w, s.blocks, s.pins, s.work[t].step, s'.blocks, s'.work[t].step);
      PinsTakenOnce(w, s.blocks, s.pins, s.work[t].step, s'.blocks, s'.work[t].step);
    } else {
      OthersLeaveItAlone(w, s, e, s', t);
    }
  }

  lemma PinsTakenOnce(w: World, blocks: Store, pins: PinTable, step: GcStep, blocks': Store, step': GcStep)
    requires GcMoves(w, blocks, pins, step, blocks', step')
    ensures
      if step.HasPins() then step'.HasPins() && step'.pins == step.pins
      else step'.HasPins() ==> step'.pins == pins
  {
  }

  /** Nothing but its own steps changes a collection while it is inside. */
  lemma OthersLeaveItAlone(w: World, s: System, e: Event, s': System, t: Tid)
    requires Next(w, s, e, s') && e != Gc(t)
    requires t in s.lock.phase && s.lock.phase[t] == Writing
    requires t in s'.lock.phase && s'.lock.phase[t] == Writing
    requires t in s.work && s.work[t].Collecting?
    ensures t in s'.work && s'.work[t] == s.work[t]
  {
    hide GcMoves;
  }

  /**
   In every interleaving, when a collection ends the store is one atomic collection
   of the store it found on acquiring the lock, for the pins of one moment inside,
   and the result it reports is that collection's.
   */
  lemma CollectionIsAtomic(w: World, run: seq<System>, events: seq<Event>, t: Tid, i: nat, j: nat)
    requires IsRun(w, run, events) && InsideSince(run, events, t, i, j)
    requires t in run[j].work && run[j].work[t].Collecting? && run[j].work[t].step.Ended?
    ensures
      var result := run[j].work[t].step.result;
      exists k :: i < k <= j && IsCollected(w, run[i].blocks, run[j].blocks, run[k].pins, result)
  {
    RunKeepsInv(w, run, events, j);
    SectionRemembers(w, run, events, t, i, j);
    hide IsCollected, IsRun, Inv;
    var step := run[j].work[t].step;
    var k :| i < k <= j && PinsOf(step) == run[k].pins;
    assert Collects(run[j], t);
    assert OnTrack(w, run[i].blocks, run[j].blocks, step);
    assert IsCollected(w, run[i].blocks, run[j].blocks, run[k].pins, step.result);
  }

  /** No collection ever takes a block that a still open add section has put. */
  lemma OpenSectionsAreSafe(w: World, run: seq<System>, events: seq<Event>, i: nat, t: Tid, c: Cid)
    requires IsRun(w, run, events) && i < |run|
    requires t in run[i].lock.phase && run[i].lock.phase[t] == Reading
    requires HasPut(run[i], t, c)
    ensures c in run[i].blocks || c in run[i].removed
    ensures i < |events| ==> !events[i].Gc?
  {
    RunKeepsInv(w, run, events, i);
    if i < |events| && events[i].Gc? {
      assert Next(w, run[i], events[i], run[i + 1]);
      CollectorIsAlone(run[i], events[i].t, t);
    }
  }

  /** What one event takes out of the store while task t is inside an add section. */
  lemma SectionLosesOnlyRemoved(w: World, s: System, e: Event, s': System, t: Tid, c: Cid)
    requires SysInv(w, s) && Next(w, s, e, s')
    requires t in s.lock.phase && s.lock.phase[t] == Reading
    requires c in s.blocks && e != RemoveNode(c)
    ensures c in s'.blocks
  {
    hide OnTrack, GcMoves, OpenBlocksKept, CollectorsOnTrack;
    if e.Gc? {
      CollectorIsAlone(s, e.t, t);
    }
  }

  lemma RunStep(w: World, run: seq<System>, events: seq<Event>, i: nat)
    requires IsRun(w, run, events) && i < |run| - 1
    ensures i < |events| && Next(w, run[i], events[i], run[i + 1])
  {
    hide Next;
  }

  lemma PutStores(w: World, s: System, t: Tid, s': System, c: Cid)
    requires Next(w, s, Put(t), s')
    requires t in s.work && s.work[t].Adding? && s.work[t].todo != [] && s.work[t].todo[0].0 == c
    ensures c in s'.blocks && s'.blocks[c] == s.work[t].todo[0].1
  {
  }

  /**
   A block put inside an add section stays while the section is open, in every interleaving,
   unless a caller removes it after the put.
   */
  lemma {:induction false} OpenPutSurvives(
    w: World, run: seq<System>, events: seq<Event>, m: nat, i: nat, t: Tid, c: Cid)
    requires IsRun(w, run, events) && m < i < |run| && events[m] == Put(t)
    requires t in run[m].work && run[m].work[t].Adding? && run[m].work[t].todo != []
    requires run[m].work[t].todo[0].0 == c
    requires forall n :: m <= n <= i ==> t in run[n].lock.phase && run[n].lock.phase[t] == Reading
    requires forall n :: m < n < i ==> events[n] != RemoveNode(c)
    ensures c in run[i].blocks
    decreases i
  {
    hide *;
    RunStep(w, run, events, i - 1);
    if i == m + 1 {
      PutStores(w, run[m], t, run[i], c);
    } else {
      OpenPutSurvives(w, run, events, m, i - 1, t, c);
      RunKeepsInv(w, run, events, i - 1);
      SectionLosesOnlyRemoved(w, run[i - 1], events[i - 1], run[i], t, c);
    }
  }

  // ---------------------------------------------------------------------
  // Nothing gets stuck, and every collection ends
  // ---------------------------------------------------------------------

  lemma GcCanMove(w: World, s: System, t: Tid)
    requires t in s.work && t in s.lock.phase && s.lock.phase[t] == Writing
    requires s.work[t].Collecting? && !s.work[t].step.Ended?
    ensures exists s' :: Next(w, s, Gc(t), s')
  {
    CollectionNeverStuck(w, s.blocks, s.pins, s.work[t].step);
    var blocks', step' :| GcMoves(w, s.blocks, s.pins, s.work[t].step, blocks', step');
    hide GcMoves;
    var s' := s.Do(t, s.work[t].(step := step')).(blocks := blocks');
    assert Next(w, s, Gc(t), s');
  }

  lemma LockCanStep(w: World, s: System, t: Tid)
    requires t in s.work && t in s.lock.phase && CanStep(s.lock, t)
    requires s.lock.phase[t] == Writing && s.work[t].Collecting? ==> s.work[t].step.Ended?
    ensures exists s' :: Next(w, s, LockStep(t), s')
  {
    var l :| RWLock.Steps(s.lock, t, l);
    hide RWLock.Steps;
    var s' := (if s.lock.phase[t] == WriteEnter then s.Do(t, Collecting(Begun, s.blocks)) else s).(lock := l);
    assert Next(w, s, LockStep(t), s');
  }

  /** In every reachable state with an unfinished task some task can take a step of its own. */
  lemma SystemNeverStuck(w: World, s: System, t: Tid)
    requires SysInv(w, s) && t in s.lock.phase && !s.lock.phase[t].Finished()
    ensures exists u, s' :: Next(w, s, LockStep(u), s') || Next(w, s, Gc(u), s')
  {
    NoDeadlock(s.lock, t);
    var u :| u in s.lock.phase && CanStep(s.lock, u);
    hide Inv, CollectorsOnTrack, OpenBlocksKept, Next, CanStep;
    if s.lock.phase[u] == Writing && s.work[u].Collecting? && !s.work[u].step.Ended? {
      GcCanMove(w, s, u);
    } else {
      LockCanStep(w, s, u);
    }
  }

  /** How many of the events from i up to j are steps of t's collection. */
  ghost function GcCount(events: seq<Event>, t: Tid, i: nat, j: nat): nat
    requires i <= j <= |events|
  {
    if i == j then 0 else GcCount(events, t, i, j - 1) + if events[j - 1] == Gc(t) then 1 else 0
  }

  /** The steps spent so far and those still to take fit the budget that the pins of some moment inside allow. */
  ghost predicate Spent(w: World, run: seq<System>, events: seq<Event>, t: Tid, i: nat, j: nat, m: nat)
    requires |run| == |events| + 1 && i < j < |run|
  {
    && i < m <= j && t in run[j].work && run[j].work[t].Collecting?
    && var start, step := run[i].blocks, run[j].work[t].step;
       && run[j].work[t].start == start
       && (!step.HasPins() ==> m == j)
       && GcCount(events, t, i + 1, j) + Budget(w, start, run[m].pins, step)
          <= Budget(w, start, run[m].pins, Begun)
  }

  lemma BudgetIgnoresPins(w: World, start: Store, pins: PinTable, pins': PinTable, step: GcStep)
    requires step.HasPins()
    ensures Budget(w, start, pins, step) == Budget(w, start, pins', step)
  {
    hide TurnsLeft, PinsBudget;
  }

  /** Before it reads its pins a collection has spent a fixed number of steps, whatever the pins. */
  lemma EarlyBudget(w: World, start: Store, pins: PinTable, pins': PinTable, step: GcStep, n: nat)
    requires !step.HasPins()
    requires n + Budget(w, start, pins, step) <= Budget(w, start, pins, Begun)
    ensures n + Budget(w, start, pins', step) <= Budget(w, start, pins', Begun)
  {
    hide PinsBudget;
  }

  lemma OwnStep(w: World, s: System, s': System, t: Tid)
    requires Next(w, s, Gc(t), s') && SysInv(w, s)
    requires s.lock.phase[t] == Writing
    ensures t in s.work && s.work[t].Collecting? && t in s'.work && s'.work[t].Collecting?
    ensures s'.work[t].start == s.work[t].start
    ensures GcMoves(w, s.blocks, s.pins, s.work[t].step, s'.blocks, s'.work[t].step)
    ensures OnTrack(w, s.work[t].start, s.blocks, s.work[t].step)
    ensures s'.pins == s.pins
  {
    hide GcMoves, OnTrack, Inv, OpenBlocksKept;
    assert Collects(s, t);
  }

  lemma PinsReadNow(w: World, blocks: Store, pins: PinTable, step: GcStep, blocks': Store, step': GcStep)
    requires GcMoves(w, blocks, pins, step, blocks', step')
    ensures step.HasPins() ==> step'.HasPins()
  {
  }

  /** One more event inside the section. */
  lemma SpentStep(w: World, run: seq<System>, events: seq<Event>, t: Tid, i: nat, j: nat, m: nat) returns (m': nat)
    requires IsRun(w, run, events) && InsideSince(run, events, t, i, j) && j + 1 < |run|
    requires InsideSince(run, events, t, i, j + 1) && Spent(w, run, events, t, i, j, m)
    ensures i < m' <= j + 1 && Spent(w, run, events, t, i, j + 1, m')
  {
    var s, s', start := run[j], run[j + 1], run[i].blocks;
    assert Next(w, s, events[j], s');
    RunKeepsInv(w, run, events, j);
    hide Next, IsRun, SysInv, Budget, GcMoves;
    var step := s.work[t].step;
    if events[j] == Gc(t) {
      OwnStep(w, s, s', t);
      var step' := s'.work[t].step;
      PinsReadNow(w, s.blocks, s.pins, step, s'.blocks, step');
      GcMakesProgress(w, start, s.blocks, s.pins, step, s'.blocks, step');
      if step.HasPins() {
        BudgetIgnoresPins(w, start, run[m].pins, s.pins, step);
        BudgetIgnoresPins(w, start, run[m].pins, s.pins, step');
        m' := m;
      } else {
        m' := j + 1;
      }
    } else {
      OthersLeaveItAlone(w, s, events[j], s', t);
      if step.HasPins() {
        m' := m;
      } else {
        EarlyBudget(w, start, s.pins, s'.pins, step, GcCount(events, t, i + 1, j));
        m' := j + 1;
      }
    }
  }

  lemma SpentBegins(w: World, run: seq<System>, events: seq<Event>, t: Tid, i: nat)
    requires IsRun(w, run, events) && InsideSince(run, events, t, i, i + 1)
    ensures Spent(w, run, events, t, i, i + 1, i + 1)
  {
    assert Next(w, run[i], events[i], run[i + 1]);
    hide Budget, Next, IsRun;
    SectionBegins(w, run[i], t, run[i + 1]);
  }

  lemma {:induction false} SpentThroughout(w: World, run: seq<System>, events: seq<Event>, t: Tid, i: nat, j: nat)
    returns (m: nat)
    requires IsRun(w, run, events) && InsideSince(run, events, t, i, j)
    ensures i < m <= j && Spent(w, run, events, t, i, j, m)
    decreases j
  {
    hide SysInv, Budget, OnTrack, Spent;
    if j == i + 1 {
      SpentBegins(w, run, events, t, i);
      m := j;
    } else {
      hide Next;
      var n := SpentThroughout(w, run, events, t, i, j - 1);
      m := SpentStep(w, run, events, t, i, j - 1, n);
    }
  }

  /**
   Every collection ends: in every interleaving, the steps it takes inside its section are
   no more than the store it found and the pins of one moment inside allow. As it always has
   a next step until it has ended, it can only stop by ending.
   */
  lemma EveryCollectionEnds(w: World, run: seq<System>, events: seq<Event>, t: Tid, i: nat, j: nat)
    requires IsRun(w, run, events) && InsideSince(run, events, t, i, j)
    ensures exists m :: i < m <= j && GcCount(events, t, i + 1, j) <= Budget(w, run[i].blocks, run[m].pins, Begun)
  {
    hide Budget, Next;
    var m := SpentThroughout(w, run, events, t, i, j);
    assert GcCount(events, t, i + 1, j) <= Budget(w, run[i].blocks, run[m].pins, Begun);
  }
}
