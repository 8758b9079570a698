/**
 A collection beside writers that put blocks without the lock (import_car, the cache
 write of fetch_block, Bitswap). Adders are outside while a collector is inside; these
 writers may put between any two of its steps, and pins may change.
 */
module GcWriters {
  import opened Bytes
  import opened Cids
  import opened Ipld
  import opened Graphs
  import opened Dag
  import opened Pins
  import opened Content
  import opened GcSystem

  datatype Section = Section(blocks: Store, pins: PinTable, step: GcStep)

  ghost predicate PutsOne(s: Section, c: Cid, data: Bytes, s': Section) {
    (c in s.blocks ==> s.blocks[c] == data) && s' == s.(blocks := s.blocks[c := data])
  }

  /** A step of the collection, a put of a block under its own identifier, or a change of pins. */
  ghost predicate Moves(w: World, s: Section, s': Section) {
    || (s'.pins == s.pins && GcMoves(w, s.blocks, s.pins, s.step, s'.blocks, s'.step))
    || (exists c: Cid, data: Bytes :: PutsOne(s, c, data, s'))
    || s' == s.(pins := s'.pins)
  }

  ghost predicate IsSection(w: World, run: seq<Section>) {
    && run != [] && run[0].step == Begun
    && forall i :: 0 <= i < |run| - 1 ==> Moves(w, run[i], run[i + 1])
  }

  ghost predicate SoundReads(w: World) {
    forall c :: !w.readFails(c)
  }

  ghost predicate Contained(some: Store, all: Store) {
    forall c :: c in some ==> c in all && all[c] == some[c]
  }

  // ---------------------------------------------------------------------
  // What is sure to be marked
  // ---------------------------------------------------------------------

  /** What the walk under way covers at least: all it would cover in the store found at the start. */
  ghost function SureWalk(w: World, start: Store, queue: seq<Cid>, visited: set<Cid>, recursive: bool): set<Cid> {
    Elems(Bfs(PinGraph(w, start, recursive), queue, visited))
  }

  ghost function SureToMark(w: World, start: Store, step: GcStep): set<Cid>
    requires step.Marking?
  {
    step.marked + SureWalk(w, start, step.queue, step.visited, step.recursive) + Marked(w, start, step.left)
  }

  /** Nothing that the pins keep of the store found at the start is lost, now or later. */
  ghost predicate Spares(w: World, start: Store, blocks: Store, step: GcStep) {
    match step
    case Begun => Contained(start, blocks)
    case Keyed(_) => Contained(start, blocks)
    case Marking(_, pins, _, _, _, _, _) =>
      Contained(start, blocks) && Marked(w, start, pins) <= SureToMark(w, start, step)
    case Deleting(pins, _, todo, _) => todo !! Marked(w, start, pins) && Contained(Collect(w, start, pins), blocks)
    case Ended(pins, _) => Contained(Collect(w, start, pins), blocks)
  }

  lemma PutSpares(w: World, start: Store, blocks: Store, step: GcStep, c: Cid, data: Bytes)
    requires Spares(w, start, blocks, step) && (c in blocks ==> blocks[c] == data)
    ensures Spares(w, start, blocks[c := data], step)
  {
    hide Collect, Marked, SureToMark;
  }

  /** A block found at the start still has the links it had then, and one put since may have more. */
  lemma LinksOnlyGrow(w: World, start: Store, blocks: Store, recursive: bool, c: Cid, d: Cid)
    requires Contained(start, blocks) && d in Succ(PinGraph(w, start, recursive), c)
    ensures d in Succ(PinGraph(w, blocks, recursive), c)
  {
  }

  lemma TurnGoesOn(w: World, blocks: Store, step: GcStep)
    requires SoundReads(w) && step.Marking? && step.queue != []
    ensures
      var c, rest := step.queue[0], step.queue[1..];
      WalkTurn(w, blocks, step)
      == if c in step.visited then step.(queue := rest)
         else step.(queue := rest + Succ(PinGraph(w, blocks, step.recursive), c),
                    visited := step.visited + {c}, marked := step.marked + {c})
  {
    hide PinGraph;
  }

  lemma TurnCovers(w: World, start: Store, blocks: Store, queue: seq<Cid>, visited: set<Cid>, recursive: bool)
    requires Contained(start, blocks) && queue != [] && queue[0] !in visited
    ensures
      var c, rest := queue[0], queue[1..];
      SureWalk(w, start, queue, visited, recursive)
      <= {c} + SureWalk(w, start, rest + Succ(PinGraph(w, blocks, recursive), c), visited + {c}, recursive)
  {
    var c, rest := queue[0], queue[1..];
    var g, now := PinGraph(w, start, recursive), PinGraph(w, blocks, recursive);
    forall d | d in rest + Succ(g, c)
      ensures d in rest + Succ(now, c)
    {
      if d in Succ(g, c) {
        LinksOnlyGrow(w, start, blocks, recursive, c, d);
      }
    }
    hide Bfs, PinGraph;
    assert queue == [c] + rest;
    BfsTake(g, c, rest, visited);
    ElemsCons(c, Bfs(g, rest + Succ(g, c), visited + {c}));
    LongerQueueCoversMore(g, rest + Succ(g, c), rest + Succ(now, c), visited + {c});
  }

  lemma TurnSpares(w: World, start: Store, blocks: Store, step: GcStep)
    requires SoundReads(w) && step.Marking? && step.queue != [] && Spares(w, start, blocks, step)
    ensures Spares(w, start, blocks, WalkTurn(w, blocks, step))
  {
    hide Marked, Collect, SoundReads, WalkTurn, PinGraph, Bfs;
    TurnGoesOn(w, blocks, step);
    var c, rest := step.queue[0], step.queue[1..];
    if c in step.visited {
      assert step.queue == [c] + rest;
      BfsSkip(PinGraph(w, start, step.recursive), c, rest, step.visited);
    } else {
      hide SureWalk;
      TurnCovers(w, start, blocks, step.queue, step.visited, step.recursive);
    }
  }

  lemma HeldIsWalked(w: World, start: Store, root: Cid, s: string, t: PinType)
    requires SoundReads(w) && w.parseText(s) == Some(root)
    ensures Held(w, start, s, t) == SureWalk(w, start, [root], {}, t == Recursive)
  {
    hide Bfs;
    if t == Recursive {
      UpToAll(Walk(w, start, root), w.readFails);
    } else {
      NoLinksNoWalk(root);
    }
  }

  lemma PickSpares(w: World, start: Store, blocks: Store, step: GcStep, s: string)
    requires SoundReads(w) && step.Marking? && step.queue == [] && s in step.left && Spares(w, start, blocks, step)
    ensures Spares(w, start, blocks, PickPin(w, step, s))
  {
    hide Marked, Collect, SoundReads, PinGraph, Held;
    MarkedSplits(w, start, step.left, s);
    assert SureWalk(w, start, [], step.visited, step.recursive) == {};
    hide SureWalk;
    match w.parseText(s)
    case None => NothingHeld(w, start, s, step.left[s]);
    case Some(root) => HeldIsWalked(w, start, root, s, step.left[s]);
  }

  lemma NothingHeld(w: World, start: Store, s: string, t: PinType)
    requires w.parseText(s) == None
    ensures Held(w, start, s, t) == {}
  {
  }

  lemma MarkedIsSpared(w: World, start: Store, blocks: Store, step: GcStep)
    requires step.Marking? && step.queue == [] && step.left == map[] && Spares(w, start, blocks, step)
    ensures Spares(w, start, blocks, Deleting(step.pins, |step.marked|, step.keys - step.marked, 0))
  {
    NothingMoreToMark(w, start, step);
    CollectIsContained(w, start, step.pins);
    hide Marked, SureToMark, Collect;
  }

  lemma NothingMoreToMark(w: World, start: Store, step: GcStep)
    requires step.Marking? && step.queue == [] && step.left == map[]
    ensures SureToMark(w, start, step) == step.marked
  {
  }

  lemma CollectIsContained(w: World, start: Store, pins: PinTable)
    ensures Contained(Collect(w, start, pins), start)
  {
    hide Marked;
  }

  lemma DeleteSpares(w: World, start: Store, blocks: Store, step: GcStep, c: Cid)
    requires step.Deleting? && c in step.todo && Spares(w, start, blocks, step)
    ensures Spares(w, start, blocks - {c}, step.(todo := step.todo - {c}, deleted := step.deleted + 1))
  {
    hide Marked;
  }

  lemma KeyedSpares(w: World, start: Store, blocks: Store, pins: PinTable, keys: set<Cid>)
    requires Contained(start, blocks)
    ensures Spares(w, start, blocks, Marking(keys, pins, pins, {}, [], {}, false))
  {
    hide Marked;
  }

  lemma GcSpares(w: World, start: Store, blocks: Store, pins: PinTable, step: GcStep, blocks': Store, step': GcStep)
    requires SoundReads(w) && Spares(w, start, blocks, step)
    requires GcMoves(w, blocks, pins, step, blocks', step')
    ensures Spares(w, start, blocks', step')
  {
    match step {
      case Begun =>
      case Keyed(keys) => KeyedSpares(w, start, blocks, pins, keys);
      case Marking(_, _, left, _, queue, _, _) =>
        hide Spares, WalkTurn, PickPin, SoundReads;
        if queue != [] {
          TurnSpares(w, start, blocks, step);
        } else if left != map[] {
          var s :| s in left && step' == PickPin(w, step, s);
          PickSpares(w, start, blocks, step, s);
        } else {
          MarkedIsSpared(w, start, blocks, step);
        }
      case Deleting(_, retained, todo, deleted) =>
        if todo != {} {
          hide Spares;
          var c :| c in todo && blocks' == blocks - {c}
            && step' == Deleting(step.pins, retained, todo - {c}, deleted + 1);
          DeleteSpares(w, start, blocks, step, c);
        }
    }
  }

  lemma {:induction false} SectionSpares(w: World, run: seq<Section>, i: nat)
    requires SoundReads(w) && IsSection(w, run) && i < |run|
    ensures Spares(w, run[0].blocks, run[i].blocks, run[i].step)
    decreases i
  {
    if i > 0 {
      SectionSpares(w, run, i - 1);
      var s, s', start := run[i - 1], run[i], run[0].blocks;
      assert Moves(w, s, s');
      hide Spares, GcMoves, SoundReads, IsSection;
      if s'.pins == s.pins && GcMoves(w, s.blocks, s.pins, s.step, s'.blocks, s'.step) {
        GcSpares(w, start, s.blocks, s.pins, s.step, s'.blocks, s'.step);
      } else if s' != s.(pins := s'.pins) {
        var c: Cid, data: Bytes :| PutsOne(s, c, data, s');
        PutSpares(w, start, s.blocks, s.step, c, data);
      }
    }
  }

  /**
   Whatever is put beside it, a collection all of whose reads succeed leaves at least what
   one atomic collection of the store it found would leave, for the pins it read.
   */
  lemma PinnedSurvivesWriters(w: World, run: seq<Section>, i: nat)
    requires SoundReads(w) && IsSection(w, run) && i < |run| && run[i].step.Ended?
    ensures Contained(Collect(w, run[0].blocks, run[i].step.pins), run[i].blocks)
  {
    hide Collect, SoundReads, IsSection, Within;
    SectionSpares(w, run, i);
  }

  /**
   An unpinned block may go all the same: one put between acquiring the lock and the
   snapshot of the keys is collected with the rest.
   */
  lemma UnpinnedPutIsCollected(w: World, c: Cid, data: Bytes) returns (run: seq<Section>)
    ensures IsSection(w, run) && |run| == 7 && run[0].blocks == map[] && c in run[1].blocks
    ensures run[6].step.Ended? && c !in run[6].blocks
  {
    var none: PinTable, kept: Store := map[], map[c := data];
    run := [Section(map[], none, Begun), Section(kept, none, Begun), Section(kept, none, Keyed({c})),
            Section(kept, none, Marking({c}, none, none, {}, [], {}, false)),
            Section(kept, none, Deleting(none, 0, {c}, 0)), Section(map[], none, Deleting(none, 0, {}, 1)),
            Section(map[], none, Ended(none, GCResult(1, 0)))];
    hide *;
    MarksNothing(w, c, data);
    DeletesIt(w, c, data);
    PutIsMove(w, none, c, data);
    StepIsMove(w, run[1], run[2]);
    StepIsMove(w, run[2], run[3]);
    StepIsMove(w, run[3], run[4]);
    StepIsMove(w, run[4], run[5]);
    StepIsMove(w, run[5], run[6]);
    SevenStates(w, run);
  }

  lemma PutIsMove(w: World, pins: PinTable, c: Cid, data: Bytes)
    ensures Moves(w, Section(map[], pins, Begun), Section(map[c := data], pins, Begun))
  {
    assert PutsOne(Section(map[], pins, Begun), c, data, Section(map[c := data], pins, Begun));
  }

  lemma StepIsMove(w: World, s: Section, s': Section)
    requires s'.pins == s.pins && GcMoves(w, s.blocks, s.pins, s.step, s'.blocks, s'.step)
    ensures Moves(w, s, s')
  {
  }

  lemma SevenStates(w: World, run: seq<Section>)
    requires |run| == 7 && run[0].step == Begun && Moves(w, run[0], run[1]) && Moves(w, run[1], run[2])
    requires Moves(w, run[2], run[3]) && Moves(w, run[3], run[4]) && Moves(w, run[4], run[5])
    requires Moves(w, run[5], run[6])
    ensures IsSection(w, run)
  {
    hide Moves;
  }

  lemma MarksNothing(w: World, c: Cid, data: Bytes)
    ensures
      var kept: Store, marking := map[c := data], Marking({c}, map[], map[], {}, [], {}, false);
      && GcMoves(w, kept, map[], Begun, kept, Keyed({c}))
      && GcMoves(w, kept, map[], Keyed({c}), kept, marking)
      && GcMoves(w, kept, map[], marking, kept, Deleting(map[], 0, {c}, 0))
  {
    var kept: Store := map[c := data];
    assert kept.Keys == {c} && {c} - {} == {c};
    hide WalkTurn, PickPin;
  }

  lemma DeletesIt(w: World, c: Cid, data: Bytes)
    ensures GcMoves(w, map[c := data], map[], Deleting(map[], 0, {c}, 0), map[], Deleting(map[], 0, {}, 1))
    ensures GcMoves(w, map[], map[], Deleting(map[], 0, {}, 1), map[], Ended(map[], GCResult(1, 0)))
  {
    var kept: Store := map[c := data];
    assert kept - {c} == map[] && {c} - {c} == {};
    assert c in {c};
  }
}
