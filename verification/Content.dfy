/** Garbage collection and pin listing (peer/_content.py). */
module Content {
  import opened Bytes
  import opened Cids
  import opened Ipld
  import opened Graphs
  import opened Dag
  import opened Pins

  datatype GCResult = GCResult(reclaimedBlocks: nat, retainedBlocks: nat)

  // ---------------------------------------------------------------------
  // What the pins keep
  // ---------------------------------------------------------------------

  /**
   What one pin keeps: nothing when its text does not parse, and nothing behind a read
   that fails, as the exception that ends the walk is swallowed.
   */
  ghost function Held(w: World, blocks: Store, s: string, t: PinType): set<Cid> {
    match w.parseText(s)
    case None => {}
    case Some(root) => Elems(Visits(w, blocks, root, t == Recursive, w.readFails))
  }

  ghost function Marked(w: World, blocks: Store, pins: PinTable): set<Cid> {
    set s, c | s in pins && c in Held(w, blocks, s, pins[s]) :: c
  }

  lemma Remaining(blocks: Store, kept: set<Cid>)
    ensures
      var garbage := blocks.Keys - kept;
      && blocks - garbage == (map c | c in blocks && c in kept :: blocks[c])
      && |garbage| == |blocks| - |blocks - garbage|
  {
    var garbage := blocks.Keys - kept;
    CountRemaining(blocks, garbage);
  }

  lemma CountRemaining(blocks: Store, garbage: set<Cid>)
    requires garbage <= blocks.Keys
    ensures |garbage| == |blocks| - |blocks - garbage|
  {
    var left := blocks - garbage;
    assert left.Keys == blocks.Keys - garbage;
    assert |left.Keys| == |blocks.Keys| - |garbage|;
  }

  /** One atomic collection. */
  ghost function Collect(w: World, blocks: Store, pins: PinTable): Store {
    map c | c in blocks && c in Marked(w, blocks, pins) :: blocks[c]
  }

  lemma CollectIsRemaining(w: World, blocks: Store, pins: PinTable)
    ensures Collect(w, blocks, pins) == blocks - (blocks.Keys - Marked(w, blocks, pins))
  {
    hide Marked;
    Remaining(blocks, Marked(w, blocks, pins));
  }

  lemma AllTexts(w: World, blocks: Store)
    ensures (set c | c in blocks :: w.show(c)) == Texts(w, blocks.Keys)
  {
  }

  ghost function Texts(w: World, cids: set<Cid>): set<string> {
    set c | c in cids :: w.show(c)
  }

  lemma {:induction false} TextsCount(w: World, cids: set<Cid>)
    requires w.TextRoundTrips()
    ensures |Texts(w, cids)| == |cids|
  {
    if cids != {} {
      var c :| c in cids;
      TextsCount(w, cids - {c});
      assert w.show(c) !in Texts(w, cids - {c}) by {
        if d :| d in cids - {c} && w.show(d) == w.show(c) {
          w.ShowInjective(c, d);
        }
      }
      assert Texts(w, cids) == Texts(w, cids - {c}) + {w.show(c)};
    }
  }

  lemma TextsDiffer(w: World, a: set<Cid>, b: set<Cid>)
    requires w.TextRoundTrips()
    ensures Texts(w, a) - Texts(w, b) == Texts(w, a - b)
  {
    forall c, d | c in a && d in b && w.show(c) == w.show(d)
      ensures c == d
    {
      w.ShowInjective(c, d);
    }
  }

  /** The identifier is yielded behind one on which the read fails. */
  ghost predicate Lost(w: World, blocks: Store, root: Cid, c: Cid) {
    Behind(Walk(w, blocks, root), w.readFails, c)
  }

  ghost predicate Keeps(w: World, blocks: Store, pins: PinTable, s: string, root: Cid, c: Cid)
    requires s in pins
  {
    && w.parseText(s) == Some(root)
    && if pins[s] == Recursive then Leads(w, blocks, root, c) && !Lost(w, blocks, root, c)
       else c == root
  }

  ghost predicate KeptBySome(w: World, blocks: Store, pins: PinTable, c: Cid) {
    exists s, root :: s in pins && Keeps(w, blocks, pins, s, root, c)
  }

  /**
   A direct pin keeps its root; a recursive one keeps everything its root leads to,
   except behind a read that fails.
   */
  lemma MarkedMeans(w: World, blocks: Store, pins: PinTable, c: Cid)
    ensures c in Marked(w, blocks, pins) <==> KeptBySome(w, blocks, pins, c)
  {
    forall s | s in pins && w.parseText(s).Some?
      ensures c in Held(w, blocks, s, pins[s]) <==> Keeps(w, blocks, pins, s, w.parseText(s).value, c)
    {
      var root := w.parseText(s).value;
      WalkCoversReachable(w, blocks, root);
      WalkLeads(w, blocks, root, c);
      UpToOrBehind(Walk(w, blocks, root), w.readFails, c);
      hide Walk, Reachable, Leads, Behind;
    }
    hide Keeps, Held;
    if exists s, root :: s in pins && Keeps(w, blocks, pins, s, root, c) {
      var s, root :| s in pins && Keeps(w, blocks, pins, s, root, c);
      assert w.parseText(s) == Some(root) by { KeepsRoot(w, blocks, pins, s, root, c); }
    } else if c in Marked(w, blocks, pins) {
      var s :| s in pins && c in Held(w, blocks, s, pins[s]);
      assert w.parseText(s).Some? by { HeldHasRoot(w, blocks, s, pins[s], c); }
    }
  }

  lemma KeepsRoot(w: World, blocks: Store, pins: PinTable, s: string, root: Cid, c: Cid)
    requires s in pins && Keeps(w, blocks, pins, s, root, c)
    ensures w.parseText(s) == Some(root)
  {
  }

  lemma HeldHasRoot(w: World, blocks: Store, s: string, t: PinType, c: Cid)
    requires c in Held(w, blocks, s, t)
    ensures w.parseText(s).Some?
  {
  }

  /** The root of some recursive pin leads to c, or c is the root of a direct one. */
  ghost predicate Pinned(w: World, blocks: Store, pins: PinTable, c: Cid) {
    exists s, root :: s in pins && w.parseText(s) == Some(root)
      && if pins[s] == Recursive then Leads(w, blocks, root, c) else c == root
  }

  /** Some recursive pin loses c behind a read that fails. */
  ghost predicate LostBySome(w: World, blocks: Store, pins: PinTable, c: Cid) {
    exists s :: s in pins && pins[s] == Recursive && w.parseText(s).Some? && Lost(w, blocks, w.parseText(s).value, c)
  }

  lemma KeptIsPinned(w: World, blocks: Store, pins: PinTable, c: Cid)
    requires c in Marked(w, blocks, pins)
    ensures Pinned(w, blocks, pins, c)
  {
    MarkedMeans(w, blocks, pins, c);
    hide Marked, Leads, Lost;
  }

  lemma PinnedIsKeptOrLost(w: World, blocks: Store, pins: PinTable, c: Cid)
    requires Pinned(w, blocks, pins, c)
    ensures c in Marked(w, blocks, pins) || LostBySome(w, blocks, pins, c)
  {
    MarkedMeans(w, blocks, pins, c);
    hide Marked, Leads, Lost;
    var s, root :| s in pins && w.parseText(s) == Some(root)
      && if pins[s] == Recursive then Leads(w, blocks, root, c) else c == root;
    assert Keeps(w, blocks, pins, s, root, c) || LostBySome(w, blocks, pins, c);
  }

  lemma LostIsPinned(w: World, blocks: Store, pins: PinTable, c: Cid)
    requires LostBySome(w, blocks, pins, c)
    ensures Pinned(w, blocks, pins, c)
  {
    hide Walk, Leads;
    var s :| s in pins && pins[s] == Recursive && w.parseText(s).Some? && Lost(w, blocks, w.parseText(s).value, c);
    WalkLeads(w, blocks, w.parseText(s).value, c);
    assert c in Walk(w, blocks, w.parseText(s).value);
  }

  /**
   A collection keeps exactly the pinned blocks if and only if every block that some pin
   loses behind a failing read is kept by another.
   */
  lemma PinnedSurvivesExactly(w: World, blocks: Store, pins: PinTable)
    ensures
      (forall c :: c in blocks ==> (c in Collect(w, blocks, pins) <==> Pinned(w, blocks, pins, c)))
      <==> forall c :: c in blocks && LostBySome(w, blocks, pins, c) ==> KeptBySome(w, blocks, pins, c)
  {
    forall c
      ensures Pinned(w, blocks, pins, c) ==> c in Marked(w, blocks, pins) || LostBySome(w, blocks, pins, c)
      ensures LostBySome(w, blocks, pins, c) ==> Pinned(w, blocks, pins, c)
      ensures c in Marked(w, blocks, pins) ==> Pinned(w, blocks, pins, c)
      ensures c in Marked(w, blocks, pins) <==> KeptBySome(w, blocks, pins, c)
    {
      MarkedMeans(w, blocks, pins, c);
      if c in Marked(w, blocks, pins) {
        KeptIsPinned(w, blocks, pins, c);
      }
      if Pinned(w, blocks, pins, c) {
        PinnedIsKeptOrLost(w, blocks, pins, c);
      }
      if LostBySome(w, blocks, pins, c) {
        LostIsPinned(w, blocks, pins, c);
      }
    }
    hide Pinned, LostBySome, KeptBySome, Marked;
  }

  /** When no read of a pinned block fails, a collection keeps exactly the pinned blocks. */
  lemma SoundReadsKeepPinned(w: World, blocks: Store, pins: PinTable)
    requires forall c :: Pinned(w, blocks, pins, c) ==> !w.readFails(c)
    ensures forall c :: c in blocks ==> (c in Collect(w, blocks, pins) <==> Pinned(w, blocks, pins, c))
  {
    forall c
      ensures !LostBySome(w, blocks, pins, c)
    {
      if LostBySome(w, blocks, pins, c) {
        var _ := LossHasCause(w, blocks, pins, c);
      }
    }
    PinnedSurvivesExactly(w, blocks, pins);
  }

  lemma LossHasCause(w: World, blocks: Store, pins: PinTable, c: Cid) returns (d: Cid)
    requires LostBySome(w, blocks, pins, c)
    ensures Pinned(w, blocks, pins, d) && w.readFails(d)
  {
    hide Walk, Leads;
    var s :| s in pins && pins[s] == Recursive && w.parseText(s).Some? && Lost(w, blocks, w.parseText(s).value, c);
    var root := w.parseText(s).value;
    var walk := Walk(w, blocks, root);
    var i, j :| 0 <= i < j < |walk| && w.readFails(walk[i]) && walk[j] == c;
    d := walk[i];
    WalkLeads(w, blocks, root, d);
    assert d in walk;
  }

  /** A pinned root whose read fails costs a child that nothing else pins. */
  lemma FailedReadLosesChild(w: World, blocks: Store, text: string, root: Cid, child: Cid)
    requires w.parseText(text) == Some(root) && w.readFails(root)
    requires child in blocks && child != root && LinksTo(w, blocks, root, child)
    ensures
      var pins := map[text := Recursive];
      Pinned(w, blocks, pins, child) && child !in Collect(w, blocks, pins)
  {
    var pins := map[text := Recursive];
    var g := LinkGraph(w, blocks);
    assert LeadsIn(w, blocks, root, root, 0);
    assert LeadsIn(w, blocks, root, child, 1);
    assert text in pins && pins[text] == Recursive;
    assert Pinned(w, blocks, pins, child);
    hide LinksTo;
    BfsTake(g, root, [], {});
    assert [root] + [] == [root];
    UpToStop(Walk(w, blocks, root), w.readFails, [root]);
    assert child !in Held(w, blocks, text, Recursive);
  }

  // ---------------------------------------------------------------------
  // Collecting
  // ---------------------------------------------------------------------

  /** Removing what no pin keeps changes no pinned walk. */
  lemma HeldUnchanged(w: World, blocks: Store, pins: PinTable, s: string)
    requires s in pins
    ensures Held(w, Collect(w, blocks, pins), s, pins[s]) == Held(w, blocks, s, pins[s])
  {
    var kept := Collect(w, blocks, pins);
    if w.parseText(s).Some? && pins[s] == Recursive {
      var root := w.parseText(s).value;
      var g, h := LinkGraph(w, blocks), LinkGraph(w, kept);
      forall c | c in UpTo(Walk(w, blocks, root), w.readFails)
        ensures Succ(g, c) == Succ(h, c)
      {
        assert c in Held(w, blocks, s, pins[s]);
        assert c in Marked(w, blocks, pins);
      }
      UpToAgrees(g, h, root, w.readFails);
    }
  }

  lemma MarkedUnchanged(w: World, blocks: Store, pins: PinTable)
    ensures Marked(w, Collect(w, blocks, pins), pins) == Marked(w, blocks, pins)
  {
    forall s | s in pins
      ensures Held(w, Collect(w, blocks, pins), s, pins[s]) == Held(w, blocks, s, pins[s])
    {
      HeldUnchanged(w, blocks, pins, s);
    }
  }

  lemma SecondGcReclaimsNothing(w: World, blocks: Store, pins: PinTable)
    ensures
      var once := Collect(w, blocks, pins);
      Collect(w, once, pins) == once
  {
    MarkedUnchanged(w, blocks, pins);
  }

  /** The reported retained count is the number of blocks kept exactly when nothing pinned is missing. */
  lemma RetainedCount(w: World, blocks: Store, pins: PinTable)
    ensures
      var marked, kept := Marked(w, blocks, pins), Collect(w, blocks, pins);
      |kept| <= |marked| && (|kept| == |marked| <==> marked <= blocks.Keys)
  {
    var marked, kept := Marked(w, blocks, pins), Collect(w, blocks, pins);
    assert kept.Keys == blocks.Keys * marked;
    hide *;
    SubsetCount(kept.Keys, marked);
    assert |kept| == |kept.Keys|;
    assert kept.Keys == marked <==> marked <= blocks.Keys;
  }

  /** Adding a pin never makes the collector keep less. */
  lemma AddNeverShrinks(w: World, blocks: Store, pins: PinTable, s: string, t: PinType)
    ensures Marked(w, blocks, pins) <= Marked(w, blocks, Apply(w, pins, Add(s, t)))
  {
    var after := Apply(w, pins, Add(s, t));
    forall c, p | p in pins && c in Held(w, blocks, p, pins[p])
      ensures c in Marked(w, blocks, after)
    {
      if p == s && pins[p] != Recursive && after[p] == Recursive {
        RootIsWalked(w, blocks, w.parseText(s).value);
      }
      assert c in Held(w, blocks, p, after[p]);
    }
  }

  lemma RootIsWalked(w: World, blocks: Store, root: Cid)
    ensures root in Visits(w, blocks, root, true, w.readFails)
  {
    var g := LinkGraph(w, blocks);
    BfsTake(g, root, [], {});
    assert [root] + [] == [root];
    assert Visits(w, blocks, root, true, w.readFails)[0] == root;
  }

  lemma {:induction false} AddsNeverShrink(w: World, blocks: Store, pins: PinTable, ops: seq<Op>)
    requires forall op :: op in ops ==> op.Add?
    ensures Marked(w, blocks, pins) <= Marked(w, blocks, Run(w, pins, ops))
    decreases |ops|
  {
    if ops != [] {
      assert ops[0] in ops;
      AddNeverShrinks(w, blocks, pins, ops[0].cid, ops[0].pinType);
      AddsNeverShrink(w, blocks, Apply(w, pins, ops[0]), ops[1..]);
    }
  }

  /** What one collection leaves, block by block. */
  lemma CollectMeans(w: World, blocks: Store, pins: PinTable)
    ensures
      var after := Collect(w, blocks, pins);
      && (forall c :: c in after <==> c in blocks && KeptBySome(w, blocks, pins, c))
      && forall c :: c in after ==> after[c] == blocks[c]
  {
    hide Marked, KeptBySome;
    forall c
      ensures c in Marked(w, blocks, pins) <==> KeptBySome(w, blocks, pins, c)
    {
      MarkedMeans(w, blocks, pins, c);
    }
  }

  // ---------------------------------------------------------------------
  // Listing
  // ---------------------------------------------------------------------

  /** A pin text is canonical when it is the display form of an identifier. */
  predicate Canonical(w: World, s: string) {
    match w.parseText(s)
    case None => false
    case Some(c) => w.show(c) == s
  }

  /** What one recursive pin adds to the listing. */
  ghost function IndirectOf(w: World, blocks: Store, pins: PinTable, s: string): set<string>
    requires s in pins
  {
    match w.parseText(s)
    case None => {}
    case Some(root) =>
      if pins[s] != Recursive then {}
      else set c | c in Visits(w, blocks, root, true, w.readFails) && c != root && w.show(c) !in pins :: w.show(c)
  }

  ghost function IndirectOver(w: World, blocks: Store, pins: PinTable, some: set<string>): set<string>
    requires some <= pins.Keys
  {
    set s, t | s in some && t in IndirectOf(w, blocks, pins, s) :: t
  }

  ghost function IndirectTexts(w: World, blocks: Store, pins: PinTable): set<string> {
    IndirectOver(w, blocks, pins, pins.Keys)
  }

  function Tagged(texts: set<string>): (m: PinTable)
    ensures m.Keys == texts
  {
    map t | t in texts :: Indirect
  }

  function OfType(pins: PinTable, t: PinType): PinTable {
    map s | s in pins && pins[s] == t :: t
  }

  ghost function Listing(w: World, blocks: Store, pins: PinTable): PinTable {
    pins + Tagged(IndirectTexts(w, blocks, pins))
  }

  /** t names what some recursive pin keeps beyond its own root, and is no stored pin. */
  ghost predicate IsIndirect(w: World, blocks: Store, pins: PinTable, t: string) {
    && t !in pins
    && exists s, root, c :: s in pins && pins[s] == Recursive && Keeps(w, blocks, pins, s, root, c)
                            && c != root && w.show(c) == t
  }

  lemma OneIndirect(w: World, blocks: Store, pins: PinTable, s: string, t: string)
    requires s in pins
    ensures t in IndirectOf(w, blocks, pins, s) <==>
      t !in pins && pins[s] == Recursive
      && exists root, c :: Keeps(w, blocks, pins, s, root, c) && c != root && w.show(c) == t
  {
    if w.parseText(s).Some? && pins[s] == Recursive {
      var root := w.parseText(s).value;
      forall c
        ensures c in Visits(w, blocks, root, true, w.readFails) <==> Keeps(w, blocks, pins, s, root, c)
      {
        WalkCoversReachable(w, blocks, root);
        WalkLeads(w, blocks, root, c);
        UpToOrBehind(Walk(w, blocks, root), w.readFails, c);
        hide Walk, Reachable, Leads, Behind;
      }
      hide Visits, Leads, Lost;
      assert forall r, c :: Keeps(w, blocks, pins, s, r, c) ==> r == root;
    }
  }

  lemma IndirectExactly(w: World, blocks: Store, pins: PinTable, t: string)
    ensures t in IndirectTexts(w, blocks, pins) <==> IsIndirect(w, blocks, pins, t)
  {
    hide Keeps;
    forall s | s in pins
      ensures t in IndirectOf(w, blocks, pins, s) <==>
        t !in pins && pins[s] == Recursive
        && exists root, c :: Keeps(w, blocks, pins, s, root, c) && c != root && w.show(c) == t
    {
      OneIndirect(w, blocks, pins, s, t);
    }
    hide IndirectOf;
  }

  lemma IndirectAreMarked(w: World, blocks: Store, pins: PinTable)
    ensures IndirectTexts(w, blocks, pins) <= Texts(w, Marked(w, blocks, pins))
    ensures IndirectTexts(w, blocks, pins) !! pins.Keys
  {
    forall s, t | s in pins && t in IndirectOf(w, blocks, pins, s)
      ensures t in Texts(w, Marked(w, blocks, pins))
    {
      var c :| c in Held(w, blocks, s, pins[s]) && w.show(c) == t;
      assert c in Marked(w, blocks, pins);
    }
  }

  lemma MarkedAreListed(w: World, blocks: Store, pins: PinTable, s: string, c: Cid)
    requires s in pins && Canonical(w, s) && c in Held(w, blocks, s, pins[s])
    ensures w.show(c) in Listing(w, blocks, pins)
  {
    var root := w.parseText(s).value;
    if c != root && w.show(c) !in pins {
      assert w.show(c) in IndirectOf(w, blocks, pins, s);
    }
  }

  lemma PinIsMarked(w: World, blocks: Store, pins: PinTable, s: string)
    requires s in pins && Canonical(w, s)
    ensures s in Texts(w, Marked(w, blocks, pins))
  {
    var root := w.parseText(s).value;
    RootIsWalked(w, blocks, root);
    assert root in Held(w, blocks, s, pins[s]);
    assert root in Marked(w, blocks, pins);
  }

  lemma CanonicalPinsAgree(w: World, blocks: Store, pins: PinTable)
    requires forall s :: s in pins ==> Canonical(w, s)
    ensures Listing(w, blocks, pins).Keys == Texts(w, Marked(w, blocks, pins))
  {
    IndirectAreMarked(w, blocks, pins);
    forall s | s in pins
      ensures s in Texts(w, Marked(w, blocks, pins))
    {
      PinIsMarked(w, blocks, pins, s);
    }
    forall s, c | s in pins && c in Held(w, blocks, s, pins[s])
      ensures w.show(c) in Listing(w, blocks, pins)
    {
      MarkedAreListed(w, blocks, pins, s, c);
    }
    hide Held, Canonical, IndirectTexts;
  }

  /** The full listing names exactly what the collector marks, if and only if every stored pin text is canonical. */
  lemma ListingAgreesWithCollector(w: World, blocks: Store, pins: PinTable)
    requires w.TextRoundTrips()
    ensures
      Listing(w, blocks, pins).Keys == Texts(w, Marked(w, blocks, pins))
      <==> forall s :: s in pins ==> Canonical(w, s)
  {
    hide Marked, IndirectTexts;
    if forall s :: s in pins ==> Canonical(w, s) {
      CanonicalPinsAgree(w, blocks, pins);
    } else {
      var s :| s in pins && !Canonical(w, s);
      assert s in Listing(w, blocks, pins);
      forall c | c in Marked(w, blocks, pins)
        ensures w.show(c) != s
      {
        assert w.parseText(w.show(c)) == Some(c);
      }
      assert s !in Texts(w, Marked(w, blocks, pins));
    }
  }

  datatype Filter = All | OnlyDirect | OnlyRecursive | OnlyIndirect | UnknownFilter

  /** Which pin types a filter lets through; stored pins are direct or recursive. */
  predicate Shows(filter: Filter, t: PinType) {
    match filter
    case All => true
    case OnlyDirect => t == Direct
    case OnlyRecursive => t == Recursive
    case OnlyIndirect => t == Indirect
    case UnknownFilter => false
  }

  class Peer {
    var blocks: Store
    const pinStore: PinStore

    constructor (pinStore: PinStore)
      ensures blocks == map[] && this.pinStore == pinStore
    {
      blocks := map[];
      this.pinStore := pinStore;
    }

    /** The marking loops of gc. */
    method Mark(w: World) returns (reachable: set<string>)
      ensures reachable == Texts(w, Marked(w, blocks, pinStore.pins))
    {
      hide Visits;
      var pins := pinStore.GetPins();
      var todo := pins.Keys;
      ghost var done: set<string> := {};
      reachable := {};
      while todo != {}
        invariant done + todo == pins.Keys
        invariant reachable == set s, c | s in done && c in Held(w, blocks, s, pins[s]) :: w.show(c)
        decreases todo
      {
        var s :| s in todo;
        match w.parseText(s) {
          case None =>
          case Some(root) =>
            var out, _ := WalkDag(w, blocks, root, pins[s] == Recursive, false, w.readFails);
            reachable := reachable + set c | c in out :: w.show(c);
        }
        todo := todo - {s};
        done := done + {s};
      }
    }

    /** The deleting loop of gc. */
    method DeleteAll(w: World, texts: set<string>, ghost garbage: set<Cid>) returns (deleted: nat)
      requires w.TextRoundTrips()
      requires texts == Texts(w, garbage)
      modifies this`blocks
      ensures blocks == old(blocks) - garbage
      ensures deleted == |garbage|
    {
      deleted := 0;
      ghost var left := garbage;
      var todo := texts;
      while todo != {}
        invariant todo == Texts(w, left) && left <= garbage
        invariant blocks == old(blocks) - (garbage - left)
        invariant deleted + |left| == |garbage|
        decreases left
      {
        var text :| text in todo;
        ghost var c :| c in left && w.show(c) == text;
        assert w.parseText(text) == Some(c);
        TextsDiffer(w, left, {c});
        assert Texts(w, {c}) == {text};
        blocks := blocks - {w.parseText(text).value};
        assert garbage - (left - {c}) == (garbage - left) + {c};
        deleted := deleted + 1;
        todo := todo - {text};
        left := left - {c};
      }
      assert forall c :: c in left ==> w.show(c) in todo;
      assert garbage - left == garbage;
    }

    /** gc */
    method Gc(w: World) returns (r: GCResult)
      requires w.TextRoundTrips()
      modifies this`blocks
      ensures blocks == Collect(w, old(blocks), pinStore.pins)
      ensures r.reclaimedBlocks == |old(blocks)| - |blocks|
      ensures r.retainedBlocks == |Marked(w, old(blocks), pinStore.pins)|
      ensures forall c :: c in blocks <==> c in old(blocks) && KeptBySome(w, old(blocks), pinStore.pins, c)
      ensures forall c :: c in blocks ==> blocks[c] == old(blocks)[c]
    {
      hide *;
      CollectMeans(w, blocks, pinStore.pins);
      ghost var marked := Marked(w, blocks, pinStore.pins);
      var allCids := set c | c in blocks :: w.show(c);
      AllTexts(w, blocks);
      var reachable := Mark(w);
      TextsDiffer(w, blocks.Keys, marked);
      TextsCount(w, marked);
      var deleted := DeleteAll(w, allCids - reachable, blocks.Keys - marked);
      CollectIsRemaining(w, old(blocks), pinStore.pins);
      Remaining(old(blocks), marked);
      r := GCResult(deleted, |reachable|);
    }

    /** list_pins; None is the ValueError for an unknown filter. */
    method ListPins(w: World, filter: Filter) returns (r: Option<PinTable>)
      ensures r == match filter
        case UnknownFilter => None
        case OnlyDirect => Some(OfType(pinStore.pins, Direct))
        case OnlyRecursive => Some(OfType(pinStore.pins, Recursive))
        case OnlyIndirect => Some(Tagged(IndirectTexts(w, blocks, pinStore.pins)))
        case All => Some(Listing(w, blocks, pinStore.pins))
      ensures r == None <==> filter == UnknownFilter
      ensures r.Some? ==> forall s, t :: s in r.value && r.value[s] == t <==>
        || (filter != OnlyIndirect && s in pinStore.pins && pinStore.pins[s] == t && Shows(filter, t))
        || (t == Indirect && Shows(filter, t) && IsIndirect(w, blocks, pinStore.pins, s))
    {
      forall t
        ensures t in IndirectTexts(w, blocks, pinStore.pins) <==> IsIndirect(w, blocks, pinStore.pins, t)
      {
        IndirectExactly(w, blocks, pinStore.pins, t);
      }
      hide IsIndirect, IndirectTexts;
      if filter == UnknownFilter {
        return None;
      }
      var stored := pinStore.GetPins();
      if filter == OnlyDirect {
        return Some(OfType(stored, Direct));
      }
      if filter == OnlyRecursive {
        return Some(OfType(stored, Recursive));
      }
      var indirect := IndirectLoop(w, stored);
      r := Some(Tagged(indirect));
      if filter == All {
        r := Some(stored + Tagged(indirect));
      }
    }

    /** The loop of list_pins over the recursive pins; the dictionary it fills maps every key to "indirect". */
    method IndirectLoop(w: World, stored: PinTable) returns (indirect: set<string>)
      ensures indirect == IndirectTexts(w, blocks, stored)
    {
      indirect := {};
      var todo := stored.Keys;
      ghost var done: set<string> := {};
      while todo != {}
        invariant done + todo == stored.Keys && done <= stored.Keys
        invariant indirect == IndirectOver(w, blocks, stored, done)
        decreases todo
      {
        var s :| s in todo;
        var found: set<string> := {};
        if stored[s] == Recursive {
          match w.parseText(s) {
            case None =>
            case Some(root) =>
              var out, _ := WalkDag(w, blocks, root, true, false, w.readFails);
              found := set c | c in out && c != root && w.show(c) !in stored :: w.show(c);
          }
        }
        assert found == IndirectOf(w, blocks, stored, s);
        indirect := indirect + found;
        todo := todo - {s};
        assert IndirectOver(w, blocks, stored, done + {s}) == IndirectOver(w, blocks, stored, done) + found;
        done := done + {s};
      }
      assert done == stored.Keys;
    }
  }
}
