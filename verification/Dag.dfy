/** Breadth-first walks over the blocks of a store (dag_utils.py). */
module Dag {
  import opened Bytes
  import opened Cids
  import opened Ipld
  import opened Graphs

  type Store = map<Cid, Bytes>

  /** The links a walk follows: none out of an absent block or one that does not decode. */
  ghost function LinkGraph(w: World, store: Store): Graph<Cid> {
    map c | c in store :: LenientLinks(w, c, store[c])
  }

  lemma SuccOfPresent(w: World, store: Store, c: Cid)
    requires c in store
    ensures Succ(LinkGraph(w, store), c) == LenientLinks(w, c, store[c])
  {
  }

  // ---------------------------------------------------------------------
  // Which block links to which
  // ---------------------------------------------------------------------

  /** The decoded node of a block whose codec keeps links inside nested values. */
  ghost predicate HoldsNode(w: World, c: Cid, data: Bytes, node: Value) {
    || (w.codecOf(c) == DagJson && w.loadJson(data) == Some(node))
    || (w.codecOf(c) == DagCbor && w.loadCbor(data) == Some(node))
  }

  /**
   The block of c is there and links to d: as a dag-pb link, or from somewhere inside its
   dag-json or dag-cbor node. Nothing else links, dag-jose and ipld blocks included, which
   no decoder takes.
   */
  ghost predicate LinksTo(w: World, store: Store, c: Cid, d: Cid) {
    && c in store
    && ((w.codecOf(c) == DagPb && w.decodePb(store[c]).Some? && Some(d) in w.decodePb(store[c]).value)
        || exists node :: HoldsNode(w, c, store[c], node) && Nested(w, node, d))
  }

  /** The block is there, decodes, and has nothing meant as a link that is none. */
  ghost predicate IsWhole(w: World, store: Store, c: Cid) {
    && c in store
    && match w.codecOf(c)
       case Raw => true
       case OtherCodec => true
       case DagPb => w.decodePb(store[c]).Some?
       case _ => exists node :: HoldsNode(w, c, store[c], node) && !HasBadLink(w, node)
  }

  /** d is at most n links away from the root. */
  ghost predicate LeadsIn(w: World, store: Store, root: Cid, d: Cid, n: nat)
    decreases n
  {
    if n == 0 then d == root
    else
      || LeadsIn(w, store, root, d, n - 1)
      || exists c :: LeadsIn(w, store, root, c, n - 1) && LinksTo(w, store, c, d)
  }

  ghost predicate Leads(w: World, store: Store, root: Cid, d: Cid) {
    exists n: nat :: LeadsIn(w, store, root, d, n)
  }

  /** No identifier comes before one that fewer links lead to. */
  ghost predicate ClosestFirst(w: World, store: Store, root: Cid, out: seq<Cid>) {
    forall i, j, n: nat :: 0 <= i < j < |out| && LeadsIn(w, store, root, out[j], n) ==>
      LeadsIn(w, store, root, out[i], n)
  }

  lemma NodeLinks(w: World, store: Store, c: Cid, d: Cid, node: Option<Value>)
    requires c in store && forall x :: HoldsNode(w, c, store[c], x) <==> node == Some(x)
    ensures (exists x :: HoldsNode(w, c, store[c], x) && Nested(w, x, d)) <==> node.Some? && d in Links(w, node.value)
    ensures (exists x :: HoldsNode(w, c, store[c], x) && !HasBadLink(w, x)) <==> node.Some? && AllParse(w, node.value)
  {
    hide Links, Nested, AllParse, HasBadLink, HoldsNode;
    if node.Some? {
      LinksAreExactlyTheNestedOnes(w, node.value, d);
      BadLinksAreMinded(w, node.value);
      assert HoldsNode(w, c, store[c], node.value);
    }
  }

  /** The links followed out of a block are exactly those it has. */
  lemma FollowedLinks(w: World, store: Store, c: Cid, d: Cid)
    ensures d in Succ(LinkGraph(w, store), c) <==> LinksTo(w, store, c, d)
  {
    hide Links, Nested, PresentCids;
    if c in store {
      match w.codecOf(c) {
        case DagPb =>
          if w.decodePb(store[c]).Some? {
            PresentCidsExactly(w.decodePb(store[c]).value, d);
          }
        case DagJson => NodeLinks(w, store, c, d, w.loadJson(store[c]));
        case DagCbor => NodeLinks(w, store, c, d, w.loadCbor(store[c]));
        case _ =>
      }
    }
  }

  /** Strict mode minds exactly the blocks that are not whole. */
  lemma IntactIsWhole(w: World, store: Store, c: Cid)
    ensures Intact(w, store, c) <==> IsWhole(w, store, c)
  {
    hide AllParse, HasBadLink;
    if c in store {
      match w.codecOf(c) {
        case DagJson => NodeLinks(w, store, c, c, w.loadJson(store[c]));
        case DagCbor => NodeLinks(w, store, c, c, w.loadCbor(store[c]));
        case _ =>
      }
    }
  }

  lemma WithinStep(g: Graph<Cid>, root: Cid, d: Cid, n: nat)
    requires n > 0
    ensures d in Within(g, root, n) <==>
      d in Within(g, root, n - 1) || exists c :: c in Within(g, root, n - 1) && d in Succ(g, c)
  {
  }

  lemma LeadsStep(w: World, store: Store, root: Cid, d: Cid, n: nat)
    requires n > 0
    ensures LeadsIn(w, store, root, d, n) <==>
      || LeadsIn(w, store, root, d, n - 1)
      || exists c :: LeadsIn(w, store, root, c, n - 1) && LinksTo(w, store, c, d)
  {
    hide LinksTo;
  }

  lemma LeadsNowhere(w: World, store: Store, root: Cid, d: Cid)
    ensures d in Within(LinkGraph(w, store), root, 0) <==> LeadsIn(w, store, root, d, 0)
  {
  }

  lemma {:induction false} LeadsInIsWithin(w: World, store: Store, root: Cid, d: Cid, n: nat)
    ensures d in Within(LinkGraph(w, store), root, n) <==> LeadsIn(w, store, root, d, n)
    decreases n
  {
    hide *;
    if n == 0 {
      LeadsNowhere(w, store, root, d);
    } else {
      var g := LinkGraph(w, store);
      WithinStep(g, root, d, n);
      LeadsStep(w, store, root, d, n);
      LeadsInIsWithin(w, store, root, d, n - 1);
      forall c
        ensures c in Within(g, root, n - 1) <==> LeadsIn(w, store, root, c, n - 1)
        ensures d in Succ(g, c) <==> LinksTo(w, store, c, d)
      {
        LeadsInIsWithin(w, store, root, c, n - 1);
        FollowedLinks(w, store, c, d);
      }
    }
  }

  lemma LeadsIsReachable(w: World, store: Store, root: Cid, d: Cid)
    ensures Reachable(LinkGraph(w, store), root, d) <==> Leads(w, store, root, d)
  {
    hide Within, LeadsIn;
    forall n: nat
      ensures d in Within(LinkGraph(w, store), root, n) <==> LeadsIn(w, store, root, d, n)
    {
      LeadsInIsWithin(w, store, root, d, n);
    }
  }

  /** What a lenient recursive walk from the root yields. */
  ghost function Walk(w: World, store: Store, root: Cid): seq<Cid> {
    WalkFrom(LinkGraph(w, store), root)
  }

  lemma WalkStartsAt(w: World, store: Store, root: Cid)
    ensures Walking(LinkGraph(w, store), Walk(w, store, root), [], [root], {})
  {
    WalkStarts(LinkGraph(w, store), root);
  }

  /** What a lenient walk yields: only the root when it is not recursive, and nothing behind a read that fails. */
  ghost function Visits(w: World, store: Store, root: Cid, recursive: bool, fails: Cid -> bool): seq<Cid> {
    if recursive then UpTo(Walk(w, store, root), fails) else [root]
  }

  predicate Never(c: Cid) {
    false
  }

  lemma NoLinksNoWalk(root: Cid)
    ensures WalkFrom(map[], root) == [root]
  {
    BfsTake(map[], root, [], {});
    assert [root] + [] == [root];
  }

  /** The block is there, decodes, and all its links parse. */
  predicate Intact(w: World, store: Store, c: Cid) {
    c in store && Sound(w, c, store[c])
  }

  /** The links of one block, seen as a store of its own. */
  lemma BlockLinks(w: World, c: Cid, data: Bytes)
    ensures forall d :: d in LenientLinks(w, c, data) <==> LinksTo(w, map[c := data], c, d)
    ensures Sound(w, c, data) <==> IsWhole(w, map[c := data], c)
  {
    var store: Store := map[c := data];
    SuccOfPresent(w, store, c);
    IntactIsWhole(w, store, c);
    hide LinksTo, IsWhole, LenientLinks, Sound;
    forall d
      ensures d in LenientLinks(w, c, data) <==> LinksTo(w, store, c, d)
    {
      FollowedLinks(w, store, c, d);
    }
  }

  /** The links of one block; None when strict mode lets an exception out. */
  method FollowLinks(w: World, c: Cid, data: Bytes, strict: bool) returns (r: Option<seq<Cid>>)
    ensures r == if strict && !Sound(w, c, data) then None else Some(LenientLinks(w, c, data))
    ensures r == None <==> strict && !IsWhole(w, map[c := data], c)
    ensures r.Some? ==> forall d :: d in r.value <==> LinksTo(w, map[c := data], c, d)
    ensures r.Some? && w.codecOf(c) == DagPb && w.decodePb(data).Some? ==>
      r.value == PresentCids(w.decodePb(data).value)
    ensures r.Some? ==> forall node :: HoldsNode(w, c, data, node) ==> r.value == Links(w, node)
  {
    BlockLinks(w, c, data);
    hide LinksTo, IsWhole, Links, AllParse;
    match w.codecOf(c) {
      case DagPb =>
        match w.decodePb(data) {
          case None => r := if strict then None else Some([]);
          case Some(nodeLinks) =>
            var found: seq<Cid> := [];
            var i := 0;
            assert nodeLinks[0..] == nodeLinks;
            while i < |nodeLinks|
              invariant i <= |nodeLinks|
              invariant found + PresentCids(nodeLinks[i..]) == PresentCids(nodeLinks)
            {
              if nodeLinks[i].Some? {
                found := found + [nodeLinks[i].value];
              }
              i := i + 1;
            }
            assert found == PresentCids(nodeLinks);
            r := Some(found);
        }
      case Raw => r := Some([]);
      case OtherCodec => r := Some([]);
      case codec =>
        match DecodeNode(w, codec, data) {
          case None => r := if strict then None else Some([]);
          case Some(node) => r := ExtractCids(w, node, strict);
        }
    }
  }

  /** One get_block and what follows it: the links to queue, or None when strict mode raises. */
  method Expand(w: World, store: Store, c: Cid, strict: bool) returns (r: Option<seq<Cid>>)
    ensures r == if strict && !Intact(w, store, c) then None else Some(Succ(LinkGraph(w, store), c))
    ensures r == None <==> strict && !IsWhole(w, store, c)
    ensures r.Some? ==> forall d :: d in r.value <==> LinksTo(w, store, c, d)
  {
    IntactIsWhole(w, store, c);
    forall d
      ensures d in Succ(LinkGraph(w, store), c) <==> LinksTo(w, store, c, d)
    {
      FollowedLinks(w, store, c, d);
    }
    hide IsWhole, LinksTo;
    if c in store {
      r := FollowLinks(w, c, store[c], strict);
    } else {
      r := if strict then None else Some([]);
    }
  }

  ghost predicate AllIntact(w: World, store: Store, cs: seq<Cid>) {
    forall c :: c in cs ==> Intact(w, store, c)
  }

  /** A walk raises here: the read fails, or strict mode minds the block. */
  predicate Raises(w: World, store: Store, strict: bool, fails: Cid -> bool, c: Cid) {
    fails(c) || (strict && !Intact(w, store, c))
  }

  ghost predicate NoneRaises(w: World, store: Store, strict: bool, fails: Cid -> bool, cs: seq<Cid>) {
    forall c :: c in cs ==> !Raises(w, store, strict, fails, c)
  }

  /** The walk all was cut short right after yielding its first member at which it raises. */
  ghost predicate StopsAtFault(
    w: World, store: Store, strict: bool, fails: Cid -> bool, all: seq<Cid>, out: seq<Cid>)
  {
    && out != []
    && out <= all
    && NoneRaises(w, store, strict, fails, out[..|out| - 1])
    && Raises(w, store, strict, fails, out[|out| - 1])
  }

  lemma FaultSpoilsWalk(
    w: World, store: Store, strict: bool, fails: Cid -> bool, all: seq<Cid>, out: seq<Cid>)
    requires StopsAtFault(w, store, strict, fails, all, out)
    ensures !NoneRaises(w, store, strict, fails, all)
  {
    assert out[|out| - 1] == all[|out| - 1];
  }

  /** A lenient walk that raises has yielded what it could. */
  lemma LenientFault(w: World, store: Store, fails: Cid -> bool, all: seq<Cid>, out: seq<Cid>)
    requires StopsAtFault(w, store, false, fails, all, out)
    ensures out == UpTo(all, fails)
  {
    forall c | c in out[..|out| - 1]
      ensures !fails(c)
    {
      assert !Raises(w, store, false, fails, c);
    }
    UpToStop(all, fails, out);
  }

  lemma NoFaultNoStop(w: World, store: Store, strict: bool, fails: Cid -> bool, all: seq<Cid>)
    requires NoneRaises(w, store, strict, fails, all)
    ensures UpTo(all, fails) == all
  {
    forall c | c in all
      ensures !fails(c)
    {
      assert !Raises(w, store, strict, fails, c);
    }
    UpToAll(all, fails);
  }

  lemma WalkLeads(w: World, store: Store, root: Cid, c: Cid)
    ensures c in Walk(w, store, root) <==> Leads(w, store, root, c)
  {
    WalkCoversReachable(w, store, root);
    LeadsIsReachable(w, store, root, c);
  }

  /** A walk raises at a block whose read fails and, in strict mode, at one that is not whole. */
  ghost predicate AtFault(w: World, store: Store, strict: bool, fails: Cid -> bool, c: Cid) {
    fails(c) || (strict && !IsWhole(w, store, c))
  }

  /**
   What a recursive walk yields, in terms of which block links to which: everything the root
   leads to, each once and the closest first. It raises exactly when it comes to a block at
   fault, and yields nothing behind the first of them.
   */
  ghost predicate FollowsLinks(
    w: World, store: Store, root: Cid, strict: bool, fails: Cid -> bool, out: seq<Cid>, ok: bool)
  {
    && NoDup(out) && ClosestFirst(w, store, root, out)
    && (forall d :: d in out ==> Leads(w, store, root, d))
    && (ok ==> forall d :: Leads(w, store, root, d) ==> d in out && !AtFault(w, store, strict, fails, d))
    && (!ok ==> out != [] && AtFault(w, store, strict, fails, out[|out| - 1]))
    && forall i :: 0 <= i < |out| - 1 ==> !AtFault(w, store, strict, fails, out[i])
  }

  lemma RaisesAtFault(w: World, store: Store, strict: bool, fails: Cid -> bool, c: Cid)
    ensures Raises(w, store, strict, fails, c) <==> AtFault(w, store, strict, fails, c)
  {
    hide Intact, IsWhole;
    IntactIsWhole(w, store, c);
  }

  /** The order and the members of a walk do not suffer from breaking it off. */
  lemma PrefixFollowsLinks(w: World, store: Store, root: Cid, out: seq<Cid>)
    requires out <= Walk(w, store, root)
    ensures NoDup(out) && ClosestFirst(w, store, root, out)
    ensures forall d :: d in out ==> Leads(w, store, root, d)
  {
    var walk := Walk(w, store, root);
    WalkCoversReachable(w, store, root);
    hide Walk, Reachable, Leads, LeadsIn, Within;
    forall d
      ensures Reachable(LinkGraph(w, store), root, d) <==> Leads(w, store, root, d)
    {
      LeadsIsReachable(w, store, root, d);
    }
    assert forall i :: 0 <= i < |out| ==> out[i] == walk[i];
    forall i, j, n: nat | 0 <= i < j < |out| && LeadsIn(w, store, root, out[j], n)
      ensures LeadsIn(w, store, root, out[i], n)
    {
      LeadsInIsWithin(w, store, root, out[j], n);
      LeadsInIsWithin(w, store, root, out[i], n);
      assert walk[j] in Within(LinkGraph(w, store), root, n);
    }
  }

  lemma WholeWalkFollowsLinks(w: World, store: Store, root: Cid, strict: bool, fails: Cid -> bool)
    requires NoneRaises(w, store, strict, fails, Walk(w, store, root))
    ensures FollowsLinks(w, store, root, strict, fails, Walk(w, store, root), true)
  {
    var walk := Walk(w, store, root);
    PrefixFollowsLinks(w, store, root, walk);
    WalkCoversReachable(w, store, root);
    hide Walk, Reachable, Leads, Raises, AtFault, ClosestFirst;
    forall d
      ensures Reachable(LinkGraph(w, store), root, d) <==> Leads(w, store, root, d)
      ensures Raises(w, store, strict, fails, d) <==> AtFault(w, store, strict, fails, d)
    {
      LeadsIsReachable(w, store, root, d);
      RaisesAtFault(w, store, strict, fails, d);
    }
  }

  lemma BrokenWalkFollowsLinks(
    w: World, store: Store, root: Cid, strict: bool, fails: Cid -> bool, out: seq<Cid>)
    requires StopsAtFault(w, store, strict, fails, Walk(w, store, root), out)
    ensures FollowsLinks(w, store, root, strict, fails, out, false)
  {
    PrefixFollowsLinks(w, store, root, out);
    hide Walk, Leads, Raises, AtFault, ClosestFirst;
    forall d
      ensures Raises(w, store, strict, fails, d) <==> AtFault(w, store, strict, fails, d)
    {
      RaisesAtFault(w, store, strict, fails, d);
    }
    assert forall i :: 0 <= i < |out| - 1 ==> out[i] in out[..|out| - 1];
  }

  /**
   walk_dag: what the generator yields, and whether it ends without raising. fails are
   the identifiers on which get_block raises.
   */
  method WalkDag(w: World, store: Store, root: Cid, recursive: bool, strict: bool, fails: Cid -> bool)
    returns (out: seq<Cid>, ok: bool)
    ensures ok || !strict ==> out == Visits(w, store, root, recursive, fails)
    ensures ok && recursive ==> out == Walk(w, store, root)
    ensures ok <==> !recursive || NoneRaises(w, store, strict, fails, Walk(w, store, root))
    ensures !ok ==> StopsAtFault(w, store, strict, fails, Walk(w, store, root), out)
    ensures !recursive ==> ok && out == [root]
    ensures recursive ==> FollowsLinks(w, store, root, strict, fails, out, ok)
  {
    hide Bfs, Walking, Measure, FollowsLinks;
    ghost var g := if recursive then LinkGraph(w, store) else map[];
    ghost var all := WalkFrom(g, root);
    NoLinksNoWalk(root);
    WalkStarts(g, root);
    var queue := [root];
    var visited: set<Cid> := {};
    out := [];
    while queue != []
      invariant Walking(g, all, out, queue, visited)
      invariant recursive ==> NoneRaises(w, store, strict, fails, out)
      decreases Measure(g, queue, visited), |queue|
    {
      var curr := queue[0];
      if curr in visited {
        SkipTurn(g, all, out, queue, visited);
        queue := queue[1..];
        continue;
      }
      TakeTurn(g, all, out, queue, visited);
      queue := queue[1..];
      visited := visited + {curr};
      ghost var had := out;
      out := out + [curr];
      if !recursive {
        assert queue + Succ(g, curr) == queue;
        continue;
      }
      assert out[..|out| - 1] == had;
      var links: Option<seq<Cid>> := None;
      if !fails(curr) {
        links := Expand(w, store, curr, strict);
      }
      if links == None {
        FaultSpoilsWalk(w, store, strict, fails, all, out);
        if !strict {
          LenientFault(w, store, fails, all, out);
        }
        BrokenWalkFollowsLinks(w, store, root, strict, fails, out);
        return out, false;
      }
      queue := queue + links.value;
    }
    WalkEnds(g, all, out, visited);
    if recursive {
      NoFaultNoStop(w, store, strict, fails, all);
      WholeWalkFollowsLinks(w, store, root, strict, fails);
    }
    ok := true;
  }

  /**
   A walk yields every reachable identifier, absent ones included, exactly once,
   and never one further from the root before one that is closer.
   */
  lemma WalkCoversReachable(w: World, store: Store, root: Cid)
    ensures NoDup(Walk(w, store, root))
    ensures forall c :: c in Walk(w, store, root) <==> Reachable(LinkGraph(w, store), root, c)
    ensures InDistanceOrder(LinkGraph(w, store), root, Walk(w, store, root))
  {
    WalkIsBreadthFirst(LinkGraph(w, store), root);
  }
}
