/** Finite directed graphs and the order in which a queue with a visited set walks them. */
module Graphs {
  /** A node that is no key has no successors. */
  type Graph<N> = map<N, seq<N>>

  function Succ<N>(g: Graph<N>, c: N): seq<N> {
    if c in g then g[c] else []
  }

  ghost function Elems<N(!new)>(s: seq<N>): set<N> {
    set c | c in s
  }

  ghost predicate NoDup<N(!new)>(s: seq<N>) {
    forall i, j :: 0 <= i < j < |s| ==> s[i] != s[j]
  }

  // ---------------------------------------------------------------------
  // Reachability
  // ---------------------------------------------------------------------

  ghost function Children<N(!new)>(g: Graph<N>, s: set<N>): set<N> {
    set c, d | c in s && d in Succ(g, c) :: d
  }

  /** What at most n links lead to from the root. */
  ghost function Within<N(!new)>(g: Graph<N>, root: N, n: nat): set<N> {
    if n == 0 then {root}
    else Within(g, root, n - 1) + Children(g, Within(g, root, n - 1))
  }

  ghost predicate Reachable<N(!new)>(g: Graph<N>, root: N, c: N) {
    exists n: nat :: c in Within(g, root, n)
  }

  lemma {:induction false} WithinGrows<N(!new)>(g: Graph<N>, root: N, m: nat, n: nat)
    requires m <= n
    ensures Within(g, root, m) <= Within(g, root, n)
    decreases n - m
  {
    if m < n {
      WithinGrows(g, root, m + 1, n);
    }
  }

  /** When one more link leads nowhere new, no number of links does. */
  lemma {:induction false} WithinStops<N(!new)>(g: Graph<N>, root: N, k: nat, n: nat)
    requires Within(g, root, k + 1) == Within(g, root, k)
    ensures Within(g, root, n) <= Within(g, root, k)
    decreases n
  {
    if n <= k {
      WithinGrows(g, root, n, k);
    } else {
      WithinStops(g, root, k, n - 1);
      ChildrenGrow(g, Within(g, root, n - 1), Within(g, root, k));
      hide Children;
    }
  }

  lemma ChildrenGrow<N(!new)>(g: Graph<N>, a: set<N>, b: set<N>)
    requires a <= b
    ensures Children(g, a) <= Children(g, b)
  {
  }

  // ---------------------------------------------------------------------
  // The walk, as the queue and the visited set determine it
  // ---------------------------------------------------------------------

  /** Everything the queue can ever hold. */
  ghost function Horizon<N(!new)>(g: Graph<N>, queue: seq<N>): set<N> {
    Children(g, g.Keys) + Elems(queue)
  }

  lemma HorizonShrinks<N(!new)>(g: Graph<N>, queue: seq<N>)
    requires queue != []
    ensures Horizon(g, queue[1..]) <= Horizon(g, queue)
    ensures Horizon(g, queue[1..] + Succ(g, queue[0])) <= Horizon(g, queue)
    ensures queue[0] in Horizon(g, queue)
  {
  }

  ghost function Bfs<N(!new)>(g: Graph<N>, queue: seq<N>, visited: set<N>): (out: seq<N>)
    decreases Horizon(g, queue) - visited, |queue|
  {
    if queue == [] then []
    else
      HorizonShrinks(g, queue);
      var c := queue[0];
      if c in visited then
        assert Horizon(g, queue[1..]) - visited <= Horizon(g, queue) - visited;
        Bfs(g, queue[1..], visited)
      else
        var queue' := queue[1..] + Succ(g, c);
        var visited' := visited + {c};
        assert c in Horizon(g, queue) - visited;
        assert Horizon(g, queue') - visited' <= Horizon(g, queue) - visited - {c};
        [c] + Bfs(g, queue', visited')
  }

  /** The sequence of identifiers a lenient recursive walk yields. */
  ghost function WalkFrom<N(!new)>(g: Graph<N>, root: N): seq<N> {
    Bfs(g, [root], {})
  }

  // ---------------------------------------------------------------------
  // The same walk, one level at a time
  // ---------------------------------------------------------------------

  /** The members of s not visited before, each at its first occurrence. */
  ghost function Fresh<N(!new)>(s: seq<N>, visited: set<N>): (f: seq<N>) {
    if s == [] then []
    else if s[0] in visited then Fresh(s[1..], visited)
    else [s[0]] + Fresh(s[1..], visited + {s[0]})
  }

  lemma {:induction false} FreshMembers<N(!new)>(s: seq<N>, visited: set<N>)
    ensures forall c :: c in Fresh(s, visited) <==> c in s && c !in visited
    ensures NoDup(Fresh(s, visited))
  {
    if s != [] {
      assert s == [s[0]] + s[1..];
      FreshMembers(s[1..], if s[0] in visited then visited else visited + {s[0]});
    }
  }

  ghost function AllSucc<N(!new)>(g: Graph<N>, s: seq<N>): (out: seq<N>) {
    if s == [] then [] else Succ(g, s[0]) + AllSucc(g, s[1..])
  }

  lemma {:induction false} AllSuccElems<N(!new)>(g: Graph<N>, s: seq<N>)
    ensures Elems(AllSucc(g, s)) == Children(g, Elems(s))
  {
    if s != [] {
      AllSuccElems(g, s[1..]);
      assert Elems(s) == {s[0]} + Elems(s[1..]);
      assert Elems(AllSucc(g, s)) == Elems(Succ(g, s[0])) + Elems(AllSucc(g, s[1..]));
    }
  }

  lemma AllSuccCons<N(!new)>(g: Graph<N>, c: N, s: seq<N>)
    ensures AllSucc(g, [c] + s) == Succ(g, c) + AllSucc(g, s)
  {
    assert ([c] + s)[1..] == s;
  }

  lemma BfsSkip<N(!new)>(g: Graph<N>, c: N, rest: seq<N>, visited: set<N>)
    requires c in visited
    ensures Bfs(g, [c] + rest, visited) == Bfs(g, rest, visited)
  {
    assert ([c] + rest)[1..] == rest;
  }

  lemma BfsTake<N(!new)>(g: Graph<N>, c: N, rest: seq<N>, visited: set<N>)
    requires c !in visited
    ensures Bfs(g, [c] + rest, visited) == [c] + Bfs(g, rest + Succ(g, c), visited + {c})
  {
    assert ([c] + rest)[1..] == rest;
  }

  /** Midway through a walk: out was yielded, and the queue holds what gives the rest. */
  ghost predicate Walking<N(!new)>(g: Graph<N>, all: seq<N>, out: seq<N>, queue: seq<N>, visited: set<N>) {
    && visited == Elems(out)
    && all == out + Bfs(g, queue, visited)
  }

  /** How many nodes a walk may still yield. */
  ghost function Measure<N(!new)>(g: Graph<N>, queue: seq<N>, visited: set<N>): nat {
    |Horizon(g, queue) - visited|
  }

  lemma {:induction false} SubsetCount<T>(a: set<T>, b: set<T>)
    requires a <= b
    ensures |a| <= |b|
    ensures a < b ==> |a| < |b|
    decreases a
  {
    if a != {} {
      var x :| x in a;
      SubsetCount(a - {x}, b - {x});
    }
  }

  lemma WalkStarts<N(!new)>(g: Graph<N>, root: N)
    ensures Walking(g, WalkFrom(g, root), [], [root], {})
  {
    assert [] + WalkFrom(g, root) == WalkFrom(g, root);
  }

  lemma WalkEnds<N(!new)>(g: Graph<N>, all: seq<N>, out: seq<N>, visited: set<N>)
    requires Walking(g, all, out, [], visited)
    ensures out == all
  {
  }

  lemma SkipTurn<N(!new)>(g: Graph<N>, all: seq<N>, out: seq<N>, queue: seq<N>, visited: set<N>)
    requires Walking(g, all, out, queue, visited)
    requires queue != [] && queue[0] in visited
    ensures Walking(g, all, out, queue[1..], visited)
    ensures Measure(g, queue[1..], visited) <= Measure(g, queue, visited)
  {
    BfsSkip(g, queue[0], queue[1..], visited);
    assert queue == [queue[0]] + queue[1..];
    SkipShrinks(g, queue, visited);
  }

  lemma Regroup<T>(all: seq<T>, out: seq<T>, c: T, tail: seq<T>)
    requires all == out + ([c] + tail)
    ensures all == out + [c] + tail && out + [c] <= all
  {
  }

  lemma ElemsSnoc<N(!new)>(out: seq<N>, c: N)
    ensures Elems(out + [c]) == Elems(out) + {c}
  {
  }

  lemma TakeTurn<N(!new)>(g: Graph<N>, all: seq<N>, out: seq<N>, queue: seq<N>, visited: set<N>)
    requires Walking(g, all, out, queue, visited)
    requires queue != [] && queue[0] !in visited
    ensures Walking(g, all, out + [queue[0]], queue[1..] + Succ(g, queue[0]), visited + {queue[0]})
    ensures Measure(g, queue[1..] + Succ(g, queue[0]), visited + {queue[0]}) < Measure(g, queue, visited)
    ensures out + [queue[0]] <= all
  {
    hide Bfs, Horizon, Measure, Elems;
    var c, rest := queue[0], queue[1..];
    TakeShrinks(g, queue, visited);
    BfsTake(g, c, rest, visited);
    assert queue == [c] + rest;
    ElemsSnoc(out, c);
    Regroup(all, out, c, Bfs(g, rest + Succ(g, c), visited + {c}));
  }

  lemma SkipShrinks<N(!new)>(g: Graph<N>, queue: seq<N>, visited: set<N>)
    requires queue != []
    ensures Measure(g, queue[1..], visited) <= Measure(g, queue, visited)
  {
    HorizonShrinks(g, queue);
    SubsetCount(Horizon(g, queue[1..]) - visited, Horizon(g, queue) - visited);
  }

  lemma TakeShrinks<N(!new)>(g: Graph<N>, queue: seq<N>, visited: set<N>)
    requires queue != [] && queue[0] !in visited
    ensures Measure(g, queue[1..] + Succ(g, queue[0]), visited + {queue[0]}) < Measure(g, queue, visited)
  {
    var c := queue[0];
    var longer, visited' := queue[1..] + Succ(g, c), visited + {c};
    HorizonShrinks(g, queue);
    assert c in Horizon(g, queue) - visited;
    assert Horizon(g, longer) - visited' < Horizon(g, queue) - visited;
    SubsetCount(Horizon(g, longer) - visited', Horizon(g, queue) - visited);
  }

  /** A queue is worked off level by level: first its unseen members, then their links. */
  lemma {:induction false} BfsByLevel<N(!new)>(g: Graph<N>, level: seq<N>, next: seq<N>, visited: set<N>)
    ensures
      var unseen := Fresh(level, visited);
      Bfs(g, level + next, visited)
      == unseen + Bfs(g, next + AllSucc(g, unseen), visited + Elems(level))
    decreases |level|
  {
    if level == [] {
      assert level + next == next == next + [];
      assert visited + Elems(level) == visited;
    } else {
      var c, rest := level[0], level[1..];
      assert level + next == [c] + (rest + next);
      assert Elems(level) == {c} + Elems(rest);
      if c in visited {
        BfsSkip(g, c, rest + next, visited);
        BfsByLevel(g, rest, next, visited);
        assert visited + Elems(level) == visited + Elems(rest);
      } else {
        BfsByLevelTake(g, level, next, visited);
      }
    }
  }

  lemma {:induction false} BfsByLevelTake<N(!new)>(g: Graph<N>, level: seq<N>, next: seq<N>, visited: set<N>)
    requires level != [] && level[0] !in visited
    ensures
      var unseen := Fresh(level, visited);
      Bfs(g, level + next, visited) == unseen + Bfs(g, next + AllSucc(g, unseen), visited + Elems(level))
    decreases |level|, 0
  {
    hide *;
    var c, rest := level[0], level[1..];
    var next' := next + Succ(g, c);
    var unseen' := Fresh(rest, visited + {c});
    var after, seen := next + AllSucc(g, [c] + unseen'), visited + Elems(level);
    var tail := Bfs(g, after, seen);
    FreshTake(level, visited);
    assert Bfs(g, level + next, visited) == [c] + Bfs(g, rest + next', visited + {c}) by {
      BfsTake(g, c, rest + next, visited);
      assert level + next == [c] + (rest + next);
      assert rest + next + Succ(g, c) == rest + next';
    }
    assert Bfs(g, rest + next', visited + {c}) == unseen' + tail by {
      BfsByLevel(g, rest, next', visited + {c});
      AllSuccCons(g, c, unseen');
      assert next' + AllSucc(g, unseen') == after;
      assert visited + {c} + Elems(rest) == seen;
    }
    assert [c] + (unseen' + tail) == [c] + unseen' + tail;
  }

  lemma FreshTake<N(!new)>(s: seq<N>, visited: set<N>)
    requires s != [] && s[0] !in visited
    ensures Fresh(s, visited) == [s[0]] + Fresh(s[1..], visited + {s[0]})
    ensures Elems(s) == {s[0]} + Elems(s[1..])
  {
  }

  /** What the levels before the k-th one cover. */
  ghost function Before<N(!new)>(g: Graph<N>, root: N, k: nat): set<N> {
    if k == 0 then {} else Within(g, root, k - 1)
  }

  ghost predicate InDistanceOrder<N(!new)>(g: Graph<N>, root: N, out: seq<N>) {
    forall i, j, n: nat :: 0 <= i < j < |out| && out[j] in Within(g, root, n) ==> out[i] in Within(g, root, n)
  }

  lemma NextLevel<N(!new)>(g: Graph<N>, root: N, queue: seq<N>, k: nat)
    requires Before(g, root, k) + Elems(queue) == Within(g, root, k)
    ensures
      var unseen := Fresh(queue, Before(g, root, k));
      Within(g, root, k) + Elems(AllSucc(g, unseen)) == Within(g, root, k + 1)
  {
    var before := Before(g, root, k);
    var unseen := Fresh(queue, before);
    AllSuccElems(g, unseen);
    FreshMembers(queue, before);
    assert Within(g, root, k) == before + Elems(unseen);
    assert Children(g, Within(g, root, k)) == Children(g, before) + Children(g, Elems(unseen));
    assert Children(g, before) <= Within(g, root, k);
  }

  /** What a walk that resumes at the k-th level still yields. */
  ghost predicate Covers<N(!new)>(g: Graph<N>, root: N, k: nat, out: seq<N>) {
    && NoDup(out)
    && InDistanceOrder(g, root, out)
    && forall c :: c in out <==> c !in Before(g, root, k) && Reachable(g, root, c)
  }

  lemma NothingLeft<N(!new)>(g: Graph<N>, root: N, queue: seq<N>, k: nat)
    requires Before(g, root, k) + Elems(queue) == Within(g, root, k)
    requires Fresh(queue, Before(g, root, k)) == []
    ensures Covers(g, root, k, [])
  {
    NextLevel(g, root, queue, k);
    FreshMembers(queue, Before(g, root, k));
    forall n: nat
      ensures Within(g, root, n) <= Before(g, root, k)
    {
      WithinStops(g, root, k, n);
    }
  }

  /** The members of the k-th level are those at distance exactly k. */
  ghost predicate IsLevel<N(!new)>(g: Graph<N>, root: N, k: nat, unseen: seq<N>) {
    && NoDup(unseen)
    && forall c :: c in unseen <==> c in Within(g, root, k) && c !in Before(g, root, k)
  }

  lemma LevelFirst<N(!new)>(g: Graph<N>, root: N, k: nat, c: N, d: N, n: nat)
    requires c in Within(g, root, k)
    requires d !in Before(g, root, k) && d in Within(g, root, n)
    ensures c in Within(g, root, n)
  {
    if n >= k {
      WithinGrows(g, root, k, n);
    } else {
      WithinGrows(g, root, n, k - 1);
      assert false;
    }
  }

  lemma LevelThenRest<N(!new)>(g: Graph<N>, root: N, k: nat, unseen: seq<N>, rest: seq<N>)
    requires IsLevel(g, root, k, unseen) && Covers(g, root, k + 1, rest)
    ensures Covers(g, root, k, unseen + rest)
  {
    var out := unseen + rest;
    if k > 0 {
      WithinGrows(g, root, k - 1, k);
    }
    assert NoDup(out) by {
      assert forall i, j :: 0 <= i < |unseen| && 0 <= j < |rest| ==> unseen[i] in unseen && rest[j] in rest;
    }
    assert InDistanceOrder(g, root, out) by {
      forall i, j, n: nat | 0 <= i < j < |out| && out[j] in Within(g, root, n)
        ensures out[i] in Within(g, root, n)
      {
        if i < |unseen| {
          assert out[i] in unseen && out[j] in out;
          assert out[j] !in Before(g, root, k);
          LevelFirst(g, root, k, out[i], out[j], n);
        } else {
          assert out[i] == rest[i - |unseen|] && out[j] == rest[j - |unseen|];
        }
      }
    }
    assert forall c :: c in out <==> c in unseen || c in rest;
  }

  /** A level with an unseen member leaves less for the levels after it. */
  lemma LevelShrinks<N(!new)>(g: Graph<N>, queue: seq<N>, before: set<N>, all: set<N>, unseen: seq<N>, queue': seq<N>)
    requires all == before + Elems(queue)
    requires unseen != [] && forall c :: c in unseen ==> c in queue && c !in before
    requires Elems(queue') == Children(g, Elems(unseen))
    ensures Horizon(g, queue') - all < Horizon(g, queue) - before
  {
    assert Elems(queue') <= Children(g, g.Keys);
    var c := unseen[0];
    assert c in unseen && c in Elems(queue);
    assert c in Horizon(g, queue) - before && c in all;
  }

  lemma {:induction false} LevelsCoverReachable<N(!new)>(g: Graph<N>, root: N, queue: seq<N>, k: nat)
    requires Before(g, root, k) + Elems(queue) == Within(g, root, k)
    ensures Covers(g, root, k, Bfs(g, queue, Before(g, root, k)))
    decreases Horizon(g, queue) - Before(g, root, k)
  {
    var before := Before(g, root, k);
    var all := Within(g, root, k);
    var unseen := Fresh(queue, before);
    var queue' := AllSucc(g, unseen);
    assert Bfs(g, queue, before) == unseen + Bfs(g, queue', all) by {
      BfsByLevel(g, queue, [], before);
      assert queue + [] == queue && [] + queue' == queue';
    }
    AllSuccElems(g, unseen);
    FreshMembers(queue, before);
    if unseen == [] {
      NothingLeft(g, root, queue, k);
      assert queue' == [];
    } else {
      NextLevel(g, root, queue, k);
      LevelShrinks(g, queue, before, all, unseen, queue');
      LevelsCoverReachable(g, root, queue', k + 1);
      LevelThenRest(g, root, k, unseen, Bfs(g, queue', all));
    }
  }

  /**
   A walk yields every reachable identifier, absent ones included, exactly once,
   and never one that is further from the root before one that is closer.
   */
  lemma WalkIsBreadthFirst<N(!new)>(g: Graph<N>, root: N)
    ensures NoDup(WalkFrom(g, root))
    ensures forall c :: c in WalkFrom(g, root) <==> Reachable(g, root, c)
    ensures InDistanceOrder(g, root, WalkFrom(g, root))
  {
    LevelsCoverReachable(g, root, [root], 0);
  }

  // ---------------------------------------------------------------------
  // What a walk covers is the least closed set
  // ---------------------------------------------------------------------

  /** s takes in the queue and, of each member, all successors; what was visited needs no covering. */
  ghost predicate Closed<N(!new)>(g: Graph<N>, queue: seq<N>, visited: set<N>, s: set<N>) {
    && (forall c :: c in queue ==> c in s || c in visited)
    && (forall c, d :: c in s && d in Succ(g, c) ==> d in s || d in visited)
  }

  lemma {:induction false} BfsIsClosed<N(!new)>(g: Graph<N>, queue: seq<N>, visited: set<N>)
    ensures Closed(g, queue, visited, Elems(Bfs(g, queue, visited)))
    decreases Horizon(g, queue) - visited, |queue|
  {
    if queue != [] {
      HorizonShrinks(g, queue);
      var c, rest := queue[0], queue[1..];
      assert queue == [c] + rest;
      if c in visited {
        BfsSkip(g, c, rest, visited);
        assert Horizon(g, rest) - visited <= Horizon(g, queue) - visited;
        BfsIsClosed(g, rest, visited);
      } else {
        var longer := rest + Succ(g, c);
        BfsTake(g, c, rest, visited);
        assert c in Horizon(g, queue) - visited;
        assert Horizon(g, longer) - (visited + {c}) <= Horizon(g, queue) - visited - {c};
        BfsIsClosed(g, longer, visited + {c});
        ClosedTake(g, c, rest, visited, Elems(Bfs(g, longer, visited + {c})));
        ElemsCons(c, Bfs(g, longer, visited + {c}));
      }
    }
  }

  lemma ElemsCons<N(!new)>(c: N, s: seq<N>)
    ensures Elems([c] + s) == {c} + Elems(s)
  {
  }

  lemma ClosedTake<N(!new)>(g: Graph<N>, c: N, rest: seq<N>, visited: set<N>, s: set<N>)
    requires Closed(g, rest + Succ(g, c), visited + {c}, s)
    ensures Closed(g, [c] + rest, visited, {c} + s)
  {
    forall d | d in Succ(g, c)
      ensures d in s || d in visited + {c}
    {
      assert d in rest + Succ(g, c);
    }
  }

  lemma {:induction false} BfsIsLeast<N(!new)>(g: Graph<N>, queue: seq<N>, visited: set<N>, s: set<N>)
    requires Closed(g, queue, visited, s)
    ensures Elems(Bfs(g, queue, visited)) <= s
    decreases Horizon(g, queue) - visited, |queue|
  {
    if queue != [] {
      HorizonShrinks(g, queue);
      var c, rest := queue[0], queue[1..];
      assert queue == [c] + rest;
      if c in visited {
        BfsSkip(g, c, rest, visited);
        assert Horizon(g, rest) - visited <= Horizon(g, queue) - visited;
        BfsIsLeast(g, rest, visited, s);
      } else {
        var longer := rest + Succ(g, c);
        BfsTake(g, c, rest, visited);
        assert c in Horizon(g, queue) - visited;
        assert Horizon(g, longer) - (visited + {c}) <= Horizon(g, queue) - visited - {c};
        assert c in s;
        BfsIsLeast(g, longer, visited + {c}, s);
        ElemsCons(c, Bfs(g, longer, visited + {c}));
      }
    }
  }

  /** A longer queue never covers less. */
  lemma LongerQueueCoversMore<N(!new)>(g: Graph<N>, queue: seq<N>, longer: seq<N>, visited: set<N>)
    requires forall c :: c in queue ==> c in longer
    ensures Elems(Bfs(g, queue, visited)) <= Elems(Bfs(g, longer, visited))
  {
    hide Bfs;
    BfsIsClosed(g, longer, visited);
    BfsIsLeast(g, queue, visited, Elems(Bfs(g, longer, visited)));
  }

  // ---------------------------------------------------------------------
  // How many turns a walk can take
  // ---------------------------------------------------------------------

  /** The number of links out of the nodes of s. */
  ghost function LinkCount<N(!new)>(g: Graph<N>, s: set<N>): nat {
    if s == {} then 0 else
      var c :| c in s;
      |Succ(g, c)| + LinkCount(g, s - {c})
  }

  lemma {:induction false} LinkCountSplit<N(!new)>(g: Graph<N>, s: set<N>, c: N)
    requires c in s
    ensures LinkCount(g, s) == |Succ(g, c)| + LinkCount(g, s - {c})
    decreases s
  {
    var d :| d in s && LinkCount(g, s) == |Succ(g, d)| + LinkCount(g, s - {d});
    if d != c {
      LinkCountSplit(g, s - {d}, c);
      LinkCountSplit(g, s - {c}, d);
      assert s - {d} - {c} == s - {c} - {d};
    }
  }

  /** A walk in this state takes at most so many turns: the queue, and every link not queued yet. */
  ghost function TurnsLeft<N(!new)>(g: Graph<N>, queue: seq<N>, visited: set<N>): nat {
    |queue| + LinkCount(g, g.Keys - visited)
  }

  lemma TurnSpendsOne<N(!new)>(g: Graph<N>, queue: seq<N>, visited: set<N>)
    requires queue != [] && queue[0] !in visited
    ensures
      var c := queue[0];
      && TurnsLeft(g, queue[1..] + Succ(g, c), visited + {c}) == TurnsLeft(g, queue, visited) - 1
      && TurnsLeft(g, [], visited + {c}) < TurnsLeft(g, queue, visited)
  {
    var c := queue[0];
    var unseen := g.Keys - visited;
    assert g.Keys - (visited + {c}) == unseen - {c};
    if c in g {
      LinkCountSplit(g, unseen, c);
    } else {
      assert unseen - {c} == unseen;
    }
  }

  // ---------------------------------------------------------------------
  // Walks of two graphs that agree where the walk goes
  // ---------------------------------------------------------------------

  lemma EmptyWalk<N(!new)>(g: Graph<N>, visited: set<N>)
    ensures Bfs(g, [], visited) == []
  {
  }

  /** A walk up to and including its i-th node depends on the successors of the earlier nodes only. */
  lemma {:induction false} BfsPrefix<N(!new)>(g: Graph<N>, h: Graph<N>, queue: seq<N>, visited: set<N>, i: nat)
    requires i < |Bfs(g, queue, visited)|
    requires forall k :: 0 <= k < i ==> Succ(g, Bfs(g, queue, visited)[k]) == Succ(h, Bfs(g, queue, visited)[k])
    ensures i < |Bfs(h, queue, visited)|
    ensures Bfs(h, queue, visited)[..i + 1] == Bfs(g, queue, visited)[..i + 1]
    decreases i, |queue|
  {
    EmptyWalk(g, visited);
    hide Bfs;
    assert queue != [];
    var c, rest := queue[0], queue[1..];
    var out := Bfs(g, queue, visited);
    assert queue == [c] + rest;
    if c in visited {
      BfsSkip(g, c, rest, visited);
      BfsSkip(h, c, rest, visited);
      BfsPrefix(g, h, rest, visited, i);
    } else {
      BfsTake(g, c, rest, visited);
      BfsTake(h, c, rest, visited);
      if i > 0 {
        var tail := Bfs(g, rest + Succ(g, c), visited + {c});
        assert out == [c] + tail && out[0] == c;
        assert forall k :: 0 <= k < i - 1 ==> tail[k] == out[k + 1];
        BfsPrefix(g, h, rest + Succ(g, c), visited + {c}, i - 1);
        var other := Bfs(h, rest + Succ(g, c), visited + {c});
        assert ([c] + other)[..i + 1] == [c] + other[..i];
        assert out[..i + 1] == [c] + tail[..i];
      }
    }
  }

  lemma {:induction false} BfsAgrees<N(!new)>(g: Graph<N>, h: Graph<N>, queue: seq<N>, visited: set<N>)
    requires forall c :: c in Bfs(g, queue, visited) ==> Succ(g, c) == Succ(h, c)
    ensures Bfs(h, queue, visited) == Bfs(g, queue, visited)
    decreases |Bfs(g, queue, visited)|, |queue|
  {
    if queue != [] {
      var c, rest := queue[0], queue[1..];
      assert queue == [c] + rest;
      if c in visited {
        BfsSkip(g, c, rest, visited);
        BfsSkip(h, c, rest, visited);
        BfsAgrees(g, h, rest, visited);
      } else {
        BfsTake(g, c, rest, visited);
        BfsTake(h, c, rest, visited);
        BfsAgrees(g, h, rest + Succ(g, c), visited + {c});
      }
    }
  }

  // ---------------------------------------------------------------------
  // Walks that are broken off
  // ---------------------------------------------------------------------

  /** The sequence up to and including the first member that stops it. */
  function UpTo<N>(s: seq<N>, stops: N -> bool): (r: seq<N>)
    ensures r <= s && (s != [] ==> r != [])
  {
    if s == [] then [] else if stops(s[0]) then [s[0]] else [s[0]] + UpTo(s[1..], stops)
  }

  lemma UpToCons<N>(c: N, tail: seq<N>, stops: N -> bool)
    ensures UpTo([c] + tail, stops) == if stops(c) then [c] else [c] + UpTo(tail, stops)
  {
    assert ([c] + tail)[1..] == tail;
  }

  ghost predicate NoneStops<N(!new)>(s: seq<N>, stops: N -> bool) {
    forall c :: c in s ==> !stops(c)
  }

  lemma {:induction false} UpToAll<N(!new)>(s: seq<N>, stops: N -> bool)
    requires NoneStops(s, stops)
    ensures UpTo(s, stops) == s
  {
    if s != [] {
      UpToAll(s[1..], stops);
    }
  }

  lemma {:induction false} UpToStop<N(!new)>(s: seq<N>, stops: N -> bool, out: seq<N>)
    requires out != [] && out <= s && NoneStops(out[..|out| - 1], stops) && stops(out[|out| - 1])
    ensures UpTo(s, stops) == out
  {
    if |out| > 1 {
      assert !stops(out[0]) by { assert out[..|out| - 1][0] == out[0]; }
      var rest := out[1..];
      assert rest[..|rest| - 1] == out[..|out| - 1][1..];
      UpToStop(s[1..], stops, rest);
    } else {
      assert out == [s[0]];
    }
  }

  /** c comes behind a member that stops the sequence. */
  ghost predicate Behind<N(!new)>(s: seq<N>, stops: N -> bool, c: N) {
    exists i, j :: 0 <= i < j < |s| && stops(s[i]) && s[j] == c
  }

  lemma {:induction false} UpToOrBehind<N(!new)>(s: seq<N>, stops: N -> bool, c: N)
    requires NoDup(s)
    ensures c in UpTo(s, stops) <==> c in s && !Behind(s, stops, c)
  {
    if s != [] {
      var rest := s[1..];
      UpToOrBehind(rest, stops, c);
      assert forall i :: 0 <= i < |rest| ==> rest[i] == s[i + 1];
      assert stops(s[0]) && c in rest ==> Behind(s, stops, c);
      assert Behind(rest, stops, c) ==> Behind(s, stops, c) by {
        if i, j :| 0 <= i < j < |rest| && stops(rest[i]) && rest[j] == c {
          assert stops(s[i + 1]) && s[j + 1] == c;
        }
      }
      if !stops(s[0]) && Behind(s, stops, c) {
        var i, j :| 0 <= i < j < |s| && stops(s[i]) && s[j] == c;
        assert stops(rest[i - 1]) && rest[j - 1] == c;
      }
    }
  }

  /** Graphs that agree where a broken-off walk goes break it off alike. */
  lemma UpToAgrees<N(!new)>(g: Graph<N>, h: Graph<N>, root: N, stops: N -> bool)
    requires forall c :: c in UpTo(WalkFrom(g, root), stops) ==> Succ(g, c) == Succ(h, c)
    ensures UpTo(WalkFrom(h, root), stops) == UpTo(WalkFrom(g, root), stops)
  {
    hide Bfs;
    var walk := WalkFrom(g, root);
    var out := UpTo(walk, stops);
    if NoneStops(walk, stops) {
      UpToAll(walk, stops);
      BfsAgrees(g, h, [root], {});
    } else {
      var i := FirstStop(walk, stops);
      UpToStop(walk, stops, walk[..i + 1]);
      assert forall k :: 0 <= k < i ==> walk[k] == out[k];
      BfsPrefix(g, h, [root], {}, i);
      var other := WalkFrom(h, root);
      assert other[..i + 1] == walk[..i + 1];
      UpToStop(other, stops, walk[..i + 1]);
    }
  }

  lemma {:induction false} FirstStop<N(!new)>(s: seq<N>, stops: N -> bool) returns (i: nat)
    requires !NoneStops(s, stops)
    ensures i < |s| && stops(s[i])
    ensures NoneStops(s[..i + 1][..|s[..i + 1]| - 1], stops)
  {
    if stops(s[0]) {
      i := 0;
    } else {
      assert s == [s[0]] + s[1..];
      i := FirstStop(s[1..], stops);
      assert s[..i + 1] == [s[0]] + s[1..][..i + 1][..i];
      i := i + 1;
      assert s[..i + 1][..i] == s[..i];
    }
  }
}
