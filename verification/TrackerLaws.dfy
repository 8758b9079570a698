/** Conservation laws of the connection tracker, for every sequence of events. */
module TrackerLaws {
  import opened Bytes
  import opened Tallies
  import opened TrackerMemory
  import opened Tracker

  // ---------------------------------------------------------------------
  // Counting live records
  // ---------------------------------------------------------------------

  datatype Query =
    | Of(peer: string)
    | Toward(peer: string, direction: Direction)
    | Nameless(peer: string)     // no protocol known yet
    | Unflagged(peer: string)    // not yet a suspected leak
    | AnyToward(direction: Direction)
    | Uncounted                  // not yet in the totals by protocol
  {
    predicate Matches(r: StreamRecord) {
      match this
      case Of(p) => r.peer == p
      case Toward(p, d) => r.peer == p && r.direction == d
      case Nameless(p) => r.peer == p && r.protocol == None
      case Unflagged(p) => r.peer == p && !r.suspectedLeak
      case AnyToward(d) => r.direction == d
      case Uncounted => !r.counted
    }
  }

  function One(q: Query, r: StreamRecord): nat {
    if q.Matches(r) then 1 else 0
  }

  ghost function Matching(streams: Streams, q: Query): set<Key> {
    set k | k in streams && q.Matches(streams[k])
  }

  ghost function Tally(streams: Streams, q: Query): nat {
    |Matching(streams, q)|
  }

  lemma TallyRemove(streams: Streams, key: Key, q: Query)
    requires key in streams
    ensures Tally(streams - {key}, q) == Tally(streams, q) - One(q, streams[key])
  {
    var all := Matching(streams, q);
    assert Matching(streams - {key}, q) == all - {key};
    assert key in all <==> q.Matches(streams[key]);
  }

  lemma TallyAdd(streams: Streams, key: Key, r: StreamRecord, q: Query)
    requires key !in streams
    ensures Tally(streams[key := r], q) == Tally(streams, q) + One(q, r)
  {
    TallyRemove(streams[key := r], key, q);
    assert streams[key := r] - {key} == streams;
  }

  lemma TallyReplace(streams: Streams, key: Key, r: StreamRecord, q: Query)
    requires key in streams
    ensures Tally(streams[key := r], q) == Tally(streams, q) - One(q, streams[key]) + One(q, r)
  {
    TallyRemove(streams, key, q);
    TallyRemove(streams[key := r], key, q);
    assert streams[key := r] - {key} == streams - {key};
  }

  // ---------------------------------------------------------------------
  // The laws
  // ---------------------------------------------------------------------

  /** What was opened and not closed is what is counted open is what is live, in both directions. */
  ghost predicate FlowOf(streams: Streams, s: PeerStats, p: string) {
    && s.totalOpened - s.totalClosed == s.currentOpen == Tally(streams, Of(p))
    && s.currentOut == Tally(streams, Toward(p, Outbound))
    && s.currentIn == Tally(streams, Toward(p, Inbound))
    && s.currentOpen <= s.maxOpen <= s.totalOpened
    && s.openedOut + s.openedIn + Tally(streams, Toward(p, Unknown)) <= s.totalOpened
    && s.currentOut <= s.openedOut && s.currentIn <= s.openedIn
  }

  /** Every bucket is in use, together they hold every stream ever opened, the nameless ones under "unknown". */
  ghost predicate BucketsOf(streams: Streams, s: PeerStats, p: string) {
    && (forall b :: b in s.byProtocol ==> s.byProtocol[b] >= 1)
    && Sum(s.byProtocol) == s.totalOpened
    && Tally(streams, Nameless(p)) <= Get(s.byProtocol, "unknown")
  }

  /** Flags raised and live records not yet flagged are at most the streams opened. */
  ghost predicate LeaksOf(streams: Streams, s: PeerStats, p: string) {
    s.leaks + Tally(streams, Unflagged(p)) <= s.totalOpened
  }

  ghost predicate Conserved(st: State) {
    forall p :: FlowOf(st.streams, st.StatsOf(p), p)
  }

  ghost predicate PeerLaws(st: State, p: string) {
    && FlowOf(st.streams, st.StatsOf(p), p)
    && BucketsOf(st.streams, st.StatsOf(p), p)
    && LeaksOf(st.streams, st.StatsOf(p), p)
  }

  /** The totals over all peers balance in both directions. */
  ghost predicate DirectionTotals(st: State) {
    && st.outOpened - st.outClosed == Tally(st.streams, AnyToward(Outbound))
    && st.inOpened - st.inClosed == Tally(st.streams, AnyToward(Inbound))
  }

  /** The totals and the live streams outside them are at most the streams opened; no direction exceeds the total. */
  ghost predicate ProtocolTotals(st: State) {
    && Sum(st.byProto) + Tally(st.streams, Uncounted) <= st.openedTotal
    && forall b :: Get(st.byProtoOut, b) + Get(st.byProtoIn, b) <= Get(st.byProto, b)
  }

  ghost predicate MemoryBounded(st: State) {
    |st.finalized| <= MAX_FINALIZED && DistinctKeys(st.finalized)
  }

  ghost predicate Inv(st: State) {
    && (forall p :: PeerLaws(st, p))
    && DirectionTotals(st)
    && ProtocolTotals(st)
    && MemoryBounded(st)
  }

  // ---------------------------------------------------------------------
  // Opening
  // ---------------------------------------------------------------------

  lemma OpenStats(st: State, key: Key, peer: string, seen: Seen, now: real)
    ensures
      var st' := Open(st, key, peer, seen, now);
      var s, s' := st.StatsOf(peer), st'.StatsOf(peer);
      && (forall p :: p != peer ==> st'.StatsOf(p) == st.StatsOf(p))
      && s' == s.(
           totalOpened := s.totalOpened + 1, currentOpen := s.currentOpen + 1,
           maxOpen := Max(s.maxOpen, s.currentOpen + 1),
           byProtocol := Increment(s.byProtocol, Bucket(seen.protocol)),
           openedOut := if seen.direction.Outbound? then s.openedOut + 1 else s.openedOut,
           currentOut := if seen.direction.Outbound? then s.currentOut + 1 else s.currentOut,
           openedIn := if seen.direction.Inbound? then s.openedIn + 1 else s.openedIn,
           currentIn := if seen.direction.Inbound? then s.currentIn + 1 else s.currentIn)
      && st'.streams == st.streams[key := NewRecord(peer, seen, now)]
      && st'.finalized == st.finalized
      && st'.outOpened == (if seen.direction.Outbound? then st.outOpened + 1 else st.outOpened)
      && st'.inOpened == (if seen.direction.Inbound? then st.inOpened + 1 else st.inOpened)
      && st'.outClosed == st.outClosed && st'.inClosed == st.inClosed
      && st'.byProto == st.byProto && st'.byProtoOut == st.byProtoOut && st'.byProtoIn == st.byProtoIn
      && st'.openedTotal == st.openedTotal + 1
  {
  }

  /** A new stream is recorded as it was seen, and goes to the bucket of its protocol, or of "unknown" without one. */
  lemma OpenRecordsStream(st: State, key: Key, peer: string, seen: Seen, now: real, b: string)
    ensures
      var st' := Open(st, key, peer, seen, now);
      var bucket := if seen.protocol.Some? && seen.protocol.value != "" then seen.protocol.value else "unknown";
      && st'.streams == st.streams[key := StreamRecord(peer, now, seen.protocol, seen.direction, false, false, false)]
      && Get(st'.StatsOf(peer).byProtocol, b) == Get(st.StatsOf(peer).byProtocol, b) + if b == bucket then 1 else 0
  {
    OpenStats(st, key, peer, seen, now);
    hide Open;
  }

  lemma OpenTally(st: State, key: Key, peer: string, seen: Seen, now: real)
    requires key !in st.streams
    ensures
      forall q: Query ::
        Tally(Open(st, key, peer, seen, now).streams, q) == Tally(st.streams, q) + One(q, NewRecord(peer, seen, now))
  {
    OpenStats(st, key, peer, seen, now);
    hide Open, Tally;
    forall q: Query
      ensures
        Tally(st.streams[key := NewRecord(peer, seen, now)], q)
        == Tally(st.streams, q) + One(q, NewRecord(peer, seen, now))
    {
      TallyAdd(st.streams, key, NewRecord(peer, seen, now), q);
    }
  }

  lemma OpenFlow(st: State, key: Key, peer: string, seen: Seen, now: real, p: string)
    requires FlowOf(st.streams, st.StatsOf(p), p) && key !in st.streams
    ensures
      var st' := Open(st, key, peer, seen, now);
      FlowOf(st'.streams, st'.StatsOf(p), p)
  {
    OpenStats(st, key, peer, seen, now);
    OpenTally(st, key, peer, seen, now);
    hide Open, Tally;
  }

  lemma OpenBuckets(st: State, key: Key, peer: string, seen: Seen, now: real, p: string)
    requires BucketsOf(st.streams, st.StatsOf(p), p) && key !in st.streams
    ensures
      var st' := Open(st, key, peer, seen, now);
      BucketsOf(st'.streams, st'.StatsOf(p), p)
  {
    hide Open, Tally, Sum;
    OpenStats(st, key, peer, seen, now);
    OpenTally(st, key, peer, seen, now);
    SumIncrement(st.StatsOf(p).byProtocol, Bucket(seen.protocol));
  }

  /** Opening a stream under a new key keeps the laws of every peer. */
  lemma OpenPeerLaws(st: State, key: Key, peer: string, seen: Seen, now: real, p: string)
    requires PeerLaws(st, p) && key !in st.streams
    ensures PeerLaws(Open(st, key, peer, seen, now), p)
  {
    hide Open, Tally, FlowOf, BucketsOf, Increment, Bucket;
    OpenFlow(st, key, peer, seen, now, p);
    OpenBuckets(st, key, peer, seen, now, p);
    OpenStats(st, key, peer, seen, now);
    OpenTally(st, key, peer, seen, now);
  }

  lemma OpenKeepsInv(st: State, key: Key, peer: string, seen: Seen, now: real)
    requires Inv(st) && key !in st.streams
    ensures Inv(Open(st, key, peer, seen, now))
  {
    OpenStats(st, key, peer, seen, now);
    OpenTally(st, key, peer, seen, now);
    hide Open, Tally, PeerLaws;
    forall p
      ensures PeerLaws(Open(st, key, peer, seen, now), p)
    {
      OpenPeerLaws(st, key, peer, seen, now, p);
    }
  }

  /** Opening conserves the counts if and only if the key is not live already: a live record would be overwritten. */
  lemma OpenConservesExactly(st: State, key: Key, peer: string, seen: Seen, now: real)
    requires Conserved(st)
    ensures Conserved(Open(st, key, peer, seen, now)) <==> key !in st.streams
  {
    var st' := Open(st, key, peer, seen, now);
    if key in st.streams {
      OpenStats(st, key, peer, seen, now);
      var gone := st.streams[key].peer;
      TallyReplace(st.streams, key, NewRecord(peer, seen, now), Of(gone));
      hide Open, Tally;
      assert !FlowOf(st'.streams, st'.StatsOf(gone), gone);
    } else {
      hide FlowOf, Open;
      forall p
        ensures FlowOf(st'.streams, st'.StatsOf(p), p)
      {
        OpenFlow(st, key, peer, seen, now, p);
      }
    }
  }

  // ---------------------------------------------------------------------
  // Late metadata
  // ---------------------------------------------------------------------

  lemma TallyHas(streams: Streams, key: Key, q: Query)
    requires key in streams && q.Matches(streams[key])
    ensures Tally(streams, q) >= 1
  {
    TallyRemove(streams, key, q);
  }

  /** The statistics of a peer with a live stream are there: the guards of the refresh never skip. */
  lemma LivePeerHasStats(st: State, key: Key)
    requires key in st.streams
    requires var p := st.streams[key].peer; FlowOf(st.streams, st.StatsOf(p), p)
    ensures st.streams[key].peer in st.stats
  {
    TallyHas(st.streams, key, Of(st.streams[key].peer));
  }

  lemma MoveBucketKeeps(buckets: Counts, to: string)
    requires forall b :: b in buckets ==> buckets[b] >= 1
    requires Get(buckets, "unknown") >= 1
    ensures
      var moved := MoveBucket(buckets, to);
      && Sum(moved) == Sum(buckets)
      && (forall b :: b in moved ==> moved[b] >= 1)
      && Get(moved, "unknown") >= Get(buckets, "unknown") - 1
  {
    var from := "unknown";
    var lowered := buckets[from := buckets[from] - 1];
    var pruned := if lowered[from] == 0 then lowered - {from} else lowered;
    SumSet(buckets, from, buckets[from] - 1);
    SumSplit(lowered, from);
    SumIncrement(pruned, to);
    hide Sum;
  }

  /** One stream leaves the bucket "unknown" for that of its protocol; no other bucket changes. */
  lemma MoveBucketMoves(buckets: Counts, to: string, b: string)
    requires Get(buckets, "unknown") >= 1
    ensures
      Get(MoveBucket(buckets, to), b)
      == Get(buckets, b) + (if b == to then 1 else 0) - (if b == "unknown" then 1 else 0)
  {
  }

  /** Late metadata fills in what was not known, never replaces what was, and changes nothing else. */
  lemma RefreshedMeans(r: StreamRecord, seen: Seen)
    ensures
      var r' := Refreshed(r, seen);
      && r'.protocol == (if r.protocol == None then seen.protocol else r.protocol)
      && r'.direction == (if r.direction == Unknown then seen.direction else r.direction)
      && r' == r.(protocol := r'.protocol, direction := r'.direction, counted := r'.counted)
      && r'.counted
         == (r.counted || (r'.protocol.Some? && r'.protocol.value != "" && r'.protocol.value != "unknown"))
  {
  }

  /** What a refresh does to the peers' statistics, for a record whose peer has some. */
  ghost predicate RefreshesStats(st: State, key: Key, seen: Seen, st': State)
    requires key in st.streams
  {
    var r := st.streams[key];
    var r' := Refreshed(r, seen);
    var s, s' := st.StatsOf(r.peer), st'.StatsOf(r.peer);
    var late := r.direction != r'.direction;
    && st'.streams == st.streams[key := r']
    && st'.finalized == st.finalized
    && (forall p :: p != r.peer ==> st'.StatsOf(p) == st.StatsOf(p))
    && s' == s.(
         openedOut := if late && r'.direction.Outbound? then s.openedOut + 1 else s.openedOut,
         currentOut := if late && r'.direction.Outbound? then s.currentOut + 1 else s.currentOut,
         openedIn := if late && r'.direction.Inbound? then s.openedIn + 1 else s.openedIn,
         currentIn := if late && r'.direction.Inbound? then s.currentIn + 1 else s.currentIn,
         byProtocol := if r.protocol != r'.protocol then MoveBucket(s.byProtocol, r'.protocol.value) else s.byProtocol)
  }

  /** What a refresh does to the totals. */
  ghost predicate RefreshesTotals(st: State, key: Key, seen: Seen, st': State)
    requires key in st.streams
  {
    var r := st.streams[key];
    var r' := Refreshed(r, seen);
    var late := r.direction != r'.direction;
    var counts := Countable(r'.protocol) && !r.counted;
    && st'.outOpened == (if late && r'.direction.Outbound? then st.outOpened + 1 else st.outOpened)
    && st'.inOpened == (if late && r'.direction.Inbound? then st.inOpened + 1 else st.inOpened)
    && st'.outClosed == st.outClosed && st'.inClosed == st.inClosed
    && st'.byProto == (if counts then Increment(st.byProto, r'.protocol.value) else st.byProto)
    && st'.byProtoOut ==
       (if counts && r'.direction.Outbound? then Increment(st.byProtoOut, r'.protocol.value) else st.byProtoOut)
    && st'.byProtoIn ==
       (if counts && r'.direction.Inbound? then Increment(st.byProtoIn, r'.protocol.value) else st.byProtoIn)
    && st'.openedTotal == st.openedTotal
  }

  lemma RedirectDoes(st: State, r: StreamRecord, d: Direction)
    requires r.peer in st.stats && (r.direction.Unknown? || d == r.direction)
    ensures
      var s, late := st.stats[r.peer], r.direction != d;
      var s' := s.(
        openedOut := if late && d.Outbound? then s.openedOut + 1 else s.openedOut,
        currentOut := if late && d.Outbound? then s.currentOut + 1 else s.currentOut,
        openedIn := if late && d.Inbound? then s.openedIn + 1 else s.openedIn,
        currentIn := if late && d.Inbound? then s.currentIn + 1 else s.currentIn);
      Redirect(st, r, d) == st.(
        stats := st.stats[r.peer := s'],
        outOpened := if late && d.Outbound? then st.outOpened + 1 else st.outOpened,
        inOpened := if late && d.Inbound? then st.inOpened + 1 else st.inOpened)
  {
    assert st.stats == st.stats[r.peer := st.stats[r.peer]];
  }

  lemma RebucketDoes(st: State, r: StreamRecord, protocol: Option<string>)
    requires r.peer in st.stats && (r.protocol == None || protocol == r.protocol)
    ensures
      var s := st.stats[r.peer];
      var buckets := if r.protocol != protocol then MoveBucket(s.byProtocol, protocol.value) else s.byProtocol;
      Rebucket(st, r, protocol) == st.(stats := st.stats[r.peer := s.(byProtocol := buckets)])
  {
    hide MoveBucket;
    assert st.stats == st.stats[r.peer := st.stats[r.peer]];
  }

  lemma CountOnceDoes(st: State, r: StreamRecord, protocol: Option<string>, d: Direction)
    ensures
      var counts := Countable(protocol) && !r.counted;
      CountOnce(st, r, protocol, d) == st.(
        byProto := if counts then Increment(st.byProto, protocol.value) else st.byProto,
        byProtoOut := if counts && d.Outbound? then Increment(st.byProtoOut, protocol.value) else st.byProtoOut,
        byProtoIn := if counts && d.Inbound? then Increment(st.byProtoIn, protocol.value) else st.byProtoIn)
  {
    hide Increment;
  }

  lemma RefreshDoesTotals(st: State, key: Key, seen: Seen)
    requires key in st.streams && st.streams[key].peer in st.stats
    ensures RefreshesTotals(st, key, seen, Refresh(st, key, seen))
  {
    hide RefreshCounters, Increment, Countable;
    RefreshTotalsOnly(st, st.streams[key], seen);
  }

  lemma RefreshTotalsOnly(st: State, r: StreamRecord, seen: Seen)
    requires r.peer in st.stats
    ensures
      var protocol, d := LateProtocol(r, seen), LateDirection(r, seen);
      var st' := RefreshCounters(st, r, seen);
      var late, counts := r.direction != d, Countable(protocol) && !r.counted;
      && st'.outOpened == (if late && d.Outbound? then st.outOpened + 1 else st.outOpened)
      && st'.inOpened == (if late && d.Inbound? then st.inOpened + 1 else st.inOpened)
      && st'.outClosed == st.outClosed && st'.inClosed == st.inClosed && st'.openedTotal == st.openedTotal
      && st'.byProto == (if counts then Increment(st.byProto, protocol.value) else st.byProto)
      && st'.byProtoOut == (if counts && d.Outbound? then Increment(st.byProtoOut, protocol.value) else st.byProtoOut)
      && st'.byProtoIn == (if counts && d.Inbound? then Increment(st.byProtoIn, protocol.value) else st.byProtoIn)
  {
    hide Redirect, Rebucket, CountOnce, MoveBucket, Increment, Countable;
    var protocol, d := LateProtocol(r, seen), LateDirection(r, seen);
    var st1 := Redirect(st, r, d);
    RedirectDoes(st, r, d);
    RebucketDoes(st1, r, protocol);
    CountOnceDoes(Rebucket(st1, r, protocol), r, protocol, d);
  }

  lemma RefreshDoesStats(st: State, key: Key, seen: Seen)
    requires key in st.streams && st.streams[key].peer in st.stats
    ensures RefreshesStats(st, key, seen, Refresh(st, key, seen))
  {
    var r := st.streams[key];
    var protocol, d := LateProtocol(r, seen), LateDirection(r, seen);
    hide Redirect, Rebucket, CountOnce, MoveBucket, Increment, Countable;
    var st1 := Redirect(st, r, d);
    RedirectDoes(st, r, d);
    var st2 := Rebucket(st1, r, protocol);
    RebucketDoes(st1, r, protocol);
    CountOnceDoes(st2, r, protocol, d);
    assert Refresh(st, key, seen).stats == st2.stats;
    hide Refresh;
  }

  /** All that a refresh changes when the record's peer has statistics. */
  lemma RefreshDoes(st: State, key: Key, seen: Seen)
    requires key in st.streams && st.streams[key].peer in st.stats
    ensures RefreshesStats(st, key, seen, Refresh(st, key, seen))
    ensures RefreshesTotals(st, key, seen, Refresh(st, key, seen))
  {
    hide *;
    RefreshDoesStats(st, key, seen);
    RefreshDoesTotals(st, key, seen);
  }

  lemma RefreshTally(st: State, key: Key, seen: Seen)
    requires key in st.streams
    ensures
      var r := st.streams[key];
      forall q: Query ::
        Tally(Refresh(st, key, seen).streams, q) == Tally(st.streams, q) - One(q, r) + One(q, Refreshed(r, seen))
  {
    var r := st.streams[key];
    assert Refresh(st, key, seen).streams == st.streams[key := Refreshed(r, seen)];
    hide Refresh, Tally;
    forall q: Query
      ensures
        Tally(st.streams[key := Refreshed(r, seen)], q)
        == Tally(st.streams, q) - One(q, r) + One(q, Refreshed(r, seen))
    {
      TallyReplace(st.streams, key, Refreshed(r, seen), q);
    }
  }

  lemma RefreshFlow(st: State, key: Key, seen: Seen, p: string)
    requires key in st.streams && st.streams[key].peer in st.stats
    requires FlowOf(st.streams, st.StatsOf(p), p)
    ensures
      var st' := Refresh(st, key, seen);
      FlowOf(st'.streams, st'.StatsOf(p), p)
  {
    hide Refresh, Tally, MoveBucket, Countable;
    RefreshDoesStats(st, key, seen);
    RefreshTally(st, key, seen);
  }

  lemma RefreshBuckets(st: State, key: Key, seen: Seen, p: string)
    requires key in st.streams && st.streams[key].peer in st.stats
    requires BucketsOf(st.streams, st.StatsOf(p), p)
    ensures
      var st' := Refresh(st, key, seen);
      BucketsOf(st'.streams, st'.StatsOf(p), p)
  {
    var r := st.streams[key];
    RefreshDoes(st, key, seen);
    RefreshTally(st, key, seen);
    if p == r.peer && r.protocol == None {
      TallyHas(st.streams, key, Nameless(p));
      if seen.protocol.Some? {
        MoveBucketKeeps(st.StatsOf(p).byProtocol, seen.protocol.value);
      }
    }
    hide Refresh, Tally, MoveBucket, Sum;
  }

  lemma RefreshPeerLaws(st: State, key: Key, seen: Seen, p: string)
    requires key in st.streams && st.streams[key].peer in st.stats
    requires PeerLaws(st, p)
    ensures PeerLaws(Refresh(st, key, seen), p)
  {
    RefreshFlow(st, key, seen, p);
    RefreshBuckets(st, key, seen, p);
    RefreshDoes(st, key, seen);
    RefreshTally(st, key, seen);
    hide Refresh, Tally, FlowOf, BucketsOf, MoveBucket;
  }

  lemma RefreshDirections(st: State, key: Key, seen: Seen)
    requires key in st.streams && st.streams[key].peer in st.stats && DirectionTotals(st)
    ensures DirectionTotals(Refresh(st, key, seen))
  {
    RefreshDoesTotals(st, key, seen);
    RefreshTally(st, key, seen);
    hide Refresh, Tally, Increment, Countable;
  }

  lemma RefreshProtocols(st: State, key: Key, seen: Seen)
    requires key in st.streams && st.streams[key].peer in st.stats && ProtocolTotals(st)
    ensures ProtocolTotals(Refresh(st, key, seen))
  {
    hide Refresh, Tally, Sum;
    RefreshDoesTotals(st, key, seen);
    RefreshTally(st, key, seen);
    var proto := LateProtocol(st.streams[key], seen);
    if proto.Some? {
      SumIncrement(st.byProto, proto.value);
    }
  }

  lemma RefreshKeepsInv(st: State, key: Key, seen: Seen)
    requires Inv(st) && key in st.streams
    ensures Inv(Refresh(st, key, seen))
  {
    assert PeerLaws(st, st.streams[key].peer);
    LivePeerHasStats(st, key);
    RefreshDoes(st, key, seen);
    RefreshDirections(st, key, seen);
    RefreshProtocols(st, key, seen);
    hide Refresh, PeerLaws, DirectionTotals, ProtocolTotals;
    forall p
      ensures PeerLaws(Refresh(st, key, seen), p)
    {
      RefreshPeerLaws(st, key, seen, p);
    }
  }

  // ---------------------------------------------------------------------
  // Closing
  // ---------------------------------------------------------------------

  lemma FinalizeTally(st: State, key: Key, reset: bool, now: real)
    requires key in st.streams
    ensures
      forall q: Query ::
        Tally(Finalize(st, key, reset, now).streams, q) == Tally(st.streams, q) - One(q, st.streams[key])
  {
    assert Finalize(st, key, reset, now).streams == st.streams - {key};
    hide Finalize, Tally;
    forall q: Query
      ensures Tally(st.streams - {key}, q) == Tally(st.streams, q) - One(q, st.streams[key])
    {
      TallyRemove(st.streams, key, q);
    }
  }

  /** Closing a live stream: the clamps to zero never bite. */
  lemma ClampsNeverBite(st: State, key: Key, reset: bool, now: real)
    requires key in st.streams
    requires var p := st.streams[key].peer; FlowOf(st.streams, st.StatsOf(p), p)
    ensures
      var r := st.streams[key];
      var s, s' := st.StatsOf(r.peer), Finalize(st, key, reset, now).StatsOf(r.peer);
      s' == s.(totalClosed := s.totalClosed + 1, currentOpen := s.currentOpen - 1,
               currentOut := if r.direction.Outbound? then s.currentOut - 1 else s.currentOut,
               currentIn := if r.direction.Inbound? then s.currentIn - 1 else s.currentIn,
               resets := if r.wasReset || reset then s.resets + 1 else s.resets)
  {
    var r := st.streams[key];
    TallyHas(st.streams, key, Of(r.peer));
    TallyHas(st.streams, key, Toward(r.peer, r.direction));
    hide Tally, Remember;
  }

  lemma FinalizeOthers(st: State, key: Key, reset: bool, now: real, p: string)
    requires key in st.streams
    ensures p != st.streams[key].peer ==> Finalize(st, key, reset, now).StatsOf(p) == st.StatsOf(p)
  {
    hide Remember;
  }

  lemma FinalizeFlow(st: State, key: Key, reset: bool, now: real, p: string)
    requires key in st.streams
    requires var p := st.streams[key].peer; FlowOf(st.streams, st.StatsOf(p), p)
    requires FlowOf(st.streams, st.StatsOf(p), p)
    ensures
      var st' := Finalize(st, key, reset, now);
      FlowOf(st'.streams, st'.StatsOf(p), p)
  {
    hide Finalize, Tally;
    ClampsNeverBite(st, key, reset, now);
    FinalizeTally(st, key, reset, now);
    FinalizeOthers(st, key, reset, now, p);
  }

  lemma FinalizePeerLaws(st: State, key: Key, reset: bool, now: real, p: string)
    requires key in st.streams && PeerLaws(st, p) && PeerLaws(st, st.streams[key].peer)
    ensures PeerLaws(Finalize(st, key, reset, now), p)
  {
    FinalizeFlow(st, key, reset, now, p);
    ClampsNeverBite(st, key, reset, now);
    hide Finalize, Tally, FlowOf, Sum;
    FinalizeTally(st, key, reset, now);
    FinalizeOthers(st, key, reset, now, p);
  }

  lemma FinalizeTotals(st: State, key: Key, reset: bool, now: real)
    requires key in st.streams && DirectionTotals(st) && ProtocolTotals(st)
    ensures DirectionTotals(Finalize(st, key, reset, now)) && ProtocolTotals(Finalize(st, key, reset, now))
  {
    hide Tally, Remember, Sum;
    FinalizeTally(st, key, reset, now);
  }

  lemma FinalizeMemory(st: State, key: Key, reset: bool, now: real)
    requires key in st.streams && MemoryBounded(st)
    ensures MemoryBounded(Finalize(st, key, reset, now))
  {
    RememberIsBounded(st.finalized, key, now);
    hide DistinctKeys, Remember;
  }

  lemma FinalizeKeepsInv(st: State, key: Key, reset: bool, now: real)
    requires Inv(st) && key in st.streams
    ensures Inv(Finalize(st, key, reset, now))
  {
    hide Finalize, DirectionTotals, ProtocolTotals, MemoryBounded, PeerLaws;
    FinalizeTotals(st, key, reset, now);
    FinalizeMemory(st, key, reset, now);
    forall p
      ensures PeerLaws(Finalize(st, key, reset, now), p)
    {
      assert PeerLaws(st, p) && PeerLaws(st, st.streams[key].peer);
      FinalizePeerLaws(st, key, reset, now, p);
    }
  }

  lemma CloseKeepsInv(st: State, key: Key, peer: string, seen: Seen, now: real)
    requires Inv(st) && (key in st.streams || Knows(st.finalized, key))
    ensures Inv(Close(st, key, peer, seen, now))
  {
    if key in st.streams {
      RefreshKeepsInv(st, key, seen);
      hide Inv;
      FinalizeKeepsInv(Refresh(st, key, seen), key, seen.reset, now);
    }
  }

  /** Closing conserves the counts if and only if the key is live or still remembered. */
  lemma CloseConservesExactly(st: State, key: Key, peer: string, seen: Seen, now: real)
    requires Conserved(st)
    ensures Conserved(Close(st, key, peer, seen, now)) <==> key in st.streams || Knows(st.finalized, key)
  {
    if key in st.streams {
      LivePeerHasStats(st, key);
      var st1 := Refresh(st, key, seen);
      var st' := Finalize(st1, key, seen.reset, now);
      forall p
        ensures FlowOf(st1.streams, st1.StatsOf(p), p)
      {
        RefreshFlow(st, key, seen, p);
      }
      forall p
        ensures FlowOf(st'.streams, st'.StatsOf(p), p)
      {
        FinalizeFlow(st1, key, seen.reset, now, p);
      }
      hide Refresh, Finalize, FlowOf;
    } else if !Knows(st.finalized, key) {
      var st' := Close(st, key, peer, seen, now);
      assert st'.streams == st.streams;
      hide Tally, Remember;
      assert !FlowOf(st'.streams, st'.StatsOf(peer), peer);
    }
  }

  /** A close event for a live stream takes it out, and counts the close and, if there was one, the reset. */
  lemma CloseMeans(st: State, key: Key, peer: string, seen: Seen, now: real)
    requires key in st.streams
    requires var p := st.streams[key].peer; FlowOf(st.streams, st.StatsOf(p), p)
    ensures
      var r, st' := st.streams[key], Close(st, key, peer, seen, now);
      var s, s' := st.StatsOf(r.peer), st'.StatsOf(r.peer);
      && st'.streams == st.streams - {key}
      && Knows(st'.finalized, key) == Knows(Remember(st.finalized, key, now), key)
      && s'.totalClosed == s.totalClosed + 1 && s'.currentOpen == s.currentOpen - 1
      && s'.resets == s.resets + if r.wasReset || seen.reset then 1 else 0
  {
    LivePeerHasStats(st, key);
    RefreshDoesStats(st, key, seen);
    CloseStreams(st, key, peer, seen, now);
    var r, st1 := st.streams[key], Refresh(st, key, seen);
    RefreshFlow(st, key, seen, r.peer);
    ClampsNeverBite(st1, key, seen.reset, now);
    assert Finalize(st1, key, seen.reset, now).finalized == Remember(st1.finalized, key, now) by {
      hide Remember;
    }
    hide Refresh, Finalize, FlowOf, Remember, Knows;
  }

  /** A second close event for the key just closed changes nothing at all. */
  lemma DuplicateCloseIsIgnored(
    st: State, key: Key, peer: string, seen: Seen, now: real, peer': string, seen': Seen, now': real)
    requires MemoryBounded(st)
    requires key in st.streams || !Knows(st.finalized, key)
    ensures
      var once := Close(st, key, peer, seen, now);
      Close(once, key, peer', seen', now') == once
  {
    RememberIsBounded(st.finalized, key, now);
    var once := Close(st, key, peer, seen, now);
    assert key !in once.streams;
    assert once.finalized == Remember(st.finalized, key, now) by {
      if key in st.streams {
        RefreshKeepsMemory(st, key, seen);
      }
    }
  }

  lemma RefreshKeepsMemory(st: State, key: Key, seen: Seen)
    requires key in st.streams
    ensures Refresh(st, key, seen).finalized == st.finalized
    ensures Refresh(st, key, seen).streams.Keys == st.streams.Keys
  {
    hide MoveBucket, Increment, Countable, Redirect, Rebucket;
    var r := st.streams[key];
    var st1 := Redirect(st, r, LateDirection(r, seen));
    assert st1.finalized == st.finalized by {
      RedirectKeepsMemory(st, r, LateDirection(r, seen));
    }
    RebucketKeepsMemory(st1, r, LateProtocol(r, seen));
  }

  lemma RedirectKeepsMemory(st: State, r: StreamRecord, d: Direction)
    ensures Redirect(st, r, d).finalized == st.finalized
  {
  }

  lemma RebucketKeepsMemory(st: State, r: StreamRecord, protocol: Option<string>)
    ensures Rebucket(st, r, protocol).finalized == st.finalized
  {
    hide MoveBucket;
  }

  // ---------------------------------------------------------------------
  // The sweep, disconnects and evictions
  // ---------------------------------------------------------------------

  lemma FlagTally(st: State, key: Key)
    requires key in st.streams
    ensures
      var r := st.streams[key];
      forall q: Query ::
        Tally(Flag(st, key).streams, q) == Tally(st.streams, q) - One(q, r) + One(q, r.(suspectedLeak := true))
  {
    var r := st.streams[key];
    var r' := r.(suspectedLeak := true);
    assert Flag(st, key).streams == st.streams[key := r'];
    hide Flag, Tally;
    forall q: Query
      ensures Tally(st.streams[key := r'], q) == Tally(st.streams, q) - One(q, r) + One(q, r')
    {
      TallyReplace(st.streams, key, r', q);
    }
  }

  lemma FlagPeerLaws(st: State, key: Key, p: string)
    requires key in st.streams && !st.streams[key].suspectedLeak && PeerLaws(st, p)
    ensures PeerLaws(Flag(st, key), p)
  {
    hide Flag, Tally, Sum;
    FlagTally(st, key);
    FlagStats(st, key, p);
  }

  lemma FlagStats(st: State, key: Key, p: string)
    requires key in st.streams
    ensures
      var s := st.StatsOf(p);
      Flag(st, key).StatsOf(p) == if p == st.streams[key].peer then s.(leaks := s.leaks + 1) else s
  {
  }

  lemma FlagKeepsInv(st: State, key: Key)
    requires Inv(st) && key in st.streams && !st.streams[key].suspectedLeak
    ensures Inv(Flag(st, key))
  {
    var st' := Flag(st, key);
    FlagTally(st, key);
    assert DirectionTotals(st') && ProtocolTotals(st') && MemoryBounded(st') by {
      hide Tally, Sum, PeerLaws;
    }
    hide Flag, PeerLaws, DirectionTotals, ProtocolTotals, MemoryBounded;
    forall p
      ensures PeerLaws(st', p)
    {
      FlagPeerLaws(st, key, p);
    }
  }

  lemma SweepOneKeepsInv(st: State, key: Key, look: Look, live: Option<Table>, now: real, threshold: real)
    requires Inv(st) && key in st.streams
    ensures Inv(SweepOne(st, key, look, live, now, threshold))
    ensures SweepOne(st, key, look, live, now, threshold).streams.Keys <= st.streams.Keys
  {
    RefreshKeepsInv(st, key, look.seen);
    RefreshKeepsMemory(st, key, look.seen);
    hide Inv, Refresh, Remember;
    var st1 := Refresh(st, key, look.seen);
    if Gone(st1.streams[key], look, live) {
      FinalizeKeepsInv(st1, key, look.seen.reset, now);
    } else if Suspect(st1.streams[key], now, threshold) {
      FlagKeepsInv(st1, key);
    }
  }

  lemma {:induction false} SweepKeepsInv(
    st: State, order: seq<Key>, looks: map<Key, Look>, live: Option<Table>, now: real, threshold: real)
    requires Inv(st)
    ensures Inv(Sweep(st, order, looks, live, now, threshold))
    decreases |order|
  {
    hide Inv, SweepOne;
    if order != [] {
      var key := order[0];
      if key in st.streams && key in looks {
        SweepOneKeepsInv(st, key, looks[key], live, now, threshold);
        SweepKeepsInv(SweepOne(st, key, looks[key], live, now, threshold), order[1..], looks, live, now, threshold);
      } else {
        SweepKeepsInv(st, order[1..], looks, live, now, threshold);
      }
    }
  }

  lemma {:induction false} PruneKeepsInv(st: State, order: seq<Key>, resets: set<Key>, now: real)
    requires Inv(st)
    ensures Inv(Prune(st, order, resets, now))
    decreases |order|
  {
    hide Inv, Finalize;
    if order != [] {
      if order[0] in st.streams {
        FinalizeKeepsInv(st, order[0], order[0] in resets, now);
        PruneKeepsInv(Finalize(st, order[0], order[0] in resets, now), order[1..], resets, now);
      } else {
        PruneKeepsInv(st, order[1..], resets, now);
      }
    }
  }

  lemma NoLiveNoTally(streams: Streams, p: string)
    requires Tally(streams, Of(p)) == 0
    ensures forall d :: Tally(streams, Toward(p, d)) == 0
    ensures Tally(streams, Nameless(p)) == 0 && Tally(streams, Unflagged(p)) == 0
  {
    assert Matching(streams, Of(p)) == {};
    forall k | k in streams
      ensures streams[k].peer != p
    {
      assert k !in Matching(streams, Of(p));
    }
    assert forall d :: Matching(streams, Toward(p, d)) == {};
    assert Matching(streams, Nameless(p)) == {} && Matching(streams, Unflagged(p)) == {};
  }

  lemma EvictKeepsInv(st: State, p: string)
    requires Inv(st) && Tally(st.streams, Of(p)) == 0
    ensures Inv(Evict(st, p))
  {
    hide PeerLaws, Tally, Sum;
    forall q
      ensures PeerLaws(Evict(st, p), q)
    {
      EvictPeerLaws(st, p, q);
    }
  }

  lemma EvictPeerLaws(st: State, p: string, q: string)
    requires PeerLaws(st, q) && Tally(st.streams, Of(p)) == 0
    ensures PeerLaws(Evict(st, p), q)
  {
    NoLiveNoTally(st.streams, p);
    hide Tally;
    assert Evict(st, p).StatsOf(q) == if q == p then NO_STATS else st.StatsOf(q);
  }

  /** Evicting a peer's statistics conserves the counts if and only if the peer has no live stream. */
  lemma EvictConservesExactly(st: State, p: string)
    requires Conserved(st)
    ensures Conserved(Evict(st, p)) <==> Tally(st.streams, Of(p)) == 0
  {
    var st' := Evict(st, p);
    if Tally(st.streams, Of(p)) == 0 {
      NoLiveNoTally(st.streams, p);
      hide Tally;
      forall q
        ensures FlowOf(st'.streams, st'.StatsOf(q), q)
      {
        assert FlowOf(st.streams, st.StatsOf(q), q);
        assert q != p ==> st'.StatsOf(q) == st.StatsOf(q);
      }
    } else {
      hide Tally;
      assert !FlowOf(st'.streams, st'.StatsOf(p), p);
    }
  }

  // ---------------------------------------------------------------------
  // What a sweep does to each record, whatever the order
  // ---------------------------------------------------------------------

  ghost predicate Distinct(order: seq<Key>) {
    forall i, j :: 0 <= i < j < |order| ==> order[i] != order[j]
  }

  lemma SweepOneStreams(st: State, key: Key, look: Look, live: Option<Table>, now: real, threshold: real)
    requires key in st.streams
    ensures
      var r := Refreshed(st.streams[key], look.seen);
      SweepOne(st, key, look, live, now, threshold).streams
      == if Gone(r, look, live) then st.streams - {key}
         else st.streams[key := r.(suspectedLeak := r.suspectedLeak || now - r.openedAt > threshold)]
  {
    hide RefreshCounters, Remember, ConnectionGone;
    var r := Refreshed(st.streams[key], look.seen);
    assert st.streams[key := r] - {key} == st.streams - {key};
  }

  /**
   After a sweep a record is gone exactly when its stream is dead or its connection
   no longer registered, and flagged exactly when it was or has become too old.
   */
  lemma {:induction false} SweepPerRecord(
    st: State, order: seq<Key>, looks: map<Key, Look>, live: Option<Table>, now: real, threshold: real, key: Key)
    requires Distinct(order) && key in st.streams && key in looks
    ensures
      var r := Refreshed(st.streams[key], looks[key].seen);
      var after := Sweep(st, order, looks, live, now, threshold).streams;
      if key !in order then key in after && after[key] == st.streams[key]
      else if Gone(r, looks[key], live) then key !in after
      else key in after && after[key] == r.(suspectedLeak := r.suspectedLeak || now - r.openedAt > threshold)
    decreases |order|
  {
    hide SweepOne, Refreshed, Gone;
    if order != [] {
      var k, rest := order[0], order[1..];
      assert forall i :: 0 <= i < |rest| ==> rest[i] == order[i + 1];
      assert k !in rest && Distinct(rest);
      if k in st.streams && k in looks {
        SweepOneStreams(st, k, looks[k], live, now, threshold);
        var st1 := SweepOne(st, k, looks[k], live, now, threshold);
        if key in st1.streams {
          SweepPerRecord(st1, rest, looks, live, now, threshold, key);
        } else {
          SweepAddsNothing(st1, rest, looks, live, now, threshold);
        }
      } else {
        SweepPerRecord(st, rest, looks, live, now, threshold, key);
      }
    }
  }

  lemma GoneIsOver(r: StreamRecord, look: Look, live: Option<Table>)
    ensures Gone(r, look, live) <==> IsOver(r.peer, look, live)
  {
  }

  /**
   What a sweep makes of a record, in terms of the streams, the connection table and the clock:
   it closes the stream exactly when it is over, and flags it exactly when it is too old.
   */
  lemma SweepMeans(
    st: State, order: seq<Key>, looks: map<Key, Look>, live: Option<Table>, now: real, threshold: real, key: Key)
    requires Distinct(order) && key in order && key in st.streams && key in looks
    ensures
      var r, after := st.streams[key], Sweep(st, order, looks, live, now, threshold).streams;
      && (key !in after <==> IsOver(r.peer, looks[key], live))
      && (key in after ==>
            && after[key].peer == r.peer && after[key].openedAt == r.openedAt
            && (after[key].suspectedLeak <==> r.suspectedLeak || now - r.openedAt > threshold))
  {
    var r := Refreshed(st.streams[key], looks[key].seen);
    GoneIsOver(r, looks[key], live);
    SweepPerRecord(st, order, looks, live, now, threshold, key);
    hide Sweep, Gone, IsOver;
  }

  /** A stream whose connection is registered, and that is not dead, survives every sweep. */
  lemma RegisteredStreamStays(
    st: State, order: seq<Key>, looks: map<Key, Look>, live: Table, now: real, threshold: real, key: Key)
    requires Distinct(order) && key in order && key in st.streams && key in looks && !looks[key].dead
    requires
      || (looks[key].swarmConn.Some? && looks[key].swarmConn.value in live.ids)
      || (looks[key].muxedConn.Some? && looks[key].muxedConn.value in live.ids)
    ensures key in Sweep(st, order, looks, Some(live), now, threshold).streams
  {
    SweepMeans(st, order, looks, Some(live), now, threshold, key);
    hide Sweep;
  }

  /** A stream none of whose connections is registered is closed, if it names one or its known peer is not connected. */
  lemma UnregisteredStreamIsClosed(
    st: State, order: seq<Key>, looks: map<Key, Look>, live: Table, now: real, threshold: real, key: Key)
    requires Distinct(order) && key in order && key in st.streams && key in looks
    requires looks[key].swarmConn.Some? ==> looks[key].swarmConn.value !in live.ids
    requires looks[key].muxedConn.Some? ==> looks[key].muxedConn.value !in live.ids
    requires
      || looks[key].swarmConn.Some? || looks[key].muxedConn.Some?
      || (st.streams[key].peer != "unknown" && st.streams[key].peer !in live.peers)
    ensures key !in Sweep(st, order, looks, Some(live), now, threshold).streams
  {
    SweepMeans(st, order, looks, Some(live), now, threshold, key);
    hide Sweep;
  }

  /** A stream that names no connection stays live while its peer is connected or unknown. */
  lemma NamelessStreamStays(
    st: State, order: seq<Key>, looks: map<Key, Look>, live: Table, now: real, threshold: real, key: Key)
    requires Distinct(order) && key in order && key in st.streams && key in looks && !looks[key].dead
    requires looks[key].swarmConn == None && looks[key].muxedConn == None
    requires st.streams[key].peer in live.peers || st.streams[key].peer == "unknown"
    ensures key in Sweep(st, order, looks, Some(live), now, threshold).streams
  {
    SweepMeans(st, order, looks, Some(live), now, threshold, key);
    hide Sweep;
  }

  lemma {:induction false} SweepAddsNothing(
    st: State, order: seq<Key>, looks: map<Key, Look>, live: Option<Table>, now: real, threshold: real)
    ensures Sweep(st, order, looks, live, now, threshold).streams.Keys <= st.streams.Keys
    decreases |order|
  {
    hide SweepOne, Refreshed, Gone;
    if order != [] {
      if order[0] in st.streams && order[0] in looks {
        SweepOneStreams(st, order[0], looks[order[0]], live, now, threshold);
        var st1 := SweepOne(st, order[0], looks[order[0]], live, now, threshold);
        SweepAddsNothing(st1, order[1..], looks, live, now, threshold);
      } else {
        SweepAddsNothing(st, order[1..], looks, live, now, threshold);
      }
    }
  }

  // ---------------------------------------------------------------------
  // Whole runs
  // ---------------------------------------------------------------------

  datatype Event =
    | Opened(key: Key, peer: string, seen: Seen, now: real)
    | Closed(key: Key, peer: string, seen: Seen, now: real)
    | Reported(key: Key, seen: Seen)  // a report refreshes a record it shows
    | Swept(order: seq<Key>, looks: map<Key, Look>, live: Option<Table>, now: real, threshold: real)
    | Disconnected(order: seq<Key>, resets: set<Key>, now: real)
    | Evicted(peer: string)

  function After(st: State, e: Event): State {
    match e
    case Opened(key, peer, seen, now) => Open(st, key, peer, seen, now)
    case Closed(key, peer, seen, now) => Close(st, key, peer, seen, now)
    case Reported(key, seen) => if key in st.streams then Refresh(st, key, seen) else st
    case Swept(order, looks, live, now, threshold) => Sweep(st, order, looks, live, now, threshold)
    case Disconnected(order, resets, now) => Prune(st, order, resets, now)
    case Evicted(peer) => Evict(st, peer)
  }

  /** A key opened is not live, a key closed is live or remembered, a peer evicted has no live stream. */
  ghost predicate Allowed(st: State, e: Event) {
    match e
    case Opened(key, _, _, _) => key !in st.streams
    case Closed(key, _, _, _) => key in st.streams || Knows(st.finalized, key)
    case Evicted(peer) => Tally(st.streams, Of(peer)) == 0
    case _ => true
  }

  function Run(st: State, events: seq<Event>): State
    decreases |events|
  {
    if events == [] then st else Run(After(st, events[0]), events[1..])
  }

  ghost predicate AllAllowed(st: State, events: seq<Event>)
    decreases |events|
  {
    events != [] ==> Allowed(st, events[0]) && AllAllowed(After(st, events[0]), events[1..])
  }

  lemma EventKeepsInv(st: State, e: Event)
    requires Inv(st) && Allowed(st, e)
    ensures Inv(After(st, e))
  {
    hide Inv, Open, Close, Refresh, Sweep, Prune, Evict, Tally;
    match e
    case Opened(key, peer, seen, now) => OpenKeepsInv(st, key, peer, seen, now);
    case Closed(key, peer, seen, now) => CloseKeepsInv(st, key, peer, seen, now);
    case Reported(key, seen) =>
      if key in st.streams {
        RefreshKeepsInv(st, key, seen);
      }
    case Swept(order, looks, live, now, threshold) => SweepKeepsInv(st, order, looks, live, now, threshold);
    case Disconnected(order, resets, now) => PruneKeepsInv(st, order, resets, now);
    case Evicted(peer) => EvictKeepsInv(st, peer);
  }

  lemma EmptyIsConserved()
    ensures Inv(EMPTY)
  {
    EmptyTotals();
    hide DirectionTotals, ProtocolTotals, MemoryBounded, PeerLaws;
    forall p
      ensures PeerLaws(EMPTY, p)
    {
      EmptyPeer(p);
    }
  }

  lemma EmptyTotals()
    ensures DirectionTotals(EMPTY) && ProtocolTotals(EMPTY) && MemoryBounded(EMPTY)
  {
    NothingLive();
    hide Tally;
  }

  lemma EmptyPeer(p: string)
    ensures PeerLaws(EMPTY, p)
  {
    NothingLive();
    hide Tally;
  }

  lemma NothingLive()
    ensures forall q :: Tally(map[], q) == 0
  {
    assert forall q :: Matching(map[], q) == {};
  }

  /** From the empty tracker, every run of allowed events obeys every law. */
  lemma {:induction false} RunKeepsInv(st: State, events: seq<Event>)
    requires Inv(st) && AllAllowed(st, events)
    ensures Inv(Run(st, events))
    decreases |events|
  {
    hide Inv, After, Allowed;
    if events != [] {
      EventKeepsInv(st, events[0]);
      RunKeepsInv(After(st, events[0]), events[1..]);
    }
  }

  lemma EveryRunIsConserved(events: seq<Event>)
    requires AllAllowed(EMPTY, events)
    ensures Inv(Run(EMPTY, events))
  {
    EmptyIsConserved();
    RunKeepsInv(EMPTY, events);
  }

  // ---------------------------------------------------------------------
  // When a close event raises
  // ---------------------------------------------------------------------

  ghost predicate OpenedLater(st: State) {
    forall k :: k in st.streams ==> st.streams[k].openedAt > 0.0
  }

  lemma {:induction false} SweepKeepsOpenedLater(
    st: State, order: seq<Key>, looks: map<Key, Look>, live: Option<Table>, now: real, threshold: real)
    requires OpenedLater(st)
    ensures OpenedLater(Sweep(st, order, looks, live, now, threshold))
    decreases |order|
  {
    hide SweepOne, Gone;
    if order != [] {
      if order[0] in st.streams && order[0] in looks {
        var st1 := SweepOne(st, order[0], looks[order[0]], live, now, threshold);
        SweepOneStreams(st, order[0], looks[order[0]], live, now, threshold);
        SweepKeepsOpenedLater(st1, order[1..], looks, live, now, threshold);
      } else {
        SweepKeepsOpenedLater(st, order[1..], looks, live, now, threshold);
      }
    }
  }

  lemma {:induction false} PruneKeepsOpenedLater(st: State, order: seq<Key>, resets: set<Key>, now: real)
    requires OpenedLater(st)
    ensures OpenedLater(Prune(st, order, resets, now))
    decreases |order|
  {
    if order != [] {
      if order[0] in st.streams {
        var st1 := Finalize(st, order[0], order[0] in resets, now);
        assert st1.streams == st.streams - {order[0]};
        hide Finalize;
        PruneKeepsOpenedLater(st1, order[1..], resets, now);
      } else {
        PruneKeepsOpenedLater(st, order[1..], resets, now);
      }
    }
  }

  lemma CloseStreams(st: State, key: Key, peer: string, seen: Seen, now: real)
    ensures Close(st, key, peer, seen, now).streams == st.streams - {key}
  {
    hide RefreshCounters, Remember;
    if key in st.streams {
      assert st.streams[key := Refreshed(st.streams[key], seen)] - {key} == st.streams - {key};
    } else {
      assert st.streams - {key} == st.streams;
    }
  }

  lemma EventKeepsOpenedLater(st: State, e: Event)
    requires OpenedLater(st) && (e.Opened? ==> e.now > 0.0)
    ensures OpenedLater(After(st, e))
  {
    match e {
      case Opened(key, peer, seen, now) =>
        OpenStats(st, key, peer, seen, now);
        hide Open;
      case Closed(key, peer, seen, now) =>
        CloseStreams(st, key, peer, seen, now);
        hide Close;
      case Reported(key, seen) => hide RefreshCounters;
      case Swept(order, looks, live, now, threshold) =>
        hide Sweep, OpenedLater;
        SweepKeepsOpenedLater(st, order, looks, live, now, threshold);
      case Disconnected(order, resets, now) =>
        hide Prune, OpenedLater;
        PruneKeepsOpenedLater(st, order, resets, now);
      case Evicted(_) =>
    }
  }

  lemma {:induction false} RunKeepsOpenedLater(st: State, events: seq<Event>)
    requires OpenedLater(st) && forall e :: e in events && e.Opened? ==> e.now > 0.0
    ensures OpenedLater(Run(st, events))
    decreases |events|
  {
    hide OpenedLater, After;
    if events != [] {
      assert events[0] in events;
      EventKeepsOpenedLater(st, events[0]);
      RunKeepsOpenedLater(After(st, events[0]), events[1..]);
    }
  }

  /** After any run on a clock past zero, a close event raises if and only if its key is neither live nor remembered. */
  lemma CloseRaisesExactly(events: seq<Event>, key: Key)
    requires forall e :: e in events && e.Opened? ==> e.now > 0.0
    ensures
      var st := Run(EMPTY, events);
      CloseRaises(st, key) <==> key !in st.streams && !Knows(st.finalized, key)
  {
    RunKeepsOpenedLater(EMPTY, events);
  }
}
