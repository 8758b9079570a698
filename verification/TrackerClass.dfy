/**
 The tracker as the object it is. Clock readings, what a look at a stream object
 shows and the swarm's connection table are arguments.
 */
module TrackerClass {
  import opened Bytes
  import opened Tallies
  import opened TrackerMemory
  import opened Tracker
  import opened TrackerLaws

  class ConnectionStatsTracker {
    var streams: Streams
    var peerStreamStats: map<string, PeerStats>
    var finalizedKeys: seq<Mark>
    var totalOutboundOpened: int
    var totalInboundOpened: int
    var totalOutboundClosed: int
    var totalInboundClosed: int
    var totalByProtocol: Counts
    var totalByProtocolOutbound: Counts
    var totalByProtocolInbound: Counts
    var openedTotal: int

    function Now(): State
      reads this
    {
      State(streams, peerStreamStats, finalizedKeys,
            totalOutboundOpened, totalInboundOpened, totalOutboundClosed, totalInboundClosed,
            totalByProtocol, totalByProtocolOutbound, totalByProtocolInbound, openedTotal)
    }

    constructor ()
      ensures Now() == EMPTY
    {
      streams, peerStreamStats, finalizedKeys := map[], map[], [];
      totalOutboundOpened, totalInboundOpened, totalOutboundClosed, totalInboundClosed := 0, 0, 0, 0;
      totalByProtocol, totalByProtocolOutbound, totalByProtocolInbound, openedTotal := map[], map[], map[], 0;
    }

    /** What opened_stream does to the statistics of the peer and to the direction totals. */
    method CountOpened(peerStats: PeerStats, protocol: Option<string>, d: Direction) returns (stats: PeerStats)
      modifies this`totalOutboundOpened, this`totalInboundOpened
      ensures totalOutboundOpened == if d.Outbound? then old(totalOutboundOpened) + 1 else old(totalOutboundOpened)
      ensures totalInboundOpened == if d.Inbound? then old(totalInboundOpened) + 1 else old(totalInboundOpened)
      ensures stats == OpenedStats(peerStats, protocol, d)
    {
      hide Increment, Bucket;
      stats := peerStats.(totalOpened := peerStats.totalOpened + 1, currentOpen := peerStats.currentOpen + 1);
      stats := stats.(maxOpen := Max(stats.maxOpen, stats.currentOpen));
      if d.Outbound? {
        totalOutboundOpened := totalOutboundOpened + 1;
        stats := stats.(openedOut := stats.openedOut + 1, currentOut := stats.currentOut + 1);
      } else if d.Inbound? {
        totalInboundOpened := totalInboundOpened + 1;
        stats := stats.(openedIn := stats.openedIn + 1, currentIn := stats.currentIn + 1);
      }
      stats := stats.(byProtocol := Increment(stats.byProtocol, Bucket(protocol)));
    }

    /** opened_stream */
    method OpenedStream(key: Key, peer: string, seen: Seen, now: real)
      modifies this
      ensures Now() == Open(old(Now()), key, peer, seen, now)
    {
      hide Open, OpenedStats;
      ghost var before := Now();
      var record := NewRecord(peer, seen, now);
      streams := streams[key := record];
      var stats := if peer in peerStreamStats then peerStreamStats[peer] else NO_STATS;
      stats := CountOpened(stats, record.protocol, record.direction);
      peerStreamStats := peerStreamStats[peer := stats];
      openedTotal := openedTotal + 1;
      OpenAtOnce(before, key, peer, seen, now);
    }

    /** _refresh_record_metadata; the record is returned as it is afterwards. */
    method RefreshRecordMetadata(record: StreamRecord, seen: Seen) returns (r: StreamRecord)
      modifies this
      ensures r == Refreshed(record, seen)
      ensures Now() == RefreshCounters(old(Now()), record, seen)
      ensures streams == old(streams)
    {
      hide MoveBucket, Increment, Redirect, Rebucket, CountProtocol;
      NoRedirect(Now(), record);
      r := record;
      if record.protocol == None {
        r := r.(protocol := seen.protocol);
      }
      if record.direction.Unknown? {
        r := r.(direction := seen.direction);
        CountLateDirection(record, r.direction);
      }
      MoveLateProtocol(record, r.protocol);
      if Countable(r.protocol) && !r.counted {
        CountInTotals(r.protocol.value, r.direction);
        r := r.(counted := true);
      }
    }

    method MoveLateProtocol(record: StreamRecord, protocol: Option<string>)
      modifies this
      ensures Now() == Rebucket(old(Now()), record, protocol)
      ensures streams == old(streams)
    {
      hide MoveBucket;
      if record.protocol != protocol && protocol.Some? && record.peer in peerStreamStats {
        var stats := peerStreamStats[record.peer];
        stats := stats.(byProtocol := MoveBucket(stats.byProtocol, protocol.value));
        peerStreamStats := peerStreamStats[record.peer := stats];
      }
    }

    method CountLateDirection(record: StreamRecord, d: Direction)
      modifies this
      ensures Now() == Redirect(old(Now()), record, d)
      ensures streams == old(streams)
    {
      if record.direction != d && record.peer in peerStreamStats {
        var stats := peerStreamStats[record.peer];
        if d.Outbound? {
          totalOutboundOpened := totalOutboundOpened + 1;
          stats := stats.(openedOut := stats.openedOut + 1, currentOut := stats.currentOut + 1);
          peerStreamStats := peerStreamStats[record.peer := stats];
        } else if d.Inbound? {
          totalInboundOpened := totalInboundOpened + 1;
          stats := stats.(openedIn := stats.openedIn + 1, currentIn := stats.currentIn + 1);
          peerStreamStats := peerStreamStats[record.peer := stats];
        }
      }
    }

    method CountInTotals(proto: string, d: Direction)
      modifies this
      ensures Now() == CountProtocol(old(Now()), proto, d)
      ensures streams == old(streams)
    {
      totalByProtocol := Increment(totalByProtocol, proto);
      if d.Outbound? {
        totalByProtocolOutbound := Increment(totalByProtocolOutbound, proto);
      } else if d.Inbound? {
        totalByProtocolInbound := Increment(totalByProtocolInbound, proto);
      }
    }

    /** _mark_finalized: the loop over the entries stops at the first one not expired. */
    method MarkFinalized(key: Key, now: real)
      modifies this`finalizedKeys
      ensures finalizedKeys == Remember(old(finalizedKeys), key, now)
    {
      var marks := Put(finalizedKeys, key, now);
      ghost var all := marks;
      while marks != [] && Expired(marks[0], now)
        invariant DropExpired(marks, now) == DropExpired(all, now)
      {
        marks := marks[1..];
      }
      if |marks| > MAX_FINALIZED {
        marks := marks[1..];
      }
      finalizedKeys := marks;
    }

    /** What a close does to the statistics of the peer and to the direction totals. */
    method CountClosed(peerStats: PeerStats, record: StreamRecord) returns (stats: PeerStats)
      modifies this`totalOutboundClosed, this`totalInboundClosed
      ensures totalOutboundClosed
           == if record.direction.Outbound? then old(totalOutboundClosed) + 1 else old(totalOutboundClosed)
      ensures totalInboundClosed
           == if record.direction.Inbound? then old(totalInboundClosed) + 1 else old(totalInboundClosed)
      ensures stats == ClosedStats(peerStats, record)
    {
      stats := peerStats.(totalClosed := peerStats.totalClosed + 1);
      stats := stats.(currentOpen := Max(0, stats.currentOpen - 1));
      if record.direction.Outbound? {
        totalOutboundClosed := totalOutboundClosed + 1;
        stats := stats.(currentOut := Max(0, stats.currentOut - 1));
      } else if record.direction.Inbound? {
        totalInboundClosed := totalInboundClosed + 1;
        stats := stats.(currentIn := Max(0, stats.currentIn - 1));
      }
      if record.wasReset {
        stats := stats.(resets := stats.resets + 1);
      }
    }

    /** The accounting of a close, shared by closed_stream and _finalize_record. */
    method SettleRecord(key: Key, record: StreamRecord, now: real)
      modifies this
      ensures Now() == Settle(old(Now()), key, record, now)
    {
      hide Remember, Settle, ClosedStats;
      ghost var before := Now();
      streams := streams - {key};
      var stats := if record.peer in peerStreamStats then peerStreamStats[record.peer] else NO_STATS;
      stats := CountClosed(stats, record);
      peerStreamStats := peerStreamStats[record.peer := stats];
      MarkFinalized(key, now);
      SettleAtOnce(before, key, record, now);
    }

    /** closed_stream; raised tells of the exception from formatting a missing duration, after all else is done. */
    method ClosedStream(key: Key, peer: string, seen: Seen, now: real) returns (raised: bool)
      modifies this
      ensures Now() == Close(old(Now()), key, peer, seen, now)
      ensures raised <==> CloseRaises(old(Now()), key)
    {
      hide RefreshCounters, Settle;
      var record;
      if key !in streams {
        if Knows(finalizedKeys, key) {
          return false;
        }
        record := StreamRecord(peer, 0.0, None, Unknown, false, false, false);
      } else {
        record := streams[key];
        streams := streams - {key};
        record := RefreshRecordMetadata(record, seen);
      }
      var duration := if record.openedAt > 0.0 then Some(now - record.openedAt) else None;
      if seen.reset {
        record := record.(wasReset := true);
      }
      if key in old(streams) {
        PoppedFirst(old(Now()), key, peer, record, seen, now);
      }
      SettleRecord(key, record, now);
      raised := duration == None;
    }

    /** _finalize_record on a live record. */
    method FinalizeRecord(key: Key, reset: bool, now: real)
      requires key in streams
      modifies this
      ensures Now() == Finalize(old(Now()), key, reset, now)
    {
      var record := streams[key];
      if reset {
        record := record.(wasReset := true);
      }
      SettleRecord(key, record, now);
    }

    /** check_for_leaks; order is the order in which the records were visited. */
    method CheckForLeaks(looks: map<Key, Look>, live: Option<Table>, now: real, threshold: real)
      returns (leaked: seq<Key>, ghost order: seq<Key>)
      requires streams.Keys <= looks.Keys
      modifies this
      ensures Distinct(order) && (forall k :: k in order <==> k in old(streams))
      ensures Now() == Sweep(old(Now()), order, looks, live, now, threshold)
      ensures Distinct(leaked)
      ensures forall k :: k in leaked <==>
        k in old(streams) && k in looks && LooksLeaked(old(streams)[k], looks[k], live, now, threshold)
      ensures forall k :: k in streams <==> k in old(streams) && !IsOver(old(streams)[k].peer, looks[k], live)
      ensures forall k :: k in leaked <==>
        && k in streams && k in old(streams)
        && !old(streams)[k].suspectedLeak && now - old(streams)[k].openedAt > threshold
    {
      leaked, order := [], [];
      ghost var before := Now();
      var todo := streams.Keys;
      while todo != {}
        invariant Distinct(order) && (forall k :: k in order <==> k in before.streams && k !in todo)
        invariant todo <= before.streams.Keys
        invariant forall k :: k in todo ==> k in streams && streams[k] == before.streams[k]
        invariant Now() == Sweep(before, order, looks, live, now, threshold)
        invariant Distinct(leaked)
        invariant forall k :: k in leaked <==>
          k in before.streams && k !in todo && LooksLeaked(before.streams[k], looks[k], live, now, threshold)
        decreases todo
      {
        hide Sweep, SweepOne, Refreshed, Gone, Suspect, LooksLeaked, Distinct;
        var key :| key in todo;
        ghost var st := Now();
        var flagged := SweepRecord(key, looks[key], live, now, threshold);
        DistinctSnoc(order, key);
        if flagged {
          DistinctSnoc(leaked, key);
          leaked := leaked + [key];
        }
        SweepSnoc(before, order, key, looks, live, now, threshold);
        SweepOneStreams(st, key, looks[key], live, now, threshold);
        order := order + [key];
        todo := todo - {key};
      }
      SweepLeaves(before, order, looks, live, now, threshold);
      hide Sweep, Refreshed, Gone, IsOver, LooksLeaked, Distinct;
    }

    /** One turn of that loop; the result says whether the record was reported as a suspected leak. */
    method SweepRecord(key: Key, look: Look, live: Option<Table>, now: real, threshold: real) returns (flagged: bool)
      requires key in streams
      modifies this
      ensures Now() == SweepOne(old(Now()), key, look, live, now, threshold)
      ensures flagged <==> LooksLeaked(old(streams)[key], look, live, now, threshold)
    {
      hide RefreshCounters, Finalize;
      flagged := false;
      var record := RefreshRecordMetadata(streams[key], look.seen);
      streams := streams[key := record];
      if look.dead {
        FinalizeRecord(key, look.seen.reset, now);
      } else if live.Some? && ConnectionGone(record, look, live.value) {
        FinalizeRecord(key, look.seen.reset, now);
      } else if !record.suspectedLeak && now - record.openedAt > threshold {
        streams := streams[key := record.(suspectedLeak := true)];
        flagged := true;
        var stats := if record.peer in peerStreamStats then peerStreamStats[record.peer] else NO_STATS;
        peerStreamStats := peerStreamStats[record.peer := stats.(leaks := stats.leaks + 1)];
      }
    }

    /** The loop of disconnected over the streams of the connection. */
    method PruneConnection(onConn: set<Key>, resets: set<Key>, now: real) returns (ghost order: seq<Key>)
      modifies this
      ensures Distinct(order) && (forall k :: k in order <==> k in old(streams) && k in onConn)
      ensures Now() == Prune(old(Now()), order, resets, now)
      ensures streams == old(streams) - onConn
    {
      hide Prune, Finalize;
      order := [];
      ghost var before := Now();
      var todo := streams.Keys * onConn;
      ghost var all := todo;
      PruneNothing(before, resets, now);
      while todo != {}
        invariant Distinct(order) && (forall k :: k in order <==> k in all && k !in todo)
        invariant todo <= all && streams == before.streams - (all - todo)
        invariant Now() == Prune(before, order, resets, now)
        decreases todo
      {
        var key :| key in todo;
        PruneSnoc(before, order, key, resets, now);
        FinalizeStreams(Now(), key, key in resets, now);
        FinalizeRecord(key, key in resets, now);
        order := order + [key];
        assert all - (todo - {key}) == all - todo + {key};
        todo := todo - {key};
      }
      assert before.streams - (all - {}) == before.streams - onConn;
    }
  }

  lemma DistinctSnoc(order: seq<Key>, key: Key)
    requires Distinct(order) && key !in order
    ensures Distinct(order + [key])
    ensures forall k :: k in order + [key] <==> k in order || k == key
  {
  }

  /** Which streams a sweep of all live ones leaves, and which of them it reports. */
  lemma SweepLeaves(
    st: State, order: seq<Key>, looks: map<Key, Look>, live: Option<Table>, now: real, threshold: real)
    requires Distinct(order) && (forall k :: k in order <==> k in st.streams) && st.streams.Keys <= looks.Keys
    ensures forall k ::
      k in Sweep(st, order, looks, live, now, threshold).streams
      <==> k in st.streams && !IsOver(st.streams[k].peer, looks[k], live)
    ensures forall k :: k in st.streams ==>
      LooksLeaked(st.streams[k], looks[k], live, now, threshold)
      == (!IsOver(st.streams[k].peer, looks[k], live)
          && !st.streams[k].suspectedLeak && now - st.streams[k].openedAt > threshold)
  {
    hide Sweep, IsOver, Distinct;
    SweepAddsNothing(st, order, looks, live, now, threshold);
    forall k | k in st.streams
      ensures
        k !in Sweep(st, order, looks, live, now, threshold).streams
        <==> IsOver(st.streams[k].peer, looks[k], live)
      ensures
        LooksLeaked(st.streams[k], looks[k], live, now, threshold)
        == (!IsOver(st.streams[k].peer, looks[k], live)
            && !st.streams[k].suspectedLeak && now - st.streams[k].openedAt > threshold)
    {
      SweepMeans(st, order, looks, live, now, threshold, k);
      GoneIsOver(Refreshed(st.streams[k], looks[k].seen), looks[k], live);
      hide Gone;
    }
  }

  lemma PruneNothing(st: State, resets: set<Key>, now: real)
    ensures Prune(st, [], resets, now) == st
  {
  }

  lemma FinalizeStreams(st: State, key: Key, reset: bool, now: real)
    requires key in st.streams
    ensures Finalize(st, key, reset, now).streams == st.streams - {key}
  {
  }

  /** The statistics of a peer after one more stream was opened. */
  function OpenedStats(s: PeerStats, protocol: Option<string>, d: Direction): PeerStats {
    s.(totalOpened := s.totalOpened + 1, currentOpen := s.currentOpen + 1,
       maxOpen := Max(s.maxOpen, s.currentOpen + 1),
       openedOut := if d.Outbound? then s.openedOut + 1 else s.openedOut,
       currentOut := if d.Outbound? then s.currentOut + 1 else s.currentOut,
       openedIn := if d.Inbound? then s.openedIn + 1 else s.openedIn,
       currentIn := if d.Inbound? then s.currentIn + 1 else s.currentIn,
       byProtocol := Increment(s.byProtocol, Bucket(protocol)))
  }

  /** opened_stream as one update of each table. */
  lemma OpenAtOnce(st: State, key: Key, peer: string, seen: Seen, now: real)
    ensures
      Open(st, key, peer, seen, now) == st.(
        streams := st.streams[key := NewRecord(peer, seen, now)],
        openedTotal := st.openedTotal + 1,
        outOpened := if seen.direction.Outbound? then st.outOpened + 1 else st.outOpened,
        inOpened := if seen.direction.Inbound? then st.inOpened + 1 else st.inOpened,
        stats := st.stats[peer := OpenedStats(st.StatsOf(peer), seen.protocol, seen.direction)])
  {
    hide Increment, Bucket, Max;
  }

  /** The statistics of a peer after one of its streams was closed. */
  function ClosedStats(s: PeerStats, r: StreamRecord): PeerStats {
    s.(totalClosed := s.totalClosed + 1, currentOpen := Max(0, s.currentOpen - 1),
       currentOut := if r.direction.Outbound? then Max(0, s.currentOut - 1) else s.currentOut,
       currentIn := if r.direction.Inbound? then Max(0, s.currentIn - 1) else s.currentIn,
       resets := if r.wasReset then s.resets + 1 else s.resets)
  }

  lemma SettleAtOnce(st: State, key: Key, r: StreamRecord, now: real)
    ensures
      Settle(st, key, r, now) == st.(
        streams := st.streams - {key},
        finalized := Remember(st.finalized, key, now),
        outClosed := if r.direction.Outbound? then st.outClosed + 1 else st.outClosed,
        inClosed := if r.direction.Inbound? then st.inClosed + 1 else st.inClosed,
        stats := st.stats[r.peer := ClosedStats(st.StatsOf(r.peer), r)])
  {
    hide Remember, Max;
  }

  lemma NoRedirect(st: State, r: StreamRecord)
    ensures Redirect(st, r, r.direction) == st
  {
  }

  lemma CountDirectionIgnoresStreams(st: State, streams: Streams, p: string, d: Direction)
    ensures CountDirection(st.(streams := streams), p, d) == CountDirection(st, p, d).(streams := streams)
  {
  }

  lemma RedirectIgnoresStreams(st: State, streams: Streams, r: StreamRecord, d: Direction)
    ensures Redirect(st.(streams := streams), r, d) == Redirect(st, r, d).(streams := streams)
  {
    CountDirectionIgnoresStreams(st, streams, r.peer, d);
    hide CountDirection;
  }

  lemma CountOnceIgnoresStreams(st: State, streams: Streams, r: StreamRecord, protocol: Option<string>, d: Direction)
    ensures CountOnce(st.(streams := streams), r, protocol, d) == CountOnce(st, r, protocol, d).(streams := streams)
  {
    hide Increment, Countable;
  }

  lemma RebucketIgnoresStreams(st: State, streams: Streams, r: StreamRecord, protocol: Option<string>)
    ensures Rebucket(st.(streams := streams), r, protocol) == Rebucket(st, r, protocol).(streams := streams)
  {
    hide MoveBucket;
  }

  /** The counters a refresh changes do not depend on the table of live records. */
  lemma RefreshIgnoresStreams(st: State, streams: Streams, r: StreamRecord, seen: Seen)
    ensures RefreshCounters(st.(streams := streams), r, seen) == RefreshCounters(st, r, seen).(streams := streams)
  {
    hide Redirect, Rebucket, CountOnce;
    var protocol, d := LateProtocol(r, seen), LateDirection(r, seen);
    RedirectIgnoresStreams(st, streams, r, d);
    var st1 := Redirect(st, r, d);
    RebucketIgnoresStreams(st1, streams, r, protocol);
    CountOnceIgnoresStreams(Rebucket(st1, r, protocol), streams, r, protocol, d);
  }

  lemma SettleIgnoresKey(st: State, key: Key, r: StreamRecord, now: real, streams: Streams)
    requires streams - {key} == st.streams - {key}
    ensures Settle(st.(streams := streams), key, r, now) == Settle(st, key, r, now)
  {
    hide Remember;
  }

  /** Popping the record before refreshing it, as closed_stream does, comes to the same as popping it after. */
  lemma PoppedFirst(st: State, key: Key, peer: string, record: StreamRecord, seen: Seen, now: real)
    requires key in st.streams
    requires record == Refreshed(st.streams[key], seen).(wasReset := st.streams[key].wasReset || seen.reset)
    ensures
      Close(st, key, peer, seen, now)
      == Settle(RefreshCounters(st.(streams := st.streams - {key}), st.streams[key], seen), key, record, now)
  {
    hide RefreshCounters, Settle;
    var r := st.streams[key];
    var after := RefreshCounters(st, r, seen);
    var kept, popped := st.streams[key := Refreshed(r, seen)], st.streams - {key};
    RefreshIgnoresStreams(st, popped, r, seen);
    assert kept - {key} == popped - {key} == popped;
    SettleIgnoresKey(after.(streams := popped), key, record, now, kept);
  }

  lemma {:induction false} SweepSnoc(
    st: State, order: seq<Key>, key: Key, looks: map<Key, Look>, live: Option<Table>, now: real, threshold: real)
    requires key in looks && key in Sweep(st, order, looks, live, now, threshold).streams
    ensures
      Sweep(st, order + [key], looks, live, now, threshold)
      == SweepOne(Sweep(st, order, looks, live, now, threshold), key, looks[key], live, now, threshold)
    decreases |order|
  {
    hide SweepOne;
    if order == [] {
      assert [] + [key] == [key] && [key][1..] == [];
    } else {
      assert (order + [key])[1..] == order[1..] + [key];
      var st1 :=
        if order[0] in st.streams && order[0] in looks then
          SweepOne(st, order[0], looks[order[0]], live, now, threshold)
        else st;
      SweepSnoc(st1, order[1..], key, looks, live, now, threshold);
    }
  }

  lemma {:induction false} PruneSnoc(st: State, order: seq<Key>, key: Key, resets: set<Key>, now: real)
    requires key in Prune(st, order, resets, now).streams
    ensures
      Prune(st, order + [key], resets, now) == Finalize(Prune(st, order, resets, now), key, key in resets, now)
    decreases |order|
  {
    hide Finalize;
    if order == [] {
      assert [] + [key] == [key] && [key][1..] == [];
    } else {
      assert (order + [key])[1..] == order[1..] + [key];
      var st1 := if order[0] in st.streams then Finalize(st, order[0], order[0] in resets, now) else st;
      PruneSnoc(st1, order[1..], key, resets, now);
    }
  }
}
