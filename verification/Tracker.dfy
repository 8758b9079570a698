/** Per-peer stream statistics kept by the connection tracker (connection_tracker.py). */
module Tracker {
  import opened Bytes
  import opened Tallies
  import opened TrackerMemory

  datatype Direction = Outbound | Inbound | Unknown

  datatype StreamRecord = StreamRecord(
    peer: string, openedAt: real, protocol: Option<string>, direction: Direction,
    wasReset: bool, suspectedLeak: bool, counted: bool)

  datatype PeerStats = PeerStats(
    totalOpened: int, openedOut: int, openedIn: int, totalClosed: int,
    currentOpen: int, currentOut: int, currentIn: int, maxOpen: int,
    resets: int, leaks: int, byProtocol: Counts)

  const NO_STATS := PeerStats(0, 0, 0, 0, 0, 0, 0, 0, 0, 0, map[])

  /** What looking at a stream object shows: its protocol, its direction, and whether it was reset. */
  datatype Seen = Seen(protocol: Option<string>, direction: Direction, reset: bool)

  type Streams = map<Key, StreamRecord>

  /** openedTotal is the process-wide counter of opened streams. */
  datatype State = State(
    streams: Streams, stats: map<string, PeerStats>, finalized: seq<Mark>,
    outOpened: int, inOpened: int, outClosed: int, inClosed: int,
    byProto: Counts, byProtoOut: Counts, byProtoIn: Counts, openedTotal: int)
  {
    /** setdefault */
    function StatsOf(p: string): PeerStats {
      if p in stats then stats[p] else NO_STATS
    }

    function SetStats(p: string, s: PeerStats): State {
      this.(stats := stats[p := s])
    }
  }

  const EMPTY := State(map[], map[], [], 0, 0, 0, 0, map[], map[], map[], 0)

  function Max(a: int, b: int): int {
    if a < b then b else a
  }

  /** record.protocol or "unknown" */
  function Bucket(protocol: Option<string>): string {
    if protocol.Some? && protocol.value != "" then protocol.value else "unknown"
  }

  // ---------------------------------------------------------------------
  // Opening
  // ---------------------------------------------------------------------

  function CountDirection(st: State, p: string, d: Direction): State {
    var s := st.StatsOf(p);
    match d
    case Outbound =>
      st.(outOpened := st.outOpened + 1).SetStats(p, s.(openedOut := s.openedOut + 1, currentOut := s.currentOut + 1))
    case Inbound =>
      st.(inOpened := st.inOpened + 1).SetStats(p, s.(openedIn := s.openedIn + 1, currentIn := s.currentIn + 1))
    case Unknown => st
  }

  function NewRecord(peer: string, seen: Seen, now: real): StreamRecord {
    StreamRecord(peer, now, seen.protocol, seen.direction, false, false, false)
  }

  /** opened_stream */
  function Open(st: State, key: Key, peer: string, seen: Seen, now: real): State {
    var s := st.StatsOf(peer);
    var s1 := s.(totalOpened := s.totalOpened + 1, currentOpen := s.currentOpen + 1,
                 maxOpen := Max(s.maxOpen, s.currentOpen + 1),
                 byProtocol := Increment(s.byProtocol, Bucket(seen.protocol)));
    var st1 := st.(streams := st.streams[key := NewRecord(peer, seen, now)], openedTotal := st.openedTotal + 1);
    CountDirection(st1.SetStats(peer, s1), peer, seen.direction)
  }

  // ---------------------------------------------------------------------
  // Late metadata
  // ---------------------------------------------------------------------

  /** The move of one stream out of the "unknown" bucket. */
  function MoveBucket(buckets: Counts, to: string): Counts {
    var from := "unknown";
    var lowered := if Get(buckets, from) > 0 then buckets[from := Get(buckets, from) - 1] else buckets;
    var pruned := if Get(lowered, from) == 0 then lowered - {from} else lowered;
    Increment(pruned, to)
  }

  function CountProtocol(st: State, proto: string, d: Direction): State {
    st.(byProto := Increment(st.byProto, proto),
        byProtoOut := if d.Outbound? then Increment(st.byProtoOut, proto) else st.byProtoOut,
        byProtoIn := if d.Inbound? then Increment(st.byProtoIn, proto) else st.byProtoIn)
  }

  function LateDirection(r: StreamRecord, seen: Seen): Direction {
    if r.direction.Unknown? then seen.direction else r.direction
  }

  function LateProtocol(r: StreamRecord, seen: Seen): Option<string> {
    if r.protocol == None then seen.protocol else r.protocol
  }

  predicate Countable(protocol: Option<string>) {
    protocol.Some? && protocol.value != "" && protocol.value != "unknown"
  }

  /** What _refresh_record_metadata makes of the record. */
  function Refreshed(r: StreamRecord, seen: Seen): StreamRecord {
    var protocol := LateProtocol(r, seen);
    r.(protocol := protocol, direction := LateDirection(r, seen), counted := r.counted || Countable(protocol))
  }

  /** The first part of _refresh_record_metadata: a direction found late is counted as it would have been on opening. */
  function Redirect(st: State, r: StreamRecord, d: Direction): State {
    if r.direction != d && r.peer in st.stats then CountDirection(st, r.peer, d) else st
  }

  /** The second part: a protocol found late moves the stream to its own bucket. */
  function Rebucket(st: State, r: StreamRecord, protocol: Option<string>): State {
    if r.protocol != protocol && protocol.Some? && r.peer in st.stats then
      var s := st.stats[r.peer];
      st.SetStats(r.peer, s.(byProtocol := MoveBucket(s.byProtocol, protocol.value)))
    else st
  }

  /** The third part: a stream with a real protocol enters the totals once. */
  function CountOnce(st: State, r: StreamRecord, protocol: Option<string>, d: Direction): State {
    if Countable(protocol) && !r.counted then CountProtocol(st, protocol.value, d) else st
  }

  /** What _refresh_record_metadata does to everything but the record. */
  function RefreshCounters(st: State, r: StreamRecord, seen: Seen): State {
    var protocol, d := LateProtocol(r, seen), LateDirection(r, seen);
    CountOnce(Rebucket(Redirect(st, r, d), r, protocol), r, protocol, d)
  }

  function Refresh(st: State, key: Key, seen: Seen): State
    requires key in st.streams
  {
    var r := st.streams[key];
    RefreshCounters(st, r, seen).(streams := st.streams[key := Refreshed(r, seen)])
  }

  // ---------------------------------------------------------------------
  // Closing
  // ---------------------------------------------------------------------

  /** The accounting that every way of closing a stream shares. */
  function Settle(st: State, key: Key, r: StreamRecord, now: real): State {
    var s := st.StatsOf(r.peer);
    var s1 := s.(totalClosed := s.totalClosed + 1, currentOpen := Max(0, s.currentOpen - 1),
                 currentOut := if r.direction.Outbound? then Max(0, s.currentOut - 1) else s.currentOut,
                 currentIn := if r.direction.Inbound? then Max(0, s.currentIn - 1) else s.currentIn,
                 resets := if r.wasReset then s.resets + 1 else s.resets);
    st.(streams := st.streams - {key},
        finalized := Remember(st.finalized, key, now),
        outClosed := if r.direction.Outbound? then st.outClosed + 1 else st.outClosed,
        inClosed := if r.direction.Inbound? then st.inClosed + 1 else st.inClosed)
      .SetStats(r.peer, s1)
  }

  /** _finalize_record on a live record. */
  function Finalize(st: State, key: Key, reset: bool, now: real): State
    requires key in st.streams
  {
    var r := st.streams[key];
    Settle(st, key, r.(wasReset := r.wasReset || reset), now)
  }

  /** closed_stream; a key neither live nor remembered gets a record made up on the spot. */
  function Close(st: State, key: Key, peer: string, seen: Seen, now: real): State {
    if key in st.streams then Finalize(Refresh(st, key, seen), key, seen.reset, now)
    else if Knows(st.finalized, key) then st
    else Settle(st, key, StreamRecord(peer, 0.0, None, Unknown, seen.reset, false, false), now)
  }

  /**
   Whether closed_stream raises in the end: its log message formats the duration, and a
   record without an opening time has none.
   */
  predicate CloseRaises(st: State, key: Key) {
    if key in st.streams then st.streams[key].openedAt <= 0.0 else !Knows(st.finalized, key)
  }

  // ---------------------------------------------------------------------
  // The leak sweep
  // ---------------------------------------------------------------------

  /** What the sweep finds out about one stream: the stream itself, and the connections it names. */
  datatype Look = Look(seen: Seen, dead: bool, swarmConn: Option<int>, muxedConn: Option<int>)

  /** The swarm's connection table: object ids of live connections, and the connected peers. */
  datatype Table = Table(ids: set<int>, peers: set<string>)

  /** _record_connection_gone */
  predicate ConnectionGone(r: StreamRecord, look: Look, live: Table) {
    if look.swarmConn.Some? && look.swarmConn.value in live.ids then false
    else if look.muxedConn.Some? && look.muxedConn.value in live.ids then false
    else if r.peer != "unknown" && r.peer !in live.peers then true
    else look.swarmConn.Some? || look.muxedConn.Some?
  }

  /** Whether the table has a connection that the stream names. */
  predicate Registered(look: Look, live: Table) {
    || (look.swarmConn.Some? && look.swarmConn.value in live.ids)
    || (look.muxedConn.Some? && look.muxedConn.value in live.ids)
  }

  /**
   Whether a sweep closes a stream: when it is dead; and when the table has no connection it
   names, but it names one or the table lacks its peer, if that is known.
   */
  predicate IsOver(peer: string, look: Look, live: Option<Table>) {
    || look.dead
    || (live.Some? && !Registered(look, live.value)
        && (look.swarmConn.Some? || look.muxedConn.Some? || (peer != "unknown" && peer !in live.value.peers)))
  }

  predicate Gone(r: StreamRecord, look: Look, live: Option<Table>) {
    look.dead || (live.Some? && ConnectionGone(r, look, live.value))
  }

  function Flag(st: State, key: Key): State
    requires key in st.streams
  {
    var r := st.streams[key];
    var s := st.StatsOf(r.peer);
    st.(streams := st.streams[key := r.(suspectedLeak := true)]).SetStats(r.peer, s.(leaks := s.leaks + 1))
  }

  predicate Suspect(r: StreamRecord, now: real, threshold: real) {
    !r.suspectedLeak && now - r.openedAt > threshold
  }

  /** The sweep reports this record: it stays live, is too old and was not flagged before. */
  predicate LooksLeaked(record: StreamRecord, look: Look, live: Option<Table>, now: real, threshold: real) {
    var r := Refreshed(record, look.seen);
    !Gone(r, look, live) && Suspect(r, now, threshold)
  }

  /** One turn of check_for_leaks. */
  function SweepOne(st: State, key: Key, look: Look, live: Option<Table>, now: real, threshold: real): State
    requires key in st.streams
  {
    var st1 := Refresh(st, key, look.seen);
    var r := st1.streams[key];
    if Gone(r, look, live) then Finalize(st1, key, look.seen.reset, now)
    else if Suspect(r, now, threshold) then Flag(st1, key)
    else st1
  }

  /** check_for_leaks over the records in some order. */
  function Sweep(
    st: State, order: seq<Key>, looks: map<Key, Look>, live: Option<Table>, now: real, threshold: real): State
    decreases |order|
  {
    if order == [] then st
    else
      var st1 :=
        if order[0] in st.streams && order[0] in looks then
          SweepOne(st, order[0], looks[order[0]], live, now, threshold)
        else st;
      Sweep(st1, order[1..], looks, live, now, threshold)
  }

  /** The part of disconnected that finalizes the streams of a connection, in some order. */
  function Prune(st: State, order: seq<Key>, resets: set<Key>, now: real): State
    decreases |order|
  {
    if order == [] then st
    else
      var st1 := if order[0] in st.streams then Finalize(st, order[0], order[0] in resets, now) else st;
      Prune(st1, order[1..], resets, now)
  }

  /** What _enforce_stats_capacity does to the stream statistics of a peer it evicts. */
  function Evict(st: State, p: string): State {
    st.(stats := st.stats - {p})
  }
}
