/**
 Every stream is flagged as a suspected leak at most once and enters the totals by
 protocol at most once, in every run of the tracker. A ledger kept beside the
 tracker gives every open event a serial number of its own and writes down which
 streams were flagged and which were counted; the tracker's counters turn out to be
 the sizes of these sets.
 */
module TrackerLedger {
  import opened Bytes
  import opened Tallies
  import opened TrackerMemory
  import opened Tracker
  import opened TrackerLaws

  /** How a stream entered the totals. */
  datatype Entry = Entry(protocol: string, direction: Direction)

  /** ids holds the serial numbers of the live streams; flagged remembers the peer. */
  datatype Ledger = Ledger(ids: map<Key, nat>, next: nat, flagged: map<nat, string>, counted: map<nat, Entry>)

  const BLANK := Ledger(map[], 0, map[], map[])

  ghost function FlaggedOf(led: Ledger, p: string): set<nat> {
    set n | n in led.flagged && led.flagged[n] == p
  }

  ghost function CountedAs(led: Ledger, b: string): set<nat> {
    set n | n in led.counted && led.counted[n].protocol == b
  }

  ghost function CountedToward(led: Ledger, b: string, d: Direction): set<nat> {
    set n | n in led.counted && led.counted[n] == Entry(b, d)
  }

  // ---------------------------------------------------------------------
  // The ledger beside each event
  // ---------------------------------------------------------------------

  function NoteOpen(led: Ledger, key: Key): Ledger {
    led.(ids := led.ids[key := led.next], next := led.next + 1)
  }

  function NoteClose(led: Ledger, key: Key): Ledger {
    led.(ids := led.ids - {key})
  }

  /** A refresh counts the stream when it raises the totals. */
  function NoteRefresh(led: Ledger, key: Key, r: StreamRecord, seen: Seen): Ledger
    requires key in led.ids
  {
    var protocol := LateProtocol(r, seen);
    if Countable(protocol) && !r.counted then
      led.(counted := led.counted[led.ids[key] := Entry(protocol.value, LateDirection(r, seen))])
    else led
  }

  function NoteFlag(led: Ledger, key: Key, r: StreamRecord): Ledger
    requires key in led.ids
  {
    led.(flagged := led.flagged[led.ids[key] := r.peer])
  }

  ghost function NoteSweepOne(
    st: State, led: Ledger, key: Key, look: Look, live: Option<Table>, now: real, threshold: real): Ledger
    requires key in st.streams && key in led.ids
  {
    var r := Refreshed(st.streams[key], look.seen);
    var led1 := NoteRefresh(led, key, st.streams[key], look.seen);
    if Gone(r, look, live) then NoteClose(led1, key)
    else if Suspect(r, now, threshold) then NoteFlag(led1, key, r)
    else led1
  }

  ghost function NoteSweep(
    st: State, led: Ledger, order: seq<Key>, looks: map<Key, Look>, live: Option<Table>, now: real, threshold: real):
    Ledger
    decreases |order|
  {
    if order == [] then led
    else if order[0] in st.streams && order[0] in looks && order[0] in led.ids then
      NoteSweep(SweepOne(st, order[0], looks[order[0]], live, now, threshold),
                NoteSweepOne(st, led, order[0], looks[order[0]], live, now, threshold),
                order[1..], looks, live, now, threshold)
    else NoteSweep(st, led, order[1..], looks, live, now, threshold)
  }

  /** The flags raised for a peer are forgotten with its statistics. */
  ghost function NoteEvict(led: Ledger, p: string): Ledger {
    led.(flagged := led.flagged - FlaggedOf(led, p))
  }

  ghost function Note(st: State, led: Ledger, e: Event): Ledger {
    match e
    case Opened(key, _, _, _) => NoteOpen(led, key)
    case Closed(key, _, seen, _) =>
      NoteClose(if key in st.streams && key in led.ids then NoteRefresh(led, key, st.streams[key], seen) else led, key)
    case Reported(key, seen) =>
      if key in st.streams && key in led.ids then NoteRefresh(led, key, st.streams[key], seen) else led
    case Swept(order, looks, live, now, threshold) => NoteSweep(st, led, order, looks, live, now, threshold)
    case Disconnected(order, _, _) => led.(ids := led.ids - set k | k in order)
    case Evicted(peer) => NoteEvict(led, peer)
  }

  ghost function LedgerOf(st: State, led: Ledger, events: seq<Event>): Ledger
    decreases |events|
  {
    if events == [] then led else LedgerOf(After(st, events[0]), Note(st, led, events[0]), events[1..])
  }

  // ---------------------------------------------------------------------
  // The counters are exact
  // ---------------------------------------------------------------------

  /** Live streams have serial numbers of their own, and their records show what the ledger says. */
  ghost predicate Numbered(st: State, led: Ledger) {
    && led.ids.Keys == st.streams.Keys
    && (forall k :: k in led.ids ==> led.ids[k] < led.next)
    && (forall j, k :: j in led.ids && k in led.ids && led.ids[j] == led.ids[k] ==> j == k)
    && (forall n :: n in led.flagged || n in led.counted ==> n < led.next)
    && (forall k :: k in led.ids && led.ids[k] in led.flagged ==> st.streams[k].suspectedLeak)
    && (forall k :: k in led.ids && led.ids[k] in led.counted ==> st.streams[k].counted)
  }

  /** A peer's leaks are the different streams of it that were flagged. */
  ghost predicate LeaksExact(st: State, led: Ledger) {
    forall p :: st.StatsOf(p).leaks == |FlaggedOf(led, p)|
  }

  /** The totals by protocol are the different streams that were counted under it, in all and either way. */
  ghost predicate TotalsExact(st: State, led: Ledger) {
    forall b ::
      && Get(st.byProto, b) == |CountedAs(led, b)|
      && Get(st.byProtoOut, b) == |CountedToward(led, b, Outbound)|
      && Get(st.byProtoIn, b) == |CountedToward(led, b, Inbound)|
  }

  ghost predicate Exact(st: State, led: Ledger) {
    Numbered(st, led) && LeaksExact(st, led) && TotalsExact(st, led)
  }

  lemma SameTotals(st: State, led: Ledger, st': State, led': Ledger)
    requires TotalsExact(st, led) && led'.counted == led.counted
    requires st'.byProto == st.byProto && st'.byProtoOut == st.byProtoOut && st'.byProtoIn == st.byProtoIn
    ensures TotalsExact(st', led')
  {
    assert forall b :: CountedAs(led', b) == CountedAs(led, b);
    assert forall b, d :: CountedToward(led', b, d) == CountedToward(led, b, d);
  }

  lemma SameLeaks(st: State, led: Ledger, st': State, led': Ledger)
    requires LeaksExact(st, led) && led'.flagged == led.flagged
    requires forall p :: st'.StatsOf(p).leaks == st.StatsOf(p).leaks
    ensures LeaksExact(st', led')
  {
    assert forall p :: FlaggedOf(led', p) == FlaggedOf(led, p);
  }

  lemma OpenStaysExact(st: State, led: Ledger, key: Key, peer: string, seen: Seen, now: real)
    requires Exact(st, led)
    ensures Exact(Open(st, key, peer, seen, now), NoteOpen(led, key))
  {
    OpenStats(st, key, peer, seen, now);
    var st', led' := Open(st, key, peer, seen, now), NoteOpen(led, key);
    hide Open;
    assert Numbered(st', led');
    hide Numbered;
    SameTotals(st, led, st', led');
    SameLeaks(st, led, st', led');
  }

  // ---------------------------------------------------------------------
  // Refreshing and counting
  // ---------------------------------------------------------------------

  lemma RedirectKeepsTotals(st: State, r: StreamRecord, d: Direction)
    ensures
      var st' := Redirect(st, r, d);
      st'.byProto == st.byProto && st'.byProtoOut == st.byProtoOut && st'.byProtoIn == st.byProtoIn
    ensures forall p :: Redirect(st, r, d).StatsOf(p).leaks == st.StatsOf(p).leaks
  {
  }

  lemma RebucketKeepsTotals(st: State, r: StreamRecord, protocol: Option<string>)
    ensures
      var st' := Rebucket(st, r, protocol);
      st'.byProto == st.byProto && st'.byProtoOut == st.byProtoOut && st'.byProtoIn == st.byProtoIn
    ensures forall p :: Rebucket(st, r, protocol).StatsOf(p).leaks == st.StatsOf(p).leaks
  {
    hide MoveBucket;
  }

  lemma CountOnceKeepsStats(st: State, r: StreamRecord, protocol: Option<string>, d: Direction)
    ensures CountOnce(st, r, protocol, d).stats == st.stats
  {
    hide Increment, Countable;
  }

  /** A refresh leaves every peer's leaks alone, and changes the totals by its own stream at most. */
  lemma RefreshEffect(st: State, key: Key, seen: Seen)
    requires key in st.streams
    ensures
      var r, st' := st.streams[key], Refresh(st, key, seen);
      var protocol, d := LateProtocol(r, seen), LateDirection(r, seen);
      var counts := Countable(protocol) && !r.counted;
      && st'.streams == st.streams[key := Refreshed(r, seen)]
      && (forall p :: st'.StatsOf(p).leaks == st.StatsOf(p).leaks)
      && st'.byProto == (if counts then Increment(st.byProto, protocol.value) else st.byProto)
      && st'.byProtoOut == (if counts && d.Outbound? then Increment(st.byProtoOut, protocol.value) else st.byProtoOut)
      && st'.byProtoIn == (if counts && d.Inbound? then Increment(st.byProtoIn, protocol.value) else st.byProtoIn)
  {
    hide Redirect, Rebucket, CountOnce, Increment, Countable, Refreshed, LateProtocol, LateDirection;
    var r := st.streams[key];
    var protocol, d := LateProtocol(r, seen), LateDirection(r, seen);
    var st1 := Redirect(st, r, d);
    RedirectKeepsTotals(st, r, d);
    var st2 := Rebucket(st1, r, protocol);
    RebucketKeepsTotals(st1, r, protocol);
    CountOnceKeepsStats(st2, r, protocol, d);
    CountOnceDoes(st2, r, protocol, d);
  }

  lemma CountedGrows(led: Ledger, n: nat, e: Entry, b: string)
    requires n !in led.counted
    ensures
      var led' := led.(counted := led.counted[n := e]);
      && |CountedAs(led', b)| == |CountedAs(led, b)| + (if b == e.protocol then 1 else 0)
      && forall d ::
           |CountedToward(led', b, d)| == |CountedToward(led, b, d)| + if e == Entry(b, d) then 1 else 0
  {
    var led' := led.(counted := led.counted[n := e]);
    assert CountedAs(led', b) == if b == e.protocol then CountedAs(led, b) + {n} else CountedAs(led, b);
    hide CountedAs, CountedToward;
    forall d
      ensures
        |CountedToward(led', b, d)| == |CountedToward(led, b, d)| + if e == Entry(b, d) then 1 else 0
    {
      CountedTowardGrows(led, n, e, b, d);
    }
  }

  lemma CountedTowardGrows(led: Ledger, n: nat, e: Entry, b: string, d: Direction)
    requires n !in led.counted
    ensures
      |CountedToward(led.(counted := led.counted[n := e]), b, d)|
      == |CountedToward(led, b, d)| + if e == Entry(b, d) then 1 else 0
  {
    var led' := led.(counted := led.counted[n := e]);
    assert CountedToward(led', b, d)
        == if e == Entry(b, d) then CountedToward(led, b, d) + {n} else CountedToward(led, b, d);
  }

  lemma RefreshKeepsTotals(st: State, led: Ledger, key: Key, seen: Seen)
    requires Exact(st, led) && key in st.streams
    ensures TotalsExact(Refresh(st, key, seen), NoteRefresh(led, key, st.streams[key], seen))
  {
    hide LeaksExact, Refresh, CountedAs, CountedToward, LateProtocol, LateDirection;
    RefreshEffect(st, key, seen);
    var r, st' := st.streams[key], Refresh(st, key, seen);
    var protocol, d := LateProtocol(r, seen), LateDirection(r, seen);
    if Countable(protocol) && !r.counted {
      var led' := NoteRefresh(led, key, r, seen);
      forall b
        ensures Get(st'.byProto, b) == |CountedAs(led', b)|
        ensures Get(st'.byProtoOut, b) == |CountedToward(led', b, Outbound)|
        ensures Get(st'.byProtoIn, b) == |CountedToward(led', b, Inbound)|
      {
        CountedGrows(led, led.ids[key], Entry(protocol.value, d), b);
      }
    } else {
      SameTotals(st, led, st', led);
    }
  }

  lemma RefreshStaysNumbered(st: State, led: Ledger, key: Key, seen: Seen)
    requires Numbered(st, led) && key in st.streams
    ensures Numbered(Refresh(st, key, seen), NoteRefresh(led, key, st.streams[key], seen))
  {
    RefreshEffect(st, key, seen);
    hide Refresh, LateProtocol, LateDirection, Countable;
  }

  lemma RefreshStaysExact(st: State, led: Ledger, key: Key, seen: Seen)
    requires Exact(st, led) && key in st.streams
    ensures Exact(Refresh(st, key, seen), NoteRefresh(led, key, st.streams[key], seen))
  {
    RefreshKeepsTotals(st, led, key, seen);
    RefreshStaysNumbered(st, led, key, seen);
    RefreshEffect(st, key, seen);
    hide Refresh, Numbered, TotalsExact, LateProtocol, LateDirection, Countable;
    SameLeaks(st, led, Refresh(st, key, seen), NoteRefresh(led, key, st.streams[key], seen));
  }

  // ---------------------------------------------------------------------
  // Closing, flagging and evicting
  // ---------------------------------------------------------------------

  lemma SettleStaysExact(st: State, led: Ledger, key: Key, r: StreamRecord, now: real)
    requires Exact(st, led)
    ensures Exact(Settle(st, key, r, now), NoteClose(led, key))
  {
    hide Remember;
    var st', led' := Settle(st, key, r, now), NoteClose(led, key);
    assert st'.streams == st.streams - {key};
    assert forall p :: st'.StatsOf(p).leaks == st.StatsOf(p).leaks;
    assert st'.byProto == st.byProto && st'.byProtoOut == st.byProtoOut && st'.byProtoIn == st.byProtoIn;
    hide Settle;
    assert Numbered(st', led');
    SameTotals(st, led, st', led');
    SameLeaks(st, led, st', led');
  }

  lemma FlaggedGrows(led: Ledger, n: nat, p: string, q: string)
    requires n !in led.flagged
    ensures
      |FlaggedOf(led.(flagged := led.flagged[n := p]), q)| == |FlaggedOf(led, q)| + if q == p then 1 else 0
  {
    var led' := led.(flagged := led.flagged[n := p]);
    assert FlaggedOf(led', q) == if q == p then FlaggedOf(led, q) + {n} else FlaggedOf(led, q);
  }

  lemma FlagStaysNumbered(st: State, led: Ledger, key: Key)
    requires Numbered(st, led) && key in st.streams
    ensures Numbered(Flag(st, key), NoteFlag(led, key, st.streams[key]))
  {
    assert Flag(st, key).streams == st.streams[key := st.streams[key].(suspectedLeak := true)];
    hide Flag;
  }

  /** A stream not flagged on its record was never flagged before, so its flag is a new one. */
  lemma FlagStaysExact(st: State, led: Ledger, key: Key)
    requires Exact(st, led) && key in st.streams && !st.streams[key].suspectedLeak
    ensures Exact(Flag(st, key), NoteFlag(led, key, st.streams[key]))
  {
    var r, st', led' := st.streams[key], Flag(st, key), NoteFlag(led, key, st.streams[key]);
    FlagStaysNumbered(st, led, key);
    UnflaggedIsNew(st, led, key);
    SameTotals(st, led, st', led');
    hide FlaggedOf, Numbered, TotalsExact;
    forall p
      ensures st'.StatsOf(p).leaks == |FlaggedOf(led', p)|
    {
      FlaggedGrows(led, led.ids[key], r.peer, p);
    }
  }

  lemma UnflaggedIsNew(st: State, led: Ledger, key: Key)
    requires Numbered(st, led) && key in st.streams && !st.streams[key].suspectedLeak
    ensures key in led.ids && led.ids[key] !in led.flagged
  {
  }

  lemma EvictStaysExact(st: State, led: Ledger, p: string)
    requires Exact(st, led)
    ensures Exact(Evict(st, p), NoteEvict(led, p))
  {
    var st', led' := Evict(st, p), NoteEvict(led, p);
    assert Numbered(st', led');
    SameTotals(st, led, st', led');
    assert forall q :: FlaggedOf(led', q) == if q == p then {} else FlaggedOf(led, q);
    assert forall q :: st'.StatsOf(q) == if q == p then NO_STATS else st.StatsOf(q);
  }

  // ---------------------------------------------------------------------
  // Sweeps, disconnects and whole runs
  // ---------------------------------------------------------------------

  lemma SweepOneStaysExact(
    st: State, led: Ledger, key: Key, look: Look, live: Option<Table>, now: real, threshold: real)
    requires Exact(st, led) && key in st.streams
    ensures key in led.ids
    ensures
      Exact(SweepOne(st, key, look, live, now, threshold), NoteSweepOne(st, led, key, look, live, now, threshold))
  {
    RefreshStaysExact(st, led, key, look.seen);
    RefreshEffect(st, key, look.seen);
    hide Refresh, Refreshed, NoteRefresh, Settle, LeaksExact, TotalsExact, Gone;
    var st1 := Refresh(st, key, look.seen);
    var led1 := NoteRefresh(led, key, st.streams[key], look.seen);
    var r := st1.streams[key];
    if Gone(r, look, live) {
      SettleStaysExact(st1, led1, key, r.(wasReset := r.wasReset || look.seen.reset), now);
    } else if Suspect(r, now, threshold) {
      FlagStaysExact(st1, led1, key);
    }
  }

  lemma {:induction false} SweepStaysExact(
    st: State, led: Ledger, order: seq<Key>, looks: map<Key, Look>, live: Option<Table>, now: real, threshold: real)
    requires Exact(st, led)
    ensures Exact(Sweep(st, order, looks, live, now, threshold), NoteSweep(st, led, order, looks, live, now, threshold))
    decreases |order|
  {
    hide Exact, SweepOne, NoteSweepOne;
    if order != [] {
      var key := order[0];
      if key in st.streams && key in looks {
        SweepOneStaysExact(st, led, key, looks[key], live, now, threshold);
        SweepStaysExact(SweepOne(st, key, looks[key], live, now, threshold),
                        NoteSweepOne(st, led, key, looks[key], live, now, threshold),
                        order[1..], looks, live, now, threshold);
      } else {
        SweepStaysExact(st, led, order[1..], looks, live, now, threshold);
      }
    }
  }

  lemma CloseAbsent(led: Ledger, key: Key)
    requires key !in led.ids
    ensures NoteClose(led, key) == led
  {
    assert led.ids - {key} == led.ids;
  }

  lemma {:induction false} PruneStaysExact(st: State, led: Ledger, order: seq<Key>, resets: set<Key>, now: real)
    requires Exact(st, led)
    ensures Exact(Prune(st, order, resets, now), led.(ids := led.ids - set k | k in order))
    decreases |order|
  {
    if order == [] {
      assert led.ids - (set k | k in order) == led.ids;
    } else {
      var key, rest := order[0], order[1..];
      var led1 := NoteClose(led, key);
      assert (set k | k in order) == {key} + set k | k in rest;
      assert led1.ids - (set k | k in rest) == led.ids - set k | k in order;
      if key in st.streams {
        var r := st.streams[key];
        SettleStaysExact(st, led, key, r.(wasReset := r.wasReset || key in resets), now);
        hide Exact, Settle;
        PruneStaysExact(Finalize(st, key, key in resets, now), led1, rest, resets, now);
      } else {
        CloseAbsent(led, key);
        hide Exact;
        PruneStaysExact(st, led, rest, resets, now);
      }
    }
  }

  lemma CloseStaysExact(st: State, led: Ledger, key: Key, peer: string, seen: Seen, now: real)
    requires Exact(st, led)
    ensures Exact(Close(st, key, peer, seen, now), Note(st, led, Closed(key, peer, seen, now)))
  {
    if key in st.streams {
      RefreshStaysExact(st, led, key, seen);
      hide Exact, Settle, NoteRefresh;
      var st1, led1 := Refresh(st, key, seen), NoteRefresh(led, key, st.streams[key], seen);
      assert key in led.ids && key in st1.streams by { RefreshEffect(st, key, seen); NumberedKeys(st, led); }
      hide Refresh;
      var r := st1.streams[key];
      SettleStaysExact(st1, led1, key, r.(wasReset := r.wasReset || seen.reset), now);
    } else {
      CloseAbsent(led, key);
      if !Knows(st.finalized, key) {
        hide Exact, Settle;
        SettleStaysExact(st, led, key, StreamRecord(peer, 0.0, None, Unknown, seen.reset, false, false), now);
      }
    }
  }

  lemma NumberedKeys(st: State, led: Ledger)
    requires Exact(st, led)
    ensures led.ids.Keys == st.streams.Keys
  {
  }

  lemma EventStaysExact(st: State, led: Ledger, e: Event)
    requires Exact(st, led)
    ensures Exact(After(st, e), Note(st, led, e))
  {
    NumberedKeys(st, led);
    hide Exact, Open, Close, Refresh, Sweep, Prune, Evict, NoteOpen, NoteSweep, NoteRefresh, NoteEvict;
    match e {
      case Opened(key, peer, seen, now) => OpenStaysExact(st, led, key, peer, seen, now);
      case Closed(key, peer, seen, now) => CloseStaysExact(st, led, key, peer, seen, now);
      case Reported(key, seen) =>
        if key in st.streams {
          RefreshStaysExact(st, led, key, seen);
        }
      case Swept(order, looks, live, now, threshold) => SweepStaysExact(st, led, order, looks, live, now, threshold);
      case Disconnected(order, resets, now) => PruneStaysExact(st, led, order, resets, now);
      case Evicted(peer) => EvictStaysExact(st, led, peer);
    }
  }

  lemma {:induction false} RunStaysExact(st: State, led: Ledger, events: seq<Event>)
    requires Exact(st, led)
    ensures Exact(Run(st, events), LedgerOf(st, led, events))
    decreases |events|
  {
    hide Exact, After, Note;
    if events != [] {
      EventStaysExact(st, led, events[0]);
      RunStaysExact(After(st, events[0]), Note(st, led, events[0]), events[1..]);
    }
  }

  /**
   After every sequence of events whatsoever, a peer's leaks are the number of different
   streams of it that were flagged, and the totals by protocol are the numbers of different
   streams counted: no stream is flagged or counted twice.
   */
  lemma EveryStreamCountsOnce(events: seq<Event>)
    ensures Exact(Run(EMPTY, events), LedgerOf(EMPTY, BLANK, events))
  {
    assert forall p :: FlaggedOf(BLANK, p) == {};
    assert forall b :: CountedAs(BLANK, b) == {};
    assert forall b, d :: CountedToward(BLANK, b, d) == {};
    assert Exact(EMPTY, BLANK);
    RunStaysExact(EMPTY, BLANK, events);
  }
}
