/** How long the tracker ignores a second close event, over whole runs (connection_tracker.py). */
module TrackerDuplicates {
  import opened Bytes
  import opened TrackerMemory
  import opened Tracker
  import opened TrackerLaws

  // ---------------------------------------------------------------------
  // Every stream finalized, in order
  // ---------------------------------------------------------------------

  ghost function MarksOfSweep(
    st: State, order: seq<Key>, looks: map<Key, Look>, live: Option<Table>, now: real, threshold: real): seq<Mark>
    decreases |order|
  {
    if order == [] then []
    else if order[0] in st.streams && order[0] in looks then
      var look := looks[order[0]];
      (if Gone(Refreshed(st.streams[order[0]], look.seen), look, live) then [Mark(order[0], now)] else [])
      + MarksOfSweep(SweepOne(st, order[0], look, live, now, threshold), order[1..], looks, live, now, threshold)
    else MarksOfSweep(st, order[1..], looks, live, now, threshold)
  }

  ghost function MarksOfPrune(st: State, order: seq<Key>, resets: set<Key>, now: real): seq<Mark>
    decreases |order|
  {
    if order == [] then []
    else if order[0] in st.streams then
      [Mark(order[0], now)]
      + MarksOfPrune(Finalize(st, order[0], order[0] in resets, now), order[1..], resets, now)
    else MarksOfPrune(st, order[1..], resets, now)
  }

  /** The streams one event finalizes. */
  ghost function MarksOf(st: State, e: Event): seq<Mark> {
    match e
    case Closed(key, _, _, now) =>
      if key in st.streams || !Knows(st.finalized, key) then [Mark(key, now)] else []
    case Swept(order, looks, live, now, threshold) => MarksOfSweep(st, order, looks, live, now, threshold)
    case Disconnected(order, resets, now) => MarksOfPrune(st, order, resets, now)
    case _ => []
  }

  ghost function MarksOver(st: State, events: seq<Event>): seq<Mark>
    decreases |events|
  {
    if events == [] then [] else MarksOf(st, events[0]) + MarksOver(After(st, events[0]), events[1..])
  }

  // ---------------------------------------------------------------------
  // The memory is what marking them leaves
  // ---------------------------------------------------------------------

  lemma OneMoreMark(log: seq<Mark>, m: Mark)
    ensures RememberAll(log + [m]) == Remember(RememberAll(log), m.key, m.at)
  {
    assert (log + [m])[..|log|] == log;
  }

  lemma SettleMarks(st: State, key: Key, r: StreamRecord, now: real)
    ensures Settle(st, key, r, now).finalized == Remember(st.finalized, key, now)
  {
    hide Remember;
  }

  lemma FinalizeMarks(st: State, key: Key, reset: bool, now: real)
    requires key in st.streams
    ensures Finalize(st, key, reset, now).finalized == Remember(st.finalized, key, now)
  {
    hide Remember;
  }

  lemma SweepOneMarks(st: State, key: Key, look: Look, live: Option<Table>, now: real, threshold: real)
    requires key in st.streams
    ensures
      SweepOne(st, key, look, live, now, threshold).finalized
      == if Gone(Refreshed(st.streams[key], look.seen), look, live) then Remember(st.finalized, key, now)
         else st.finalized
  {
    RefreshKeepsMemory(st, key, look.seen);
    var st1 := Refresh(st, key, look.seen);
    assert st1.streams[key] == Refreshed(st.streams[key], look.seen);
    hide Refresh, Refreshed, Gone, Finalize;
    if Gone(st1.streams[key], look, live) {
      FinalizeMarks(st1, key, look.seen.reset, now);
    }
  }

  lemma AppendMark(log: seq<Mark>, m: Mark, rest: seq<Mark>)
    ensures log + ([m] + rest) == log + [m] + rest
    ensures log + ([] + rest) == log + rest && log + [] == log
  {
    assert [] + rest == rest;
  }

  lemma {:induction false} SweepMarks(
    st: State, order: seq<Key>, looks: map<Key, Look>, live: Option<Table>, now: real, threshold: real,
    log: seq<Mark>)
    requires st.finalized == RememberAll(log)
    ensures
      Sweep(st, order, looks, live, now, threshold).finalized
      == RememberAll(log + MarksOfSweep(st, order, looks, live, now, threshold))
    decreases |order|
  {
    hide SweepOne, Gone, Refreshed, RememberAll, Remember;
    if order == [] {
      assert log + [] == log;
    } else {
      var key := order[0];
      if key in st.streams && key in looks {
        var st1 := SweepOne(st, key, looks[key], live, now, threshold);
        var rest := MarksOfSweep(st1, order[1..], looks, live, now, threshold);
        SweepOneMarks(st, key, looks[key], live, now, threshold);
        AppendMark(log, Mark(key, now), rest);
        if Gone(Refreshed(st.streams[key], looks[key].seen), looks[key], live) {
          OneMoreMark(log, Mark(key, now));
          SweepMarks(st1, order[1..], looks, live, now, threshold, log + [Mark(key, now)]);
        } else {
          SweepMarks(st1, order[1..], looks, live, now, threshold, log);
        }
      } else {
        SweepMarks(st, order[1..], looks, live, now, threshold, log);
      }
    }
  }

  lemma {:induction false} PruneMarks(st: State, order: seq<Key>, resets: set<Key>, now: real, log: seq<Mark>)
    requires st.finalized == RememberAll(log)
    ensures Prune(st, order, resets, now).finalized == RememberAll(log + MarksOfPrune(st, order, resets, now))
    decreases |order|
  {
    hide Finalize, RememberAll, Remember;
    if order == [] {
      assert log + [] == log;
    } else {
      var key := order[0];
      if key in st.streams {
        var st1 := Finalize(st, key, key in resets, now);
        FinalizeMarks(st, key, key in resets, now);
        OneMoreMark(log, Mark(key, now));
        AppendMark(log, Mark(key, now), MarksOfPrune(st1, order[1..], resets, now));
        PruneMarks(st1, order[1..], resets, now, log + [Mark(key, now)]);
      } else {
        PruneMarks(st, order[1..], resets, now, log);
      }
    }
  }

  lemma CloseMarks(st: State, key: Key, peer: string, seen: Seen, now: real)
    ensures
      Close(st, key, peer, seen, now).finalized
      == if key in st.streams || !Knows(st.finalized, key) then Remember(st.finalized, key, now) else st.finalized
  {
    if key in st.streams {
      RefreshKeepsMemory(st, key, seen);
      hide Refresh, Finalize;
      FinalizeMarks(Refresh(st, key, seen), key, seen.reset, now);
    } else if !Knows(st.finalized, key) {
      hide Settle;
      SettleMarks(st, key, StreamRecord(peer, 0.0, None, Unknown, seen.reset, false, false), now);
    }
  }

  lemma EventMarks(st: State, e: Event, log: seq<Mark>)
    requires st.finalized == RememberAll(log)
    ensures After(st, e).finalized == RememberAll(log + MarksOf(st, e))
  {
    hide Open, Close, Refresh, Sweep, Prune, Remember, RememberAll;
    assert log + [] == log;
    match e {
      case Opened(key, peer, seen, now) => OpenStats(st, key, peer, seen, now);
      case Closed(key, peer, seen, now) =>
        CloseMarks(st, key, peer, seen, now);
        OneMoreMark(log, Mark(key, now));
      case Reported(key, seen) =>
        if key in st.streams {
          RefreshKeepsMemory(st, key, seen);
        }
      case Swept(order, looks, live, now, threshold) => SweepMarks(st, order, looks, live, now, threshold, log);
      case Disconnected(order, resets, now) => PruneMarks(st, order, resets, now, log);
      case Evicted(_) =>
    }
  }

  lemma {:induction false} RunMarks(st: State, events: seq<Event>, log: seq<Mark>)
    requires st.finalized == RememberAll(log)
    ensures Run(st, events).finalized == RememberAll(log + MarksOver(st, events))
    decreases |events|
  {
    hide After, MarksOf, RememberAll;
    if events == [] {
      assert log + [] == log;
    } else {
      var marks := MarksOf(st, events[0]);
      EventMarks(st, events[0], log);
      RunMarks(After(st, events[0]), events[1..], log + marks);
      assert log + (marks + MarksOver(After(st, events[0]), events[1..]))
          == log + marks + MarksOver(After(st, events[0]), events[1..]);
    }
  }

  lemma CloseIsIgnoredExactly(st: State, key: Key, peer: string, seen: Seen, now: real)
    requires key !in st.streams
    ensures Close(st, key, peer, seen, now) == st <==> Knows(st.finalized, key)
  {
    if !Knows(st.finalized, key) {
      hide Remember;
      assert Close(st, key, peer, seen, now).StatsOf(peer).totalClosed == st.StatsOf(peer).totalClosed + 1;
    }
  }

  /**
   However late it comes, a second close event changes nothing at all if and only if at most
   2000 streams were finalized since and including the first, the last of them at most 300
   seconds after it. This is for runs that finalize no key twice, on a clock that does not
   run backwards.
   */
  lemma LateDuplicateIgnoredExactly(events: seq<Event>, i: nat, peer: string, seen: Seen, now: real)
    requires var log := MarksOver(EMPTY, events); DistinctKeys(log) && ClockRuns(log) && i < |log|
    requires MarksOver(EMPTY, events)[i].key !in Run(EMPTY, events).streams
    ensures
      var st, log := Run(EMPTY, events), MarksOver(EMPTY, events);
      Close(st, log[i].key, peer, seen, now) == st
      <==> |log| - i <= 2000 && log[|log| - 1].at - log[i].at <= 300.0
  {
    hide *;
    var st, log := Run(EMPTY, events), MarksOver(EMPTY, events);
    NothingRemembered();
    RunMarks(EMPTY, events, []);
    assert [] + log == log;
    RemembersExactly(log, i);
    CloseIsIgnoredExactly(st, log[i].key, peer, seen, now);
  }

  lemma NothingRemembered()
    ensures EMPTY.finalized == RememberAll([])
  {
  }
}
