/** The bounded memory of closed streams that rejects duplicate close events (connection_tracker.py). */
module TrackerMemory {
  type Key = string

  const TTL_SECONDS := 300.0
  const MAX_FINALIZED := 2000

  datatype Mark = Mark(key: Key, at: real)

  /** A dictionary in insertion order: no key twice. */
  ghost predicate DistinctKeys(marks: seq<Mark>) {
    forall i, j :: 0 <= i < j < |marks| ==> marks[i].key != marks[j].key
  }

  predicate Knows(marks: seq<Mark>, key: Key) {
    exists i :: 0 <= i < |marks| && marks[i].key == key
  }

  /** Assignment to a dictionary entry: a key already there keeps its place. */
  function Put(marks: seq<Mark>, key: Key, now: real): (r: seq<Mark>)
    ensures |r| == if Knows(marks, key) then |marks| else |marks| + 1
  {
    if marks == [] then [Mark(key, now)]
    else if marks[0].key == key then [Mark(key, now)] + marks[1..]
    else
      assert Knows(marks, key) ==> Knows(marks[1..], key) by {
        if i :| 0 <= i < |marks| && marks[i].key == key {
          assert marks[1..][i - 1].key == key;
        }
      }
      assert Knows(marks[1..], key) ==> Knows(marks, key) by {
        if i :| 0 <= i < |marks[1..]| && marks[1..][i].key == key {
          assert marks[i + 1].key == key;
        }
      }
      [marks[0]] + Put(marks[1..], key, now)
  }

  predicate Expired(m: Mark, now: real) {
    now - m.at > TTL_SECONDS
  }

  /** The purge that stops at the first entry not yet expired. */
  function DropExpired(marks: seq<Mark>, now: real): (r: seq<Mark>)
    ensures |r| <= |marks| && r == marks[|marks| - |r|..]
  {
    if marks != [] && Expired(marks[0], now) then DropExpired(marks[1..], now) else marks
  }

  function Cap(marks: seq<Mark>): seq<Mark> {
    if |marks| > MAX_FINALIZED then marks[1..] else marks
  }

  /** _mark_finalized */
  function Remember(marks: seq<Mark>, key: Key, now: real): seq<Mark> {
    Cap(DropExpired(Put(marks, key, now), now))
  }

  lemma {:induction false} PutMeans(marks: seq<Mark>, key: Key, now: real) returns (i: nat)
    requires DistinctKeys(marks)
    ensures i < |Put(marks, key, now)| && Put(marks, key, now)[i] == Mark(key, now)
    ensures !Knows(marks, key) ==> Put(marks, key, now) == marks + [Mark(key, now)]
    ensures Knows(marks, key) ==>
      i < |marks| && marks[i].key == key && Put(marks, key, now) == marks[i := Mark(key, now)]
  {
    if marks == [] || marks[0].key == key {
      i := 0;
      assert marks != [] ==> Knows(marks, key);
    } else {
      var rest := marks[1..];
      i := PutMeans(rest, key, now);
      assert !Knows(rest, key) ==> !Knows(marks, key) by {
        if j :| 0 <= j < |marks| && marks[j].key == key {
          assert rest[j - 1].key == key;
        }
      }
      if Knows(rest, key) {
        assert rest[i].key == key && marks[i + 1].key == key;
        assert [marks[0]] + rest[i := Mark(key, now)] == marks[i + 1 := Mark(key, now)];
      } else {
        assert [marks[0]] + (rest + [Mark(key, now)]) == marks + [Mark(key, now)];
      }
      i := i + 1;
    }
  }

  /** An entry not yet expired survives the purge. */
  lemma {:induction false} DropKeeps(marks: seq<Mark>, now: real, i: nat)
    requires i < |marks| && !Expired(marks[i], now)
    ensures
      var left := DropExpired(marks, now);
      |marks| - |left| <= i && left[i - (|marks| - |left|)] == marks[i]
  {
    if Expired(marks[0], now) {
      DropKeeps(marks[1..], now, i - 1);
    }
  }

  lemma {:induction false} DropKeepsDistinct(marks: seq<Mark>, now: real)
    requires DistinctKeys(marks)
    ensures DistinctKeys(DropExpired(marks, now))
  {
    if marks != [] && Expired(marks[0], now) {
      DropKeepsDistinct(marks[1..], now);
    }
  }

  lemma PutKeepsDistinct(marks: seq<Mark>, key: Key, now: real)
    requires DistinctKeys(marks)
    ensures DistinctKeys(Put(marks, key, now))
  {
    var i := PutMeans(marks, key, now);
    hide Put;
    if !Knows(marks, key) {
      assert forall j :: 0 <= j < |marks| ==> marks[j].key != key;
    }
  }

  lemma CapKeepsLater(marks: seq<Mark>, i: nat)
    requires i < |marks| && (|marks| > MAX_FINALIZED ==> i > 0)
    ensures Knows(Cap(marks), marks[i].key)
  {
    if |marks| > MAX_FINALIZED {
      assert marks[1..][i - 1] == marks[i];
    }
  }

  /**
   Whatever the history, the memory stays bounded and free of duplicates, and the
   key just marked is in it.
   */
  lemma RememberIsBounded(marks: seq<Mark>, key: Key, now: real)
    requires |marks| <= MAX_FINALIZED && DistinctKeys(marks)
    ensures |Remember(marks, key, now)| <= 2000
    ensures DistinctKeys(Remember(marks, key, now))
    ensures Knows(Remember(marks, key, now), key)
  {
    hide Put, DropExpired, DistinctKeys, Cap;
    var put := Put(marks, key, now);
    var i := PutMeans(marks, key, now);
    PutKeepsDistinct(marks, key, now);
    DropKeeps(put, now, i);
    DropKeepsDistinct(put, now);
    var left := DropExpired(put, now);
    var at := i - (|put| - |left|);
    if |left| > MAX_FINALIZED {
      assert !Knows(marks, key) && put == marks + [Mark(key, now)];
      assert put[|marks|].key == key;
      DistinctIndex(put, i, |marks|);
    }
    CapKeepsLater(left, at);
    CapKeepsDistinct(left);
  }

  lemma DistinctIndex(marks: seq<Mark>, i: nat, j: nat)
    requires DistinctKeys(marks) && i < |marks| && j < |marks| && marks[i].key == marks[j].key
    ensures i == j
  {
  }

  lemma CapKeepsDistinct(marks: seq<Mark>)
    requires DistinctKeys(marks) && |marks| <= MAX_FINALIZED + 1
    ensures DistinctKeys(Cap(marks)) && |Cap(marks)| <= MAX_FINALIZED
  {
  }

  /** All entries not yet expired. */
  function Unexpired(marks: seq<Mark>, now: real): (r: seq<Mark>)
    ensures |r| <= |marks|
  {
    if marks == [] then []
    else if Expired(marks[0], now) then Unexpired(marks[1..], now)
    else [marks[0]] + Unexpired(marks[1..], now)
  }

  lemma {:induction false} UnexpiredIsAll(marks: seq<Mark>, now: real)
    ensures Unexpired(marks, now) == marks <==> forall i :: 0 <= i < |marks| ==> !Expired(marks[i], now)
  {
    if marks != [] {
      UnexpiredIsAll(marks[1..], now);
      if Unexpired(marks, now) == marks {
        assert !Expired(marks[0], now);
        assert Unexpired(marks, now)[1..] == marks[1..];
        assert forall i :: 1 <= i < |marks| ==> marks[i] == marks[1..][i - 1];
      } else if !Expired(marks[0], now) {
        var i :| 0 <= i < |marks[1..]| && Expired(marks[1..][i], now);
        assert Expired(marks[i + 1], now);
      }
    }
  }

  /** Every expired entry comes before every other. */
  ghost predicate ExpiredFirst(marks: seq<Mark>, now: real) {
    forall i, j :: 0 <= i < j < |marks| && Expired(marks[j], now) ==> Expired(marks[i], now)
  }

  lemma ExpiredFirstRest(marks: seq<Mark>, now: real)
    requires marks != []
    ensures
      ExpiredFirst(marks, now) <==>
      if Expired(marks[0], now) then ExpiredFirst(marks[1..], now)
      else forall i :: 0 <= i < |marks| ==> !Expired(marks[i], now)
  {
    var rest := marks[1..];
    hide Expired;
    assert forall i :: 0 <= i < |rest| ==> rest[i] == marks[i + 1];
    assert forall i :: 1 <= i < |marks| ==> marks[i] == rest[i - 1];
  }

  /** The purge removes exactly the expired entries if and only if these all come first. */
  lemma {:induction false} PurgeIsExact(marks: seq<Mark>, now: real)
    ensures DropExpired(marks, now) == Unexpired(marks, now) <==> ExpiredFirst(marks, now)
  {
    if marks != [] {
      ExpiredFirstRest(marks, now);
      hide ExpiredFirst, Expired;
      if Expired(marks[0], now) {
        PurgeIsExact(marks[1..], now);
      } else {
        UnexpiredIsAll(marks, now);
      }
    }
  }

  ghost predicate InTimeOrder(marks: seq<Mark>, now: real) {
    && (forall i, j :: 0 <= i < j < |marks| ==> marks[i].at <= marks[j].at)
    && (forall i :: 0 <= i < |marks| ==> marks[i].at <= now)
  }

  lemma {:induction false} DropKeepsOrder(marks: seq<Mark>, now: real)
    requires InTimeOrder(marks, now)
    ensures InTimeOrder(DropExpired(marks, now), now)
  {
    if marks != [] && Expired(marks[0], now) {
      DropKeepsOrder(marks[1..], now);
    }
  }

  /**
   While no key is marked twice, the memory is in time order, and a mark leaves
   exactly what has not expired, less the oldest entry when that is one too many.
   */
  lemma FreshMarksStayInOrder(marks: seq<Mark>, key: Key, now: real)
    requires DistinctKeys(marks) && InTimeOrder(marks, now) && !Knows(marks, key)
    ensures InTimeOrder(Remember(marks, key, now), now)
    ensures Remember(marks, key, now) == Cap(Unexpired(marks + [Mark(key, now)], now))
  {
    hide Put, DropExpired, Unexpired, DistinctKeys, Expired, ExpiredFirst, Knows, InTimeOrder, Cap;
    var _ := PutMeans(marks, key, now);
    var put := marks + [Mark(key, now)];
    OrderSnoc(marks, key, now);
    PurgeIsExact(put, now);
    DropKeepsOrder(put, now);
    CapKeepsOrder(DropExpired(put, now), now);
  }

  lemma OrderSnoc(marks: seq<Mark>, key: Key, now: real)
    requires InTimeOrder(marks, now)
    ensures InTimeOrder(marks + [Mark(key, now)], now)
    ensures ExpiredFirst(marks + [Mark(key, now)], now)
  {
  }

  lemma CapKeepsOrder(marks: seq<Mark>, now: real)
    requires InTimeOrder(marks, now)
    ensures InTimeOrder(Cap(marks), now)
  {
  }

  // ---------------------------------------------------------------------
  // Whole runs of marks
  // ---------------------------------------------------------------------

  /** The memory after marking these keys at these times, one after the other. */
  function RememberAll(calls: seq<Mark>): seq<Mark> {
    if calls == [] then []
    else
      var last := calls[|calls| - 1];
      Remember(RememberAll(calls[..|calls| - 1]), last.key, last.at)
  }

  ghost predicate ClockRuns(calls: seq<Mark>) {
    forall i, j :: 0 <= i < j < |calls| ==> calls[i].at <= calls[j].at
  }

  /** The last MAX_FINALIZED of some marks. */
  function Recent(calls: seq<Mark>): (r: seq<Mark>) {
    if |calls| > MAX_FINALIZED then calls[|calls| - MAX_FINALIZED..] else calls
  }

  lemma {:induction false} UnexpiredMembers(marks: seq<Mark>, now: real)
    ensures forall m :: m in Unexpired(marks, now) ==> m in marks
  {
    if marks != [] {
      UnexpiredMembers(marks[1..], now);
    }
  }

  /** What has expired once stays expired, so dropping it early makes no difference. */
  lemma {:induction false} UnexpiredLater(marks: seq<Mark>, m: Mark, now: real, later: real)
    requires now <= later
    ensures Unexpired(Unexpired(marks, now) + [m], later) == Unexpired(marks + [m], later)
  {
    if marks == [] {
      assert Unexpired(marks, now) + [m] == marks + [m];
    } else {
      UnexpiredLater(marks[1..], m, now, later);
      assert Expired(marks[0], now) ==> Expired(marks[0], later);
      hide Expired;
      var first, rest := marks[0], Unexpired(marks[1..], now);
      assert (marks + [m])[1..] == marks[1..] + [m];
      if !Expired(first, now) {
        assert Unexpired(marks, now) + [m] == [first] + (rest + [m]);
        assert ([first] + (rest + [m]))[1..] == rest + [m];
      }
    }
  }

  /** The cap takes the oldest entry, which either has expired anyway or is the one too many. */
  lemma CapIsRecent(calls: seq<Mark>, now: real)
    requires MAX_FINALIZED < |calls| && ClockRuns(calls)
    ensures
      var n := |calls| - MAX_FINALIZED;
      Cap(Unexpired(calls[n - 1..], now)) == Unexpired(calls[n..], now)
  {
    var n := |calls| - MAX_FINALIZED;
    var last := calls[n - 1..];
    assert last[1..] == calls[n..];
    if !Expired(last[0], now) {
      forall i | 0 <= i < |last|
        ensures !Expired(last[i], now)
      {
        assert last[i] == calls[n - 1 + i] && last[0] == calls[n - 1];
      }
      UnexpiredIsAll(last, now);
      UnexpiredIsAll(calls[n..], now);
    }
  }

  lemma {:induction false} RunIsBounded(calls: seq<Mark>)
    ensures |RememberAll(calls)| <= MAX_FINALIZED && DistinctKeys(RememberAll(calls))
  {
    if calls != [] {
      var n := |calls| - 1;
      RunIsBounded(calls[..n]);
      RememberIsBounded(RememberAll(calls[..n]), calls[n].key, calls[n].at);
    }
  }

  lemma StillNew(calls: seq<Mark>, t: real)
    requires calls != [] && DistinctKeys(calls)
    ensures !Knows(Unexpired(Recent(calls[..|calls| - 1]), t), calls[|calls| - 1].key)
  {
    hide Unexpired;
    var earlier := calls[..|calls| - 1];
    var before := Unexpired(Recent(earlier), t);
    UnexpiredMembers(Recent(earlier), t);
    forall i | 0 <= i < |before|
      ensures before[i].key != calls[|calls| - 1].key
    {
      assert before[i] in Recent(earlier);
      var j :| 0 <= j < |earlier| && calls[j] == before[i];
    }
  }

  lemma RecentGrows(calls: seq<Mark>)
    requires calls != []
    ensures
      var n := |calls| - 1;
      Recent(calls[..n]) + [calls[n]] == if n < MAX_FINALIZED then calls else calls[n - MAX_FINALIZED..]
  {
    var n := |calls| - 1;
    if n <= MAX_FINALIZED {
      assert calls[..n] + [calls[n]] == calls;
    } else {
      assert calls[..n][n - MAX_FINALIZED..] + [calls[n]] == calls[n - MAX_FINALIZED..];
    }
  }

  lemma RecentSnoc(calls: seq<Mark>, now: real)
    requires calls != [] && ClockRuns(calls)
    ensures
      var n := |calls| - 1;
      Cap(Unexpired(Recent(calls[..n]) + [calls[n]], now)) == Unexpired(Recent(calls), now)
  {
    hide Unexpired, ClockRuns;
    RecentGrows(calls);
    if |calls| > MAX_FINALIZED {
      CapIsRecent(calls, now);
    }
  }

  lemma OrderLater(marks: seq<Mark>, t: real, later: real)
    requires InTimeOrder(marks, t) && t <= later
    ensures InTimeOrder(marks, later)
  {
  }

  /** One more mark of a key not marked before. */
  lemma MarkRecent(calls: seq<Mark>, before: seq<Mark>, t: real)
    requires calls != [] && DistinctKeys(calls) && ClockRuns(calls)
    requires var n := |calls| - 1; before == Unexpired(Recent(calls[..n]), t) && t <= calls[n].at
    requires DistinctKeys(before) && InTimeOrder(before, t)
    ensures
      var last := calls[|calls| - 1];
      && Remember(before, last.key, last.at) == Unexpired(Recent(calls), last.at)
      && InTimeOrder(Remember(before, last.key, last.at), last.at)
  {
    hide *;
    var n := |calls| - 1;
    var last := calls[n];
    StillNew(calls, t);
    OrderLater(before, t, last.at);
    FreshMarksStayInOrder(before, last.key, last.at);
    assert last == Mark(last.key, last.at);
    UnexpiredLater(Recent(calls[..n]), last, t, last.at);
    RecentSnoc(calls, last.at);
  }

  /**
   While no key is marked twice and the clock does not run backwards, the memory is in
   time order and holds exactly those of the last 2000 marks that have not expired.
   */
  lemma {:induction false} MemoryIsRecent(calls: seq<Mark>)
    requires calls != [] && DistinctKeys(calls) && ClockRuns(calls)
    ensures RememberAll(calls) == Unexpired(Recent(calls), calls[|calls| - 1].at)
    ensures InTimeOrder(RememberAll(calls), calls[|calls| - 1].at)
    decreases |calls|
  {
    hide Remember, Unexpired, DistinctKeys, InTimeOrder, ClockRuns, Recent;
    var n := |calls| - 1;
    var earlier := calls[..n];
    RunIsBounded(earlier);
    EarlierCalls(calls);
    if n == 0 {
      NoMarks(calls[0].at);
      MarkRecent(calls, [], calls[0].at);
    } else {
      MemoryIsRecent(earlier);
      MarkRecent(calls, RememberAll(earlier), earlier[n - 1].at);
    }
  }

  lemma NoMarks(now: real)
    ensures Unexpired(Recent([]), now) == [] && InTimeOrder([], now)
  {
  }

  lemma EarlierCalls(calls: seq<Mark>)
    requires calls != [] && DistinctKeys(calls) && ClockRuns(calls)
    ensures
      var n := |calls| - 1;
      && DistinctKeys(calls[..n]) && ClockRuns(calls[..n])
      && (n == 0 ==> calls[..n] == [])
      && (n > 0 ==> calls[n - 1].at <= calls[n].at)
  {
  }

  lemma {:induction false} UnexpiredExactly(marks: seq<Mark>, now: real, m: Mark)
    ensures m in Unexpired(marks, now) <==> m in marks && !Expired(m, now)
  {
    if marks != [] {
      UnexpiredExactly(marks[1..], now, m);
      assert m in marks <==> m == marks[0] || m in marks[1..];
    }
  }

  lemma RecentExactly(calls: seq<Mark>, i: nat)
    requires DistinctKeys(calls) && i < |calls|
    ensures calls[i] in Recent(calls) <==> i + 2000 >= |calls|
  {
    var n := |calls| - MAX_FINALIZED;
    if n > 0 {
      assert Recent(calls) == calls[n..];
      if n <= i {
        assert calls[n..][i - n] == calls[i];
      }
    }
  }

  lemma KnowsMark(calls: seq<Mark>, marks: seq<Mark>, i: nat)
    requires DistinctKeys(calls) && i < |calls| && forall m :: m in marks ==> m in calls
    ensures Knows(marks, calls[i].key) <==> calls[i] in marks
  {
    if j :| 0 <= j < |marks| && marks[j].key == calls[i].key {
      assert marks[j] in calls;
      var k :| 0 <= k < |calls| && calls[k] == marks[j];
      DistinctIndex(calls, i, k);
    }
  }

  /**
   After a run of marks of different keys, a key is remembered if and only if it is one of
   the last 2000 marked and had not expired at the last mark.
   */
  lemma RemembersExactly(calls: seq<Mark>, i: nat)
    requires DistinctKeys(calls) && ClockRuns(calls) && i < |calls|
    ensures
      Knows(RememberAll(calls), calls[i].key)
      <==> i + 2000 >= |calls| && calls[|calls| - 1].at - calls[i].at <= 300.0
  {
    hide *;
    ExpiredMeans(calls[i], calls[|calls| - 1].at);
    var now := calls[|calls| - 1].at;
    MemoryIsRecent(calls);
    UnexpiredMembers(Recent(calls), now);
    RecentMembers(calls);
    KnowsMark(calls, Unexpired(Recent(calls), now), i);
    UnexpiredExactly(Recent(calls), now, calls[i]);
    RecentExactly(calls, i);
  }

  lemma ExpiredMeans(m: Mark, now: real)
    ensures Expired(m, now) <==> now - m.at > 300.0
  {
  }

  lemma RecentMembers(calls: seq<Mark>)
    ensures forall m :: m in Recent(calls) ==> m in calls
  {
    var recent, skipped := Recent(calls), |calls| - |Recent(calls)|;
    forall m | m in recent
      ensures m in calls
    {
      var i :| 0 <= i < |recent| && recent[i] == m;
      assert calls[skipped + i] == m;
    }
  }

  /** A key marked again keeps its old place, so the purge can leave an expired entry behind it. */
  lemma ReMarkedKeyHidesExpired(a: Key, b: Key) returns (marks: seq<Mark>)
    requires a != b
    ensures DistinctKeys(marks) && InTimeOrder(marks, 1.0) && Knows(marks, a)
    ensures Remember(marks, a, 302.0) == [Mark(a, 302.0), Mark(b, 1.0)] && Expired(Mark(b, 1.0), 302.0)
  {
    marks := [Mark(a, 0.0), Mark(b, 1.0)];
    assert marks[0].key == a;
    assert [Mark(a, 302.0)] + marks[1..] == [Mark(a, 302.0), Mark(b, 1.0)];
  }
}
