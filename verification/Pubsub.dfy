/** The adaptive joining and leaving of pubsub topics (peer/_pubsub.py). */
module Pubsub {
  import opened Graphs

  type Topic = string

  /** One topic's entry in the statistics. */
  datatype Streak = Streak(hits: nat, misses: nat, maxPeers: nat)

  const NEW_STREAK := Streak(0, 0, 0)

  /** The configuration as it is read; ownTopic is empty until the node's own IPNS topic is known. */
  datatype Config = Config(
    autoJoinMinPeers: int, joinConfirmations: int, leaveMisses: int, autoJoinMaxTopics: int,
    topics: seq<Topic>, ownTopic: Topic)
  {
    function AtLeast(low: nat, n: int): nat {
      if n < low then low else n
    }

    function MinPeers(): nat { AtLeast(1, autoJoinMinPeers) }

    function JoinAfter(): nat { AtLeast(1, joinConfirmations) }

    function LeaveAfter(): nat { AtLeast(1, leaveMisses) }

    /** base_count + max_extra */
    function Capacity(): nat {
      |topics| + (if ownTopic != "" then 1 else 0) + AtLeast(0, autoJoinMaxTopics)
    }

    /** _protected_pubsub_topics */
    function Protected(): set<Topic> {
      (set t | t in topics) + ({ownTopic} - {""})
    }
  }

  // ---------------------------------------------------------------------
  // One topic over many scans
  // ---------------------------------------------------------------------

  function Max(a: nat, b: nat): nat {
    if a < b then b else a
  }

  /** What one scan that found c announcing peers makes of a topic's statistics. */
  function Scan(st: Streak, c: nat, minPeers: nat, leaveAfter: nat): Streak {
    if c >= minPeers then Streak(st.hits + 1, 0, Max(st.maxPeers, c))
    else if st.misses + 1 >= leaveAfter then Streak(0, st.misses + 1, 0)
    else Streak(st.hits, st.misses + 1, st.maxPeers)
  }

  /** The statistics after the scans of a history, oldest first. */
  function Scans(history: seq<nat>, minPeers: nat, leaveAfter: nat): Streak {
    if history == [] then NEW_STREAK
    else Scan(Scans(history[..|history| - 1], minPeers, leaveAfter), history[|history| - 1], minPeers, leaveAfter)
  }

  /** How many scans in a row, counting back from the last, were below the threshold. */
  function BelowRun(history: seq<nat>, minPeers: nat): (n: nat)
    ensures n <= |history|
  {
    if history == [] || history[|history| - 1] >= minPeers then 0
    else 1 + BelowRun(history[..|history| - 1], minPeers)
  }

  /** How many scans in a row, counting back from the last, reached the threshold. */
  function AboveRun(history: seq<nat>, minPeers: nat): (n: nat)
    ensures n <= |history|
  {
    if history == [] || history[|history| - 1] < minPeers then 0
    else 1 + AboveRun(history[..|history| - 1], minPeers)
  }

  function CountAbove(history: seq<nat>, minPeers: nat): nat {
    if history == [] then 0
    else CountAbove(history[..|history| - 1], minPeers) + if history[|history| - 1] >= minPeers then 1 else 0
  }

  function PeakAbove(history: seq<nat>, minPeers: nat): nat {
    if history == [] then 0
    else
      var c := history[|history| - 1];
      var peak := PeakAbove(history[..|history| - 1], minPeers);
      if c >= minPeers then Max(peak, c) else peak
  }

  /** After i scans the streak was dead: that many misses in a row had been seen. */
  ghost predicate DeadAfter(history: seq<nat>, i: nat, minPeers: nat, leaveAfter: nat)
    requires i <= |history|
  {
    i > 0 && BelowRun(history[..i], minPeers) >= leaveAfter
  }

  /** d is where the history since the last dead streak begins. */
  ghost predicate LastDeath(history: seq<nat>, d: nat, minPeers: nat, leaveAfter: nat) {
    && d <= |history|
    && (d == 0 || DeadAfter(history, d, minPeers, leaveAfter))
    && forall i :: d < i <= |history| ==> !DeadAfter(history, i, minPeers, leaveAfter)
  }

  lemma EarlierDeath(history: seq<nat>, d: nat, minPeers: nat, leaveAfter: nat)
    requires history != [] && d < |history| && LastDeath(history, d, minPeers, leaveAfter)
    ensures LastDeath(history[..|history| - 1], d, minPeers, leaveAfter)
  {
    SameDeaths(history, minPeers, leaveAfter);
  }

  lemma SameDeaths(history: seq<nat>, minPeers: nat, leaveAfter: nat)
    requires history != []
    ensures
      var earlier := history[..|history| - 1];
      forall i: nat :: i <= |earlier| ==>
        DeadAfter(earlier, i, minPeers, leaveAfter) == DeadAfter(history, i, minPeers, leaveAfter)
  {
    var earlier := history[..|history| - 1];
    forall i: nat | i <= |earlier|
      ensures DeadAfter(earlier, i, minPeers, leaveAfter) == DeadAfter(history, i, minPeers, leaveAfter)
    {
      assert earlier[..i] == history[..i];
    }
  }

  /** Every history has such a beginning, and only one. */
  lemma {:induction false} LastDeathExists(history: seq<nat>, minPeers: nat, leaveAfter: nat) returns (d: nat)
    ensures LastDeath(history, d, minPeers, leaveAfter)
    ensures forall e :: LastDeath(history, e, minPeers, leaveAfter) ==> e == d
    decreases |history|
  {
    if history == [] {
      d := 0;
    } else if DeadAfter(history, |history|, minPeers, leaveAfter) {
      d := |history|;
    } else {
      d := LastDeathExists(history[..|history| - 1], minPeers, leaveAfter);
      SameDeaths(history, minPeers, leaveAfter);
    }
  }

  lemma {:induction false} MissesAreBelowRun(history: seq<nat>, minPeers: nat, leaveAfter: nat)
    ensures Scans(history, minPeers, leaveAfter).misses == BelowRun(history, minPeers)
  {
    if history != [] {
      MissesAreBelowRun(history[..|history| - 1], minPeers, leaveAfter);
    }
  }

  /**
   While a topic has statistics, its misses are the length of the present run below the
   threshold, and its hits and peak are those of the scans since the last dead streak.
   */
  lemma {:induction false} StatisticsMean(history: seq<nat>, d: nat, minPeers: nat, leaveAfter: nat)
    requires leaveAfter >= 1 && LastDeath(history, d, minPeers, leaveAfter)
    ensures
      Scans(history, minPeers, leaveAfter)
      == Streak(CountAbove(history[d..], minPeers), BelowRun(history, minPeers), PeakAbove(history[d..], minPeers))
    decreases |history|
  {
    MissesAreBelowRun(history, minPeers, leaveAfter);
    assert history[..|history|] == history;
    if d == |history| {
      assert history[d..] == [];
    } else {
      var earlier := history[..|history| - 1];
      EarlierDeath(history, d, minPeers, leaveAfter);
      StatisticsMean(earlier, d, minPeers, leaveAfter);
      assert history[d..][..|history| - d - 1] == earlier[d..];
      assert !DeadAfter(history, |history|, minPeers, leaveAfter);
    }
  }

  lemma {:induction false} AboveRunIsCounted(history: seq<nat>, minPeers: nat)
    ensures Scans(history, minPeers, 1).hits == AboveRun(history, minPeers)
  {
    if history != [] {
      AboveRunIsCounted(history[..|history| - 1], minPeers);
    }
  }

  /**
   The hits a topic needs to be joined are described as consecutive scans. They count
   consecutive scans, whatever the history, if and only if one miss already ends a streak.
   */
  lemma HitsAreConsecutiveExactly(minPeers: nat, leaveAfter: nat)
    requires minPeers >= 1 && leaveAfter >= 1
    ensures
      (forall history :: Scans(history, minPeers, leaveAfter).hits == AboveRun(history, minPeers))
      <==> leaveAfter == 1
  {
    if leaveAfter == 1 {
      forall history
        ensures Scans(history, minPeers, leaveAfter).hits == AboveRun(history, minPeers)
      {
        AboveRunIsCounted(history, minPeers);
      }
    } else {
      InterruptedHitsCount(minPeers, leaveAfter);
    }
  }

  /** A hit, a miss and a hit are two hits, but a run of only one. */
  lemma InterruptedHitsCount(minPeers: nat, leaveAfter: nat)
    requires minPeers >= 1 && leaveAfter >= 2
    ensures Scans([minPeers, 0, minPeers], minPeers, leaveAfter).hits == 2
    ensures AboveRun([minPeers, 0, minPeers], minPeers) == 1
  {
    var one, two, three := [minPeers], [minPeers, 0], [minPeers, 0, minPeers];
    assert one[..0] == [] && two[..1] == one && three[..2] == two;
    assert Scans(one, minPeers, leaveAfter) == Streak(1, 0, minPeers);
    assert Scans(two, minPeers, leaveAfter) == Streak(1, 1, minPeers);
    assert AboveRun(two, minPeers) == 0;
  }

  /** As many scans in a row that each find m peers. */
  function Hits(n: nat, m: nat): seq<nat> {
    seq(n, i => m)
  }

  lemma {:induction false} HitsMean(n: nat, minPeers: nat, leaveAfter: nat)
    requires leaveAfter >= 1
    ensures Scans(Hits(n, minPeers), minPeers, leaveAfter) == Streak(n, 0, if n == 0 then 0 else minPeers)
    decreases n
  {
    if n > 0 {
      HitsMean(n - 1, minPeers, leaveAfter);
      assert Hits(n, minPeers)[..n - 1] == Hits(n - 1, minPeers);
    }
  }

  /** Confirmations followed by one miss still are as many hits, but no run of confirmations at all. */
  lemma MissAfterHits(n: nat, minPeers: nat, leaveAfter: nat)
    requires minPeers >= 1 && leaveAfter >= 2
    ensures Scans(Hits(n, minPeers) + [0], minPeers, leaveAfter).hits == n
    ensures AboveRun(Hits(n, minPeers) + [0], minPeers) == 0
  {
    HitsMean(n, minPeers, leaveAfter);
    assert (Hits(n, minPeers) + [0])[..n] == Hits(n, minPeers);
  }

  /**
   The join rule: a topic with enough hits has that many confirmations in a row, whatever
   its history, if and only if one miss already ends a streak.
   */
  lemma JoinRuleIsConsecutiveExactly(minPeers: nat, leaveAfter: nat, joinAfter: nat)
    requires minPeers >= 1 && leaveAfter >= 1 && joinAfter >= 1
    ensures
      (forall history :: Scans(history, minPeers, leaveAfter).hits >= joinAfter ==>
         AboveRun(history, minPeers) >= joinAfter)
      <==> leaveAfter == 1
  {
    if leaveAfter == 1 {
      forall history
        ensures Scans(history, minPeers, leaveAfter).hits == AboveRun(history, minPeers)
      {
        AboveRunIsCounted(history, minPeers);
      }
    } else {
      MissAfterHits(joinAfter, minPeers, leaveAfter);
    }
  }

  /** A dead streak has no hits, so a topic that may be joined is not one that must be left. */
  lemma {:induction false} DeadHasNoHits(history: seq<nat>, minPeers: nat, leaveAfter: nat)
    requires leaveAfter >= 1
    ensures
      var st := Scans(history, minPeers, leaveAfter);
      st.misses >= leaveAfter ==> st.hits == 0
  {
    if history != [] {
      DeadHasNoHits(history[..|history| - 1], minPeers, leaveAfter);
    }
  }

  // ---------------------------------------------------------------------
  // One pass
  // ---------------------------------------------------------------------

  type Statistics = map<Topic, Streak>

  function StreakOf(stats: Statistics, t: Topic): Streak {
    if t in stats then stats[t] else NEW_STREAK
  }

  function CountOf(counts: map<Topic, nat>, t: Topic): nat {
    if t in counts then counts[t] else 0
  }

  /** The topics a scan updates: those with statistics and those someone announces. */
  function Scanned(stats: Statistics, counts: map<Topic, nat>): set<Topic> {
    stats.Keys + set t | t in counts && counts[t] >= 1
  }

  function Updated(stats: Statistics, counts: map<Topic, nat>, config: Config): Statistics {
    map t | t in Scanned(stats, counts) ::
      Scan(StreakOf(stats, t), CountOf(counts, t), config.MinPeers(), config.LeaveAfter())
  }

  /** The subscriptions a pass gives up. */
  function Stale(stats: Statistics, subs: set<Topic>, config: Config): set<Topic> {
    set t | t in subs && t !in config.Protected() && t in stats && stats[t].misses >= config.LeaveAfter()
  }

  /** The topics a pass may join. */
  function Candidates(stats: Statistics, subs: set<Topic>, config: Config): set<Topic> {
    set t | t in stats && stats[t].hits >= config.JoinAfter() && t !in subs
  }

  ghost predicate Ranked(stats: Statistics, ranked: seq<Topic>, candidates: set<Topic>) {
    && (forall t :: t in ranked <==> t in candidates)
    && (forall t :: t in ranked ==> t in stats)
    && (forall i, j :: 0 <= i < j < |ranked| ==>
          ranked[i] != ranked[j] && stats[ranked[i]].maxPeers >= stats[ranked[j]].maxPeers)
  }

  ghost function Members(s: seq<Topic>): set<Topic> {
    set t | t in s
  }

  type Histories = map<Topic, seq<nat>>

  function ScansOf(history: seq<nat>, config: Config): Streak {
    Scans(history, config.MinPeers(), config.LeaveAfter())
  }

  /** Every topic's statistics are those of its history. */
  ghost predicate Agree(stats: Statistics, histories: Histories, config: Config) {
    && histories.Keys == stats.Keys
    && forall t :: t in stats ==> stats[t] == ScansOf(histories[t], config)
  }

  /** The histories after one more scan. */
  ghost function Longer(stats: Statistics, histories: Histories, counts: map<Topic, nat>): Histories {
    map t | t in Scanned(stats, counts) :: (if t in histories then histories[t] else []) + [CountOf(counts, t)]
  }

  lemma ScanExtends(history: seq<nat>, c: nat, config: Config)
    ensures ScansOf(history + [c], config) == Scan(ScansOf(history, config), c, config.MinPeers(), config.LeaveAfter())
    ensures ScansOf([], config) == NEW_STREAK
  {
    assert (history + [c])[..|history|] == history;
  }

  lemma UpdateAgrees(stats: Statistics, histories: Histories, counts: map<Topic, nat>, config: Config)
    requires Agree(stats, histories, config)
    ensures Agree(Updated(stats, counts, config), Longer(stats, histories, counts), config)
  {
    hide Scan, ScansOf;
    forall t | t in Scanned(stats, counts)
      ensures Updated(stats, counts, config)[t] == ScansOf(Longer(stats, histories, counts)[t], config)
    {
      ScanExtends(if t in histories then histories[t] else [], CountOf(counts, t), config);
    }
  }

  /** What a pass changes: statistics, subscriptions, and the topics it counts as joined by itself. */
  datatype Board = Board(stats: Statistics, subs: set<Topic>, auto: set<Topic>) {
    function Without(gone: set<Topic>): Board {
      Board(stats - gone, subs - gone, auto - gone)
    }
  }

  /**
   One pass. counts are the announcing peers found, accepts the topics a subscription to
   which succeeds; of the ranked candidates the first joined were tried.
   */
  datatype Pass = Pass(
    counts: map<Topic, nat>, accepts: set<Topic>, before: Board,
    ranked: seq<Topic>, joined: nat, left: nat, after: Board)
  {
    function Scanned(config: Config): Statistics {
      Updated(before.stats, counts, config)
    }

    function Left(config: Config): set<Topic> {
      Stale(Scanned(config), before.subs, config)
    }

    /** The subscriptions that were neither left nor joined in this pass. */
    function Kept(config: Config): set<Topic> {
      before.subs - Left(config)
    }

    ghost function Tried(): set<Topic>
      requires joined <= |ranked|
    {
      Members(ranked[..joined])
    }
  }

  /** What one pass does. */
  ghost predicate PassEffect(config: Config, p: Pass) {
    && p.left == |p.Left(config)|
    && p.joined <= |p.ranked|
    && p.after.stats == p.Scanned(config) - p.Left(config)
    && Ranked(p.after.stats, p.ranked, Candidates(p.after.stats, p.Kept(config), config))
    && p.after.subs == p.Kept(config) + p.Tried() * p.accepts
    && p.after.auto == p.before.auto - p.Left(config) + p.Tried()
    && (p.joined == |p.ranked| || |p.after.subs| >= config.Capacity())
    && forall n :: 0 <= n < p.joined ==> |p.Kept(config) + Members(p.ranked[..n]) * p.accepts| < config.Capacity()
  }

  lemma OneMoreFits(kept: set<Topic>, members: set<Topic>, accepts: set<Topic>, t: Topic, capacity: nat)
    requires |kept + members * accepts| < capacity
    ensures |kept + (members + {t}) * accepts| <= capacity
  {
    Joined(kept, members, accepts, t);
  }

  /** A pass ends with at most the cap, or what was subscribed before, even when some subscriptions fail. */
  lemma PassKeepsCap(config: Config, p: Pass)
    requires PassEffect(config, p)
    ensures |p.after.subs| <= Max(|p.before.subs|, config.Capacity())
  {
    hide *;
    var kept := p.Kept(config);
    PassSubs(config, p);
    SubsetCount(kept, p.before.subs);
    if p.joined > 0 {
      var n := p.joined - 1;
      MembersSnoc(p.ranked, n);
      OneMoreFits(kept, Members(p.ranked[..n]), p.accepts, p.ranked[n], config.Capacity());
    } else {
      NoMembers(p.ranked);
      assert kept + {} * p.accepts == kept;
    }
    MaxMeans(|p.before.subs|, config.Capacity());
  }

  lemma MaxMeans(a: nat, b: nat)
    ensures a <= Max(a, b) && b <= Max(a, b)
  {
  }

  /** What a pass does to the subscriptions. */
  lemma PassSubs(config: Config, p: Pass)
    requires PassEffect(config, p)
    ensures p.joined <= |p.ranked| && p.Kept(config) <= p.before.subs
    ensures p.after.subs == p.Kept(config) + Members(p.ranked[..p.joined]) * p.accepts
    ensures p.joined > 0 ==>
      |p.Kept(config) + Members(p.ranked[..p.joined - 1]) * p.accepts| < config.Capacity()
  {
    hide Candidates, Ranked, Members, Config.Capacity, Stale, Updated;
  }

  /** The topics tried are a prefix of the ranking, so none passed over outranks one that was tried. */
  lemma PassIsGreedy(config: Config, p: Pass, tried: Topic, passed: Topic)
    requires PassEffect(config, p)
    requires tried in p.ranked[..p.joined]
    requires passed in Candidates(p.after.stats, p.after.subs, config) && passed !in p.ranked[..p.joined]
    ensures tried in p.after.stats && p.after.stats[tried].maxPeers >= p.after.stats[passed].maxPeers
    ensures |p.after.subs| >= config.Capacity()
  {
    assert passed in Candidates(p.after.stats, p.Kept(config), config);
    assert passed in p.ranked;
    var i :| 0 <= i < p.joined && p.ranked[i] == tried;
    var j :| 0 <= j < |p.ranked| && p.ranked[j] == passed;
    assert forall k :: 0 <= k < p.joined ==> p.ranked[k] in p.ranked[..p.joined];
  }

  /**
   Protected topics are never dropped, what was left is not tried again, and afterwards
   no unprotected subscription with statistics has missed too often.
   */
  lemma PassHysteresis(config: Config, p: Pass, histories: Histories)
    requires PassEffect(config, p) && Agree(p.before.stats, histories, config)
    ensures p.before.subs * config.Protected() <= p.after.subs
    ensures forall t :: t in p.before.subs && IsProtected(config, t) ==> t in p.after.subs
    ensures forall t :: t in p.Left(config) ==> t !in p.ranked && t !in p.after.subs
    ensures Stale(p.after.stats, p.after.subs, config) == {}
    ensures forall t :: t in p.after.subs && !IsProtected(config, t) && t in p.after.stats ==>
      p.after.stats[t].misses < if config.leaveMisses < 1 then 1 else config.leaveMisses
  {
    PassHasNoStale(config, p, histories);
    forall t
      ensures t in config.Protected() <==> IsProtected(config, t)
    {
      ProtectedMeans(config, t);
    }
    hide *;
    StaleMeans(config, p.after);
  }

  lemma StaleMeans(config: Config, b: Board)
    requires Stale(b.stats, b.subs, config) == {}
    ensures forall t :: t in b.subs && !IsProtected(config, t) && t in b.stats ==>
      b.stats[t].misses < if config.leaveMisses < 1 then 1 else config.leaveMisses
  {
    forall t | t in b.subs && !IsProtected(config, t) && t in b.stats
      ensures b.stats[t].misses < config.LeaveAfter()
    {
      ProtectedMeans(config, t);
      assert t !in Stale(b.stats, b.subs, config);
    }
  }

  lemma PassHasNoStale(config: Config, p: Pass, histories: Histories)
    requires PassEffect(config, p) && Agree(p.before.stats, histories, config)
    ensures p.before.subs * config.Protected() <= p.after.subs
    ensures forall t :: t in p.Left(config) ==> t !in p.ranked && t !in p.after.subs
    ensures Stale(p.after.stats, p.after.subs, config) == {}
  {
    UpdateAgrees(p.before.stats, histories, p.counts, config);
    forall t | t in p.Left(config)
      ensures t !in p.ranked
    {
      assert t !in p.after.stats;
    }
    forall t | t in p.after.subs && t in p.after.stats && t !in p.before.subs
      ensures p.after.stats[t].misses < config.LeaveAfter()
    {
      assert t in p.ranked;
      DeadHasNoHits(Longer(p.before.stats, histories, p.counts)[t], config.MinPeers(), config.LeaveAfter());
    }
  }

  // ---------------------------------------------------------------------
  // Joined, or only tried
  // ---------------------------------------------------------------------

  lemma {:induction false} DistinctMembers(s: seq<Topic>)
    requires forall i, j :: 0 <= i < j < |s| ==> s[i] != s[j]
    ensures |Members(s)| == |s|
  {
    if s != [] {
      var n := |s| - 1;
      DistinctMembers(s[..n]);
      MembersSnoc(s, n);
      assert s[..n + 1] == s;
      assert s[n] !in Members(s[..n]);
    }
  }

  /** The best-ranked candidates are different from each other and not subscribed to. */
  lemma TopAreNew(config: Config, p: Pass, n: nat)
    requires PassEffect(config, p) && n <= |p.ranked|
    ensures Members(p.ranked[..n]) !! p.Kept(config) && |Members(p.ranked[..n])| == n
  {
    forall t | t in Members(p.ranked[..n])
      ensures t !in p.Kept(config)
    {
      assert t in p.ranked;
    }
    DistinctMembers(p.ranked[..n]);
  }

  /** How many candidates there is room for once the stale topics are left. */
  function Room(config: Config, p: Pass): (n: nat)
    ensures n <= |p.ranked|
  {
    var free := config.AtLeast(0, config.Capacity() - |p.Kept(config)|);
    if free < |p.ranked| then free else |p.ranked|
  }

  lemma TopGrows(ranked: seq<Topic>, m: nat, n: nat)
    requires m <= n <= |ranked|
    ensures Members(ranked[..m]) <= Members(ranked[..n])
  {
    assert ranked[..m] == ranked[..n][..m];
  }

  lemma CountDisjoint(a: set<Topic>, b: set<Topic>)
    requires a !! b
    ensures |a + b| == |a| + |b|
  {
  }

  /** A pass never tries fewer candidates than there is room for. */
  lemma TriesAtLeastRoom(config: Config, p: Pass)
    requires PassEffect(config, p)
    ensures p.joined >= Room(config, p)
  {
    var kept, gained := p.Kept(config), p.Tried() * p.accepts;
    TopAreNew(config, p, p.joined);
    SubsetCount(gained, p.Tried());
    CountDisjoint(kept, gained);
    hide Ranked, Candidates, Members, Pass.Kept, Pass.Left, Pass.Tried, Config.Capacity;
  }

  /** It tries more only after a refusal. */
  lemma TriesMoreAfterRefusal(config: Config, p: Pass)
    requires PassEffect(config, p) && p.joined > Room(config, p)
    ensures !(Members(p.ranked[..Room(config, p)]) <= p.accepts)
  {
    var kept, room := p.Kept(config), Room(config, p);
    var top := Members(p.ranked[..room]);
    TopAreNew(config, p, room);
    CountDisjoint(kept, top);
    assert |kept + top * p.accepts| < config.Capacity();
    hide Ranked, Candidates, Members, Pass.Kept, Pass.Left, Pass.Tried, Config.Capacity;
    assert top <= p.accepts ==> top * p.accepts == top;
  }

  /** Whether every candidate there is room for would be accepted. */
  ghost predicate NoRefusal(config: Config, p: Pass) {
    Members(p.ranked[..Room(config, p)]) <= p.accepts
  }

  lemma TriedAreAcceptedExactly(config: Config, p: Pass)
    requires PassEffect(config, p)
    ensures p.Tried() <= p.accepts <==> NoRefusal(config, p)
  {
    TriesAtLeastRoom(config, p);
    TopGrows(p.ranked, Room(config, p), p.joined);
    hide Room, Members, Ranked, Candidates, Pass.Kept, Pass.Left;
    if p.joined > Room(config, p) {
      TriesMoreAfterRefusal(config, p);
    }
  }

  /**
   What a pass reports as joined it has joined if and only if no candidate there is room
   for is refused; then and only then does it report the number of new subscriptions.
   */
  lemma JoinedMeansSubscribedExactly(config: Config, p: Pass)
    requires PassEffect(config, p)
    ensures p.Tried() <= p.after.subs <==> NoRefusal(config, p)
    ensures p.joined == |p.after.subs - p.Kept(config)| <==> NoRefusal(config, p)
  {
    TriedAreAcceptedExactly(config, p);
    TopAreNew(config, p, p.joined);
    hide Room, Members, Ranked, Candidates, Pass.Kept, Pass.Left, NoRefusal, Config.Capacity;
    var gained := p.Tried() * p.accepts;
    assert p.after.subs - p.Kept(config) == gained;
    SubsetCount(gained, p.Tried());
    hide *;
    assert gained == p.Tried() <==> p.Tried() <= p.accepts;
  }

  /** The topics marked as joined automatically stay among the subscriptions under the same condition. */
  lemma AutoJoinedMeansSubscribedExactly(config: Config, p: Pass)
    requires PassEffect(config, p) && p.before.auto <= p.before.subs
    ensures p.after.auto <= p.after.subs <==> NoRefusal(config, p)
  {
    TriedAreAcceptedExactly(config, p);
    TopAreNew(config, p, p.joined);
    hide Pass.Left, Pass.Tried, Ranked, Candidates, NoRefusal;
  }

  /** One candidate whose subscription is refused is reported and marked as joined all the same. */
  lemma RefusedTopicCountsAsJoined(t: Topic) returns (config: Config, p: Pass)
    requires t != ""
    ensures PassEffect(config, p)
    ensures p.joined == 1 && p.after.auto == {t} && p.after.subs == {}
  {
    config := Config(1, 1, 1, 1, [], "");
    var stats := map[t := Streak(1, 0, 1)];
    p := Pass(map[t := 1], {}, Board(map[], {}, {}), [t], 1, 0, Board(stats, {}, {t}));
    FirstScan(t, config);
    assert p.Left(config) == {} && stats - {} == stats;
    assert p.Kept(config) == {};
    assert p.Tried() == {t} by {
      MembersSnoc([t], 0);
      NoMembers([t]);
    }
    assert Ranked(stats, [t], Candidates(stats, {}, config));
    hide Updated, Stale, Candidates, Ranked, Members, Pass.Kept, Pass.Left, Pass.Scanned, Pass.Tried;
    assert {t} * {} == {} && {} + {t} == {t};
    assert p.Kept(config) + Members(p.ranked[..0]) * p.accepts == {};
  }

  lemma FirstScan(t: Topic, config: Config)
    requires config == Config(1, 1, 1, 1, [], "")
    ensures Updated(map[], map[t := 1], config) == map[t := Streak(1, 0, 1)]
  {
    assert Scanned(map[], map[t := 1]) == {t};
  }

  // ---------------------------------------------------------------------
  // The rules of a pass in terms of the configuration
  // ---------------------------------------------------------------------

  /** A configured topic, or the node's own. */
  ghost predicate IsProtected(config: Config, t: Topic) {
    (exists i :: 0 <= i < |config.topics| && config.topics[i] == t) || (t == config.ownTopic && t != "")
  }

  /** This scan makes it one miss too many. */
  ghost predicate MissesTooOften(config: Config, p: Pass, t: Topic) {
    var count := if t in p.counts then p.counts[t] else 0;
    var misses := if t in p.before.stats then p.before.stats[t].misses else 0;
    && (t in p.before.stats || count >= 1)
    && count < (if config.autoJoinMinPeers < 1 then 1 else config.autoJoinMinPeers)
    && misses + 1 >= if config.leaveMisses < 1 then 1 else config.leaveMisses
  }

  /** How many subscriptions there may be: the configured topics, the node's own, and so many more. */
  ghost function Cap(config: Config): int {
    |config.topics| + (if config.ownTopic == "" then 0 else 1)
    + if config.autoJoinMaxTopics < 0 then 0 else config.autoJoinMaxTopics
  }

  ghost predicate IsCandidate(config: Config, p: Pass, t: Topic) {
    && t in p.after.stats && t !in p.before.subs
    && p.after.stats[t].hits >= if config.joinConfirmations < 1 then 1 else config.joinConfirmations
  }

  /**
   What a pass does to the subscriptions, in terms of the configuration, the scan and the
   statistics only.
   */
  ghost predicate FollowsRules(config: Config, p: Pass) {
    && (forall t :: LeavesByRule(config, p, t) && JoinsByRule(config, p, t))
    && |p.after.subs| <= Max(|p.before.subs|, Cap(config))
  }

  /** A subscription is left exactly when it is unprotected and misses too often, with all that is known of it. */
  ghost predicate LeavesByRule(config: Config, p: Pass, t: Topic) {
    t in p.before.subs ==>
      && (t !in p.after.subs <==> !IsProtected(config, t) && MissesTooOften(config, p, t))
      && (t !in p.after.subs ==> t !in p.after.stats && t !in p.after.auto)
  }

  /**
   A topic is joined exactly when it is tried and accepted. The candidates are ranked and tried
   from the top, and one is passed over only when the cap is reached.
   */
  ghost predicate JoinsByRule(config: Config, p: Pass, t: Topic) {
    && p.joined <= |p.ranked|
    && (t in p.ranked <==> IsCandidate(config, p, t))
    && (t !in p.before.subs ==> (t in p.after.subs <==> t in p.ranked[..p.joined] && t in p.accepts))
    && (t in p.ranked && t !in p.ranked[..p.joined] ==> |p.after.subs| >= Cap(config))
  }

  lemma ProtectedMeans(config: Config, t: Topic)
    ensures t in config.Protected() <==> IsProtected(config, t)
    ensures config.Capacity() == Cap(config)
  {
  }

  lemma LeftMeans(config: Config, p: Pass, t: Topic)
    ensures t in p.Left(config) <==> t in p.before.subs && !IsProtected(config, t) && MissesTooOften(config, p, t)
  {
    ProtectedMeans(config, t);
    hide Config.Protected, IsProtected;
  }

  lemma CandidatesMean(config: Config, p: Pass, t: Topic)
    requires PassEffect(config, p)
    ensures t in p.ranked <==> IsCandidate(config, p, t)
  {
    var scanned := p.Scanned(config);
    assert t in p.Kept(config) <==> t in p.before.subs && t !in p.Left(config);
    assert t in p.Left(config) ==> t !in p.after.stats;
    hide Updated, Stale, Pass.Left;
  }

  lemma OneTopic(config: Config, p: Pass, t: Topic)
    requires PassEffect(config, p)
    ensures LeavesByRule(config, p, t) && JoinsByRule(config, p, t)
  {
    LeftMeans(config, p, t);
    CandidatesMean(config, p, t);
    ProtectedMeans(config, t);
    hide Pass.Left, IsProtected, MissesTooOften, Cap, Config.Capacity, Ranked, Candidates, Updated;
    assert t in p.Tried() <==> t in p.ranked[..p.joined];
    assert t in p.ranked[..p.joined] ==> t in p.ranked;
  }

  /** A pass follows its rules. */
  lemma PassFollowsRules(config: Config, p: Pass)
    requires PassEffect(config, p)
    ensures FollowsRules(config, p)
  {
    PassKeepsCap(config, p);
    ProtectedMeans(config, "");
    hide PassEffect, LeavesByRule, JoinsByRule, Cap, Config.Capacity;
    forall t
      ensures LeavesByRule(config, p, t) && JoinsByRule(config, p, t)
    {
      OneTopic(config, p, t);
    }
  }

  // ---------------------------------------------------------------------
  // Joined without confirmation
  // ---------------------------------------------------------------------

  const NOTHING := Board(map[], {}, {})

  /** Passes one after the other, from a scorer that has seen nothing yet. */
  ghost predicate IsPassRun(config: Config, passes: seq<Pass>) {
    passes != [] ==>
      var earlier, last := passes[..|passes| - 1], passes[|passes| - 1];
      IsPassRun(config, earlier) && PassEffect(config, last) && last.before == EndOf(earlier)
  }

  function EndOf(passes: seq<Pass>): Board {
    if passes == [] then NOTHING else passes[|passes| - 1].after
  }

  lemma RunSnoc(config: Config, passes: seq<Pass>, p: Pass)
    requires IsPassRun(config, passes) && PassEffect(config, p) && p.before == EndOf(passes)
    ensures IsPassRun(config, passes + [p]) && EndOf(passes + [p]) == p.after
  {
    hide PassEffect;
    assert (passes + [p])[..|passes|] == passes;
  }

  /** With one miss ending a streak, every topic a pass tries has its confirmations in a row. */
  lemma ConfirmedJoin(config: Config, p: Pass, histories: Histories, t: Topic)
    requires PassEffect(config, p) && Agree(p.before.stats, histories, config)
    requires config.LeaveAfter() == 1 && t in p.Tried()
    ensures t in Longer(p.before.stats, histories, p.counts)
    ensures AboveRun(Longer(p.before.stats, histories, p.counts)[t], config.MinPeers()) >= config.JoinAfter()
  {
    UpdateAgrees(p.before.stats, histories, p.counts, config);
    assert t in p.ranked;
    AboveRunIsCounted(Longer(p.before.stats, histories, p.counts)[t], config.MinPeers());
  }

  /** The board after n scans in a row that found t, each time it could be joined being refused. */
  function Refused(config: Config, t: Topic, n: nat): Board {
    Board(if n == 0 then map[] else map[t := Streak(n, 0, config.MinPeers())], {},
          if n >= config.JoinAfter() then {t} else {})
  }

  function RefusedPass(config: Config, t: Topic, n: nat): Pass
    requires n > 0
  {
    var due := n >= config.JoinAfter();
    Pass(map[t := config.MinPeers()], {}, Refused(config, t, n - 1),
         if due then [t] else [], if due then 1 else 0, 0, Refused(config, t, n))
  }

  lemma OneMember(t: Topic)
    ensures Members([t]) == {t} && Members([t][..1]) == {t} && Members([t][..0]) == {}
  {
    assert [t][..1] == [t];
  }

  lemma RefusedScan(config: Config, t: Topic, n: nat)
    requires n > 0
    ensures
      var p, stats := RefusedPass(config, t, n), Refused(config, t, n).stats;
      && p.Scanned(config) == stats && p.Left(config) == {} && p.Kept(config) == {}
      && Candidates(stats, {}, config) == if n >= config.JoinAfter() then {t} else {}
  {
    var p := RefusedPass(config, t, n);
    assert Scanned(p.before.stats, p.counts) == {t};
    assert p.Left(config) == {};
  }

  /** One more refused pass, up to the first at which the topic could be joined. */
  lemma RefusedPassHappens(config: Config, t: Topic, n: nat)
    requires 0 < n <= config.JoinAfter() && config.Capacity() > 0
    ensures PassEffect(config, RefusedPass(config, t, n))
  {
    var p := RefusedPass(config, t, n);
    RefusedScan(config, t, n);
    OneMember(t);
    hide Updated, Stale, Candidates, Members, Pass.Kept, Pass.Left, Pass.Scanned, Config.Capacity;
    assert p.after.stats - {} == p.after.stats;
    if n < config.JoinAfter() {
      assert [][..0] == p.ranked[..0] == [];
    }
    assert p.Tried() == p.after.auto;
    assert p.Kept(config) + Members(p.ranked[..0]) * p.accepts == {};
  }

  /** A scan that finds t nowhere; this time its subscription is accepted. */
  function MissedPass(config: Config, t: Topic): Pass {
    var n := config.JoinAfter();
    Pass(map[], {t}, Refused(config, t, n), [t], 1, 0,
         Board(map[t := Streak(n, 1, config.MinPeers())], {t}, {t}))
  }

  lemma MissedPassHappens(config: Config, t: Topic)
    requires config.LeaveAfter() >= 2 && config.Capacity() > 0
    ensures PassEffect(config, MissedPass(config, t))
  {
    var p := MissedPass(config, t);
    MissedScan(config, t);
    OneMember(t);
    hide Updated, Stale, Candidates, Members, Pass.Kept, Pass.Left, Pass.Scanned, Config.Capacity;
    assert p.after.stats - {} == p.after.stats;
    assert p.Tried() == {t};
    assert p.Kept(config) + Members(p.ranked[..0]) * p.accepts == {};
  }

  lemma MissedScan(config: Config, t: Topic)
    requires config.LeaveAfter() >= 2
    ensures
      var p := MissedPass(config, t);
      && p.Scanned(config) == p.after.stats && p.Left(config) == {} && p.Kept(config) == {}
      && Candidates(p.after.stats, {}, config) == {t}
  {
    var p := MissedPass(config, t);
    assert Scanned(p.before.stats, p.counts) == {t};
    assert p.Left(config) == {};
  }

  /**
   Whenever one miss does not end a streak and anything may be joined at all, some run of
   passes joins a topic that its last scan did not find.
   */
  lemma UnconfirmedJoinHappens(config: Config, t: Topic) returns (passes: seq<Pass>)
    requires config.LeaveAfter() >= 2 && config.Capacity() > 0
    ensures IsPassRun(config, passes) && passes != []
    ensures
      var last := passes[|passes| - 1];
      CountOf(last.counts, t) == 0 && t in last.Tried() && t !in last.before.subs && t in last.after.subs
  {
    var last := MissedPass(config, t);
    OneMember(t);
    assert CountOf(last.counts, t) == 0 && t in last.Tried() && t !in last.before.subs && t in last.after.subs;
    hide *;
    var refused := RefusedRun(config, t, config.JoinAfter());
    MissedPassHappens(config, t);
    MissedPassFollows(config, t);
    RunSnoc(config, refused, last);
    passes := refused + [last];
  }

  lemma MissedPassFollows(config: Config, t: Topic)
    ensures MissedPass(config, t).before == Refused(config, t, config.JoinAfter())
  {
  }

  lemma RefusedPassFollows(config: Config, t: Topic, n: nat)
    requires n > 0
    ensures
      var p := RefusedPass(config, t, n);
      p.before == Refused(config, t, n - 1) && p.after == Refused(config, t, n)
  {
  }

  lemma NothingRefused(config: Config, t: Topic)
    ensures IsPassRun(config, []) && EndOf([]) == Refused(config, t, 0)
  {
  }

  lemma {:induction false} RefusedRun(config: Config, t: Topic, n: nat) returns (passes: seq<Pass>)
    requires n <= config.JoinAfter() && config.Capacity() > 0
    ensures IsPassRun(config, passes) && EndOf(passes) == Refused(config, t, n)
  {
    hide *;
    if n == 0 {
      passes := [];
      NothingRefused(config, t);
    } else {
      var earlier := RefusedRun(config, t, n - 1);
      var p := RefusedPass(config, t, n);
      RefusedPassFollows(config, t, n);
      RefusedPassHappens(config, t, n);
      RunSnoc(config, earlier, p);
      passes := earlier + [p];
    }
  }

  // ---------------------------------------------------------------------
  // What a pass may leave
  // ---------------------------------------------------------------------

  /** The next scan can make the topic stale: one more miss is enough. */
  predicate OneMissFromStale(config: Config, stats: Statistics, t: Topic) {
    if t in stats then stats[t].misses + 1 >= config.LeaveAfter()
    else config.LeaveAfter() == 1 && config.MinPeers() > 1
  }

  lemma StaleWasClose(config: Config, b: Board, counts: map<Topic, nat>, t: Topic)
    requires t in Stale(Updated(b.stats, counts, config), b.subs, config)
    ensures t in b.subs && t !in config.Protected() && OneMissFromStale(config, b.stats, t)
  {
    hide Config.Protected;
  }

  lemma CloseBecomesStale(config: Config, b: Board, t: Topic) returns (counts: map<Topic, nat>)
    requires t in b.subs && t !in config.Protected() && OneMissFromStale(config, b.stats, t)
    ensures t in Stale(Updated(b.stats, counts, config), b.subs, config)
  {
    hide Config.Protected;
    counts := if t in b.stats then map[] else map[t := 1];
    assert t in Scanned(b.stats, counts);
  }

  /**
   Leaving is described for topics the scorer joined itself. Whatever the next scan finds, it
   leaves no other if and only if no other unprotected subscription is one miss from stale.
   */
  lemma LeavesOnlyAutoJoinedExactly(config: Config, b: Board)
    ensures
      (forall counts :: Stale(Updated(b.stats, counts, config), b.subs, config) <= b.auto)
      <==> forall t :: t in b.subs - config.Protected() - b.auto ==> !OneMissFromStale(config, b.stats, t)
  {
    hide Stale, Updated, OneMissFromStale, Config.Protected;
    if t :| t in b.subs - config.Protected() - b.auto && OneMissFromStale(config, b.stats, t) {
      var counts := CloseBecomesStale(config, b, t);
      assert !(Stale(Updated(b.stats, counts, config), b.subs, config) <= b.auto);
    } else {
      forall counts, t | t in Stale(Updated(b.stats, counts, config), b.subs, config)
        ensures t in b.auto
      {
        StaleWasClose(config, b, counts, t);
      }
    }
  }

  lemma AgreeWithout(stats: Statistics, histories: Histories, config: Config, gone: set<Topic>)
    requires Agree(stats, histories, config)
    ensures Agree(stats - gone, histories - gone, config)
  {
    hide ScansOf;
  }

  class Scorer {
    const config: Config
    var topicStats: Statistics
    var subscriptions: set<Topic>
    var autoJoined: set<Topic>
    ghost var histories: Histories  // what each topic's scans found since it has statistics

    function Now(): Board
      reads this
    {
      Board(topicStats, subscriptions, autoJoined)
    }

    ghost predicate Valid()
      reads this
    {
      Agree(topicStats, histories, config)
    }

    constructor (config: Config)
      ensures Valid() && this.config == config && subscriptions == {}
    {
      this.config := config;
      topicStats, subscriptions, autoJoined, histories := map[], {}, {}, map[];
    }

    /** The first loop of a pass. */
    method UpdateStreaks(counts: map<Topic, nat>)
      modifies this`topicStats
      ensures topicStats == Updated(old(topicStats), counts, config)
    {
      var minPeers, leaveAfter := config.MinPeers(), config.LeaveAfter();
      ghost var before := topicStats;
      ghost var after := Updated(topicStats, counts, config);
      var todo := Scanned(topicStats, counts);
      while todo != {}
        invariant before.Keys <= after.Keys && topicStats.Keys <= after.Keys && todo <= after.Keys
        invariant forall t :: t in after && t !in todo ==> t in topicStats && topicStats[t] == after[t]
        invariant forall t :: t in todo ==> StreakOf(topicStats, t) == StreakOf(before, t)
        decreases todo
      {
        var t :| t in todo;
        var c := CountOf(counts, t);
        var st := StreakOf(topicStats, t);
        if c >= minPeers {
          st := Streak(st.hits + 1, 0, Max(st.maxPeers, c));
        } else {
          st := st.(misses := st.misses + 1);
          if st.misses >= leaveAfter {
            st := st.(hits := 0, maxPeers := 0);
          }
        }
        topicStats := topicStats[t := st];
        todo := todo - {t};
      }
      assert topicStats == after;
    }

    /** The second loop: stale subscriptions are left before anything is joined. */
    method LeaveStale() returns (left: nat)
      modifies this`topicStats, this`subscriptions, this`autoJoined
      ensures
        var stale := Stale(old(topicStats), old(subscriptions), config);
        left == |stale| && Now() == old(Now()).Without(stale)
    {
      hide Stale, Board.Without, Config.Protected, Config.LeaveAfter;
      ghost var before := Now();
      ghost var stale := Stale(before.stats, before.subs, config);
      StaleSubscribed(before.stats, before.subs, config);
      ghost var gone: set<Topic> := {};
      left := 0;
      var todo := subscriptions;
      NothingGone(before);
      while todo != {}
        invariant todo <= before.subs && gone == stale - todo && left == |gone|
        invariant Now() == before.Without(gone)
        decreases todo
      {
        var t :| t in todo;
        IsStale(before.stats, before.subs, config, t);
        StillThere(before, gone, t);
        if t !in config.Protected() && t in topicStats && topicStats[t].misses >= config.LeaveAfter() {
          OneMoreGone(before, gone, t);
          subscriptions := subscriptions - {t};
          autoJoined := autoJoined - {t};
          topicStats := topicStats - {t};
          left := left + 1;
          gone := gone + {t};
        }
        todo := todo - {t};
      }
      assert gone == stale;
    }

    /** The candidates, largest peak first, as a sort would list them. */
    method Rank() returns (ranked: seq<Topic>)
      ensures Ranked(topicStats, ranked, Candidates(topicStats, subscriptions, config))
    {
      ghost var all := Candidates(topicStats, subscriptions, config);
      var todo := set t | t in topicStats && topicStats[t].hits >= config.JoinAfter() && t !in subscriptions;
      ranked := [];
      while todo != {}
        invariant todo <= all && Ranked(topicStats, ranked, all - todo)
        invariant forall t, u :: t in ranked && u in todo ==> topicStats[t].maxPeers >= topicStats[u].maxPeers
        decreases todo
      {
        var best := PickBest(todo);
        ranked := ranked + [best];
        todo := todo - {best};
      }
      assert all - {} == all;
    }

    method PickBest(todo: set<Topic>) returns (best: Topic)
      requires todo != {} && todo <= topicStats.Keys
      ensures best in todo && forall t :: t in todo ==> topicStats[best].maxPeers >= topicStats[t].maxPeers
    {
      best :| best in todo;
      var rest := todo - {best};
      while rest != {}
        invariant best in todo && rest <= todo
        invariant forall t :: t in todo - rest ==> topicStats[best].maxPeers >= topicStats[t].maxPeers
        decreases rest
      {
        var t :| t in rest;
        if topicStats[t].maxPeers > topicStats[best].maxPeers {
          best := t;
        }
        rest := rest - {t};
      }
    }

    /**
     subscribe_pubsub_topic, which swallows every failure: a refusal leaves the topic out, but
     one to start the receive loop leaves it subscribed. The result says whether the loop was started.
     */
    method Subscribe(t: Topic, accepted: bool, starts: bool) returns (listening: bool)
      modifies this`subscriptions
      ensures subscriptions == if accepted then old(subscriptions) + {t} else old(subscriptions)
      ensures listening <==> t !in old(subscriptions) && accepted && starts
    {
      if t in subscriptions {
        return false;
      }
      if !accepted {
        return false;
      }
      subscriptions := subscriptions + {t};
      return starts;
    }

    /** The third loop: candidates are tried in order until the cap is reached. */
    method JoinRanked(ranked: seq<Topic>, accepts: set<Topic>) returns (joined: nat)
      modifies this`subscriptions, this`autoJoined
      ensures joined <= |ranked|
      ensures subscriptions == old(subscriptions) + Members(ranked[..joined]) * accepts
      ensures autoJoined == old(autoJoined) + Members(ranked[..joined])
      ensures joined == |ranked| || |subscriptions| >= config.Capacity()
      ensures forall n :: 0 <= n < joined ==> |old(subscriptions) + Members(ranked[..n]) * accepts| < config.Capacity()
    {
      hide *;
      joined := 0;
      NoMembers(ranked);
      while joined < |ranked|
        invariant joined <= |ranked|
        invariant subscriptions == old(subscriptions) + Members(ranked[..joined]) * accepts
        invariant autoJoined == old(autoJoined) + Members(ranked[..joined])
        invariant forall n :: 0 <= n < joined ==>
          |old(subscriptions) + Members(ranked[..n]) * accepts| < config.Capacity()
      {
        if |subscriptions| >= config.Capacity() {
          return;
        }
        var t := ranked[joined];
        MembersSnoc(ranked, joined);
        Joined(old(subscriptions), Members(ranked[..joined]), accepts, t);
        var starts: bool := *;
        var _ := Subscribe(t, t in accepts, starts);
        autoJoined := autoJoined + {t};
        joined := joined + 1;
      }
    }

    /**
     _pubsub_discovery_pass. accepts are the topics a subscription to which succeeds;
     ranked lists the candidates, of which the first joined were tried.
     */
    method DiscoveryPass(counts: map<Topic, nat>, accepts: set<Topic>, running: bool)
      returns (joined: nat, left: nat, ghost ranked: seq<Topic>)
      requires Valid()
      modifies this
      ensures Valid()
      ensures !running ==>
        joined == 0 && left == 0 && Now() == old(Now())
      ensures running ==>
        PassEffect(config, Pass(counts, accepts, old(Now()), ranked, joined, left, Now()))
      ensures running ==>
        FollowsRules(config, Pass(counts, accepts, old(Now()), ranked, joined, left, Now()))
      ensures running ==>
        histories == Longer(old(topicStats), old(histories), counts)
          - Stale(Updated(old(topicStats), counts, config), old(subscriptions), config)
    {
      hide ScansOf, Updated, Longer, Stale, Candidates, Ranked, FollowsRules, Agree;
      ghost var before := Now();
      joined, left, ranked := 0, 0, [];
      if !running {
        return;
      }
      UpdateAgrees(topicStats, histories, counts, config);
      histories := Longer(topicStats, histories, counts);
      UpdateStreaks(counts);
      ghost var stale := Stale(topicStats, subscriptions, config);
      left := LeaveStale();
      AgreeWithout(Updated(before.stats, counts, config), histories, config, stale);
      histories := histories - stale;
      var order := Rank();
      joined := JoinRanked(order, accepts);
      ranked := order;
      PassFollowsRules(config, Pass(counts, accepts, before, ranked, joined, left, Now()));
    }
  }

  lemma NothingGone(b: Board)
    ensures b.Without({}) == b
  {
    assert b.stats - {} == b.stats && b.subs - {} == b.subs && b.auto - {} == b.auto;
  }

  lemma StillThere(b: Board, gone: set<Topic>, t: Topic)
    requires t !in gone
    ensures t in b.Without(gone).stats <==> t in b.stats
    ensures t in b.stats ==> b.Without(gone).stats[t] == b.stats[t]
  {
  }

  lemma OneMoreGone(b: Board, gone: set<Topic>, t: Topic)
    ensures
      var w := b.Without(gone);
      b.Without(gone + {t}) == Board(w.stats - {t}, w.subs - {t}, w.auto - {t})
  {
    assert b.stats - (gone + {t}) == b.stats - gone - {t};
    assert b.subs - (gone + {t}) == b.subs - gone - {t};
    assert b.auto - (gone + {t}) == b.auto - gone - {t};
  }

  lemma Joined(subs: set<Topic>, members: set<Topic>, accepts: set<Topic>, t: Topic)
    ensures
      subs + (members + {t}) * accepts
      == if t in accepts then subs + members * accepts + {t} else subs + members * accepts
  {
  }

  lemma StaleSubscribed(stats: Statistics, subs: set<Topic>, config: Config)
    ensures Stale(stats, subs, config) <= subs
  {
  }

  lemma IsStale(stats: Statistics, subs: set<Topic>, config: Config, t: Topic)
    requires t in subs
    ensures
      t in Stale(stats, subs, config)
      <==> t !in config.Protected() && t in stats && stats[t].misses >= config.LeaveAfter()
  {
  }

  lemma NoMembers(ranked: seq<Topic>)
    ensures Members(ranked[..0]) == {}
  {
  }

  lemma MembersSnoc(ranked: seq<Topic>, n: nat)
    requires n < |ranked|
    ensures Members(ranked[..n + 1]) == Members(ranked[..n]) + {ranked[n]}
  {
    assert ranked[..n + 1] == ranked[..n] + [ranked[n]];
  }
}
