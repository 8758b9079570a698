/**
 The keep-alive sweep and its ping tasks (peer/_maintenance.py) as a step system.
 Everything between two awaits is one step; a task waiting for the semaphore may
 be woken in any order.
 */
module KeepAlive {
  type Peer = string

  type TaskId = nat

  const MAX_CONCURRENT := 25
  const INTERVAL := 15.0

  datatype Phase = Queued | Pinging | Cooling

  datatype Task = Task(peer: Peer, phase: Phase)

  datatype State = State(
    clock: real, inflight: set<Peer>, last: map<Peer, real>, tasks: map<TaskId, Task>, permits: int)

  function LastPing(s: State, p: Peer): real {
    if p in s.last then s.last[p] else 0.0
  }

  /** The peers one sweep queues a ping for. */
  function Due(s: State, connected: set<Peer>): set<Peer> {
    set p | p in connected && p !in s.inflight && s.clock - LastPing(s, p) >= INTERVAL
  }

  datatype Event =
    | Tick(now: real)
    | Sweep(connected: set<Peer>)
    | Begin(t: TaskId)   // got the semaphore
    | Pinged(t: TaskId)  // the ping came back: its time is recorded and the semaphore released
    | Failed(t: TaskId)  // an exception: the semaphore is released and the ping is over
    | End(t: TaskId)     // after the pause

  /** The tasks a sweep starts: one new task for each peer that is due. */
  ghost predicate Starts(s: State, started: map<TaskId, Task>, connected: set<Peer>) {
    && started.Keys !! s.tasks.Keys
    && (forall t :: t in started ==> started[t].phase == Queued && started[t].peer in Due(s, connected))
    && (forall p :: p in Due(s, connected) ==> exists t :: t in started && started[t].peer == p)
    && forall t, u :: t in started && u in started && started[t].peer == started[u].peer ==> t == u
  }

  ghost predicate Next(s: State, e: Event, s': State) {
    match e
    case Tick(now) => now >= s.clock && s' == s.(clock := now)
    case Sweep(connected) =>
      exists started: map<TaskId, Task> ::
        && Starts(s, started, connected)
        && s' == s.(inflight := s.inflight + Due(s, connected), tasks := s.tasks + started)
    case Begin(t) =>
      && t in s.tasks && s.tasks[t].phase == Queued && s.permits > 0
      && s' == s.(tasks := s.tasks[t := s.tasks[t].(phase := Pinging)], permits := s.permits - 1)
    case Pinged(t) =>
      && t in s.tasks && s.tasks[t].phase == Pinging
      && s' == s.(tasks := s.tasks[t := s.tasks[t].(phase := Cooling)], permits := s.permits + 1,
                  last := s.last[s.tasks[t].peer := s.clock])
    case Failed(t) =>
      && t in s.tasks && s.tasks[t].phase == Pinging
      && s' == s.(tasks := s.tasks - {t}, permits := s.permits + 1, inflight := s.inflight - {s.tasks[t].peer})
    case End(t) =>
      && t in s.tasks && s.tasks[t].phase == Cooling
      && s' == s.(tasks := s.tasks - {t}, inflight := s.inflight - {s.tasks[t].peer})
  }

  ghost predicate Initial(s: State) {
    s.inflight == {} && s.tasks == map[] && s.permits == MAX_CONCURRENT && s.last == map[]
  }

  ghost predicate IsRun(run: seq<State>, events: seq<Event>) {
    && |run| == |events| + 1
    && Initial(run[0])
    && forall i :: 0 <= i < |events| ==> Next(run[i], events[i], run[i + 1])
  }

  // ---------------------------------------------------------------------
  // The invariant
  // ---------------------------------------------------------------------

  /** No peer has two tasks, and the in-flight peers are those with one. */
  ghost predicate OneTaskEach(s: State) {
    && (forall t, u :: t in s.tasks && u in s.tasks && s.tasks[t].peer == s.tasks[u].peer ==> t == u)
    && (forall t :: t in s.tasks ==> s.tasks[t].peer in s.inflight)
    && forall p :: p in s.inflight ==> exists t :: t in s.tasks && s.tasks[t].peer == p
  }

  ghost function Inside(s: State): set<TaskId> {
    set t | t in s.tasks && s.tasks[t].phase == Pinging
  }

  /** Tasks inside the semaphore and permits left make up the limit. */
  ghost predicate Limited(s: State) {
    s.permits >= 0 && |Inside(s)| + s.permits == MAX_CONCURRENT
  }

  ghost predicate Inv(s: State) {
    OneTaskEach(s) && Limited(s)
  }

  lemma MergeTasks(before: map<TaskId, Task>, started: map<TaskId, Task>)
    requires started.Keys !! before.Keys
    ensures forall t :: t in before ==> (before + started)[t] == before[t]
    ensures forall t :: t in started ==> (before + started)[t] == started[t]
  {
  }

  lemma SweepStartsNoSecond(s: State, connected: set<Peer>, started: map<TaskId, Task>, s': State)
    requires OneTaskEach(s) && Starts(s, started, connected)
    requires s' == s.(inflight := s.inflight + Due(s, connected), tasks := s.tasks + started)
    ensures forall t, u :: t in s'.tasks && u in s'.tasks && s'.tasks[t].peer == s'.tasks[u].peer ==> t == u
  {
    MergeTasks(s.tasks, started);
    forall t, u | t in s'.tasks && u in s'.tasks && s'.tasks[t].peer == s'.tasks[u].peer
      ensures t == u
    {
      assert t in s.tasks || t in started;
      assert u in s.tasks || u in started;
    }
  }

  lemma SweepKeepsOneTaskEach(s: State, connected: set<Peer>, started: map<TaskId, Task>, s': State)
    requires OneTaskEach(s) && Starts(s, started, connected)
    requires s' == s.(inflight := s.inflight + Due(s, connected), tasks := s.tasks + started)
    ensures OneTaskEach(s')
  {
    MergeTasks(s.tasks, started);
    SweepStartsNoSecond(s, connected, started, s');
    forall p | p in s'.inflight
      ensures exists t :: t in s'.tasks && s'.tasks[t].peer == p
    {
      if p in s.inflight {
        var t :| t in s.tasks && s.tasks[t].peer == p;
        assert t in s'.tasks && s'.tasks[t].peer == p;
      } else {
        var t :| t in started && started[t].peer == p;
        assert t in s'.tasks && s'.tasks[t].peer == p;
      }
    }
  }

  lemma SweepKeepsInside(s: State, connected: set<Peer>, started: map<TaskId, Task>, s': State)
    requires Starts(s, started, connected) && s'.tasks == s.tasks + started
    ensures Inside(s') == Inside(s)
  {
    MergeTasks(s.tasks, started);
    hide Due;
    assert forall t :: t in s'.tasks <==> t in s.tasks || t in started;
  }

  lemma SweepKeepsInv(s: State, connected: set<Peer>, s': State)
    requires Inv(s) && Next(s, Sweep(connected), s')
    ensures Inv(s')
  {
    hide Starts, OneTaskEach, Inside;
    var started: map<TaskId, Task> :| Starts(s, started, connected)
      && s' == s.(inflight := s.inflight + Due(s, connected), tasks := s.tasks + started);
    SweepKeepsOneTaskEach(s, connected, started, s');
    SweepKeepsInside(s, connected, started, s');
  }

  lemma PhaseKeepsOneTaskEach(s: State, t: TaskId, phase: Phase, s': State)
    requires OneTaskEach(s) && t in s.tasks
    requires s'.inflight == s.inflight && s'.tasks == s.tasks[t := s.tasks[t].(phase := phase)]
    ensures OneTaskEach(s')
  {
    forall p | p in s'.inflight
      ensures exists u :: u in s'.tasks && s'.tasks[u].peer == p
    {
      var u :| u in s.tasks && s.tasks[u].peer == p;
      assert u in s'.tasks && s'.tasks[u].peer == p;
    }
  }

  lemma RemovalKeepsOneTaskEach(s: State, t: TaskId, s': State)
    requires OneTaskEach(s) && t in s.tasks
    requires s'.tasks == s.tasks - {t} && s'.inflight == s.inflight - {s.tasks[t].peer}
    ensures OneTaskEach(s')
  {
    forall p | p in s'.inflight
      ensures exists u :: u in s'.tasks && s'.tasks[u].peer == p
    {
      var u :| u in s.tasks && s.tasks[u].peer == p;
      assert u in s'.tasks && s'.tasks[u].peer == p;
    }
  }

  lemma InsideAfter(s: State, t: TaskId, x: Task)
    requires t in s.tasks
    ensures
      Inside(s.(tasks := s.tasks[t := x])) == if x.phase == Pinging then Inside(s) + {t} else Inside(s) - {t}
    ensures Inside(s.(tasks := s.tasks - {t})) == Inside(s) - {t}
    ensures t in Inside(s) <==> s.tasks[t].phase == Pinging
  {
  }

  lemma InsideIsTasks(s: State, s': State)
    requires s'.tasks == s.tasks
    ensures Inside(s') == Inside(s)
  {
  }

  lemma EventKeepsOneTaskEach(s: State, e: Event, s': State)
    requires OneTaskEach(s) && Next(s, e, s') && !e.Sweep?
    ensures OneTaskEach(s')
  {
    match e {
      case Tick(_) =>
      case Begin(t) => hide OneTaskEach; PhaseKeepsOneTaskEach(s, t, Pinging, s');
      case Pinged(t) => hide OneTaskEach; PhaseKeepsOneTaskEach(s, t, Cooling, s');
      case Failed(t) => hide OneTaskEach; RemovalKeepsOneTaskEach(s, t, s');
      case End(t) => hide OneTaskEach; RemovalKeepsOneTaskEach(s, t, s');
    }
  }

  lemma EventKeepsLimited(s: State, e: Event, s': State)
    requires Limited(s) && Next(s, e, s') && !e.Sweep?
    ensures Limited(s')
  {
    hide Inside;
    if e.Tick? {
      InsideIsTasks(s, s');
    } else {
      var t := e.t;
      InsideAfter(s, t, if t in s'.tasks then s'.tasks[t] else s.tasks[t]);
      InsideIsTasks(if t in s'.tasks then s.(tasks := s.tasks[t := s'.tasks[t]]) else s.(tasks := s.tasks - {t}), s');
    }
  }

  lemma EventKeepsInv(s: State, e: Event, s': State)
    requires Inv(s) && Next(s, e, s')
    ensures Inv(s')
  {
    hide OneTaskEach, Limited, Next;
    if e.Sweep? {
      SweepKeepsInv(s, e.connected, s');
    } else {
      EventKeepsOneTaskEach(s, e, s');
      EventKeepsLimited(s, e, s');
    }
  }

  /** In every run the in-flight set is exactly the peers with a task, no peer has two, and at most 25 ping at once. */
  lemma {:induction false} RunKeepsInv(run: seq<State>, events: seq<Event>, i: nat)
    requires IsRun(run, events) && i < |run|
    ensures Inv(run[i])
    ensures |set t | t in run[i].tasks && run[i].tasks[t].phase == Pinging| <= 25
    decreases i
  {
    if i > 0 {
      RunKeepsInv(run, events, i - 1);
      assert Next(run[i - 1], events[i - 1], run[i]);
      hide Next, Inv;
      EventKeepsInv(run[i - 1], events[i - 1], run[i]);
    }
    assert i == 0 ==> Inside(run[0]) == {};
    assert Inside(run[i]) == set t | t in run[i].tasks && run[i].tasks[t].phase == Pinging;
  }

  /**
   A sweep queues exactly the connected peers not in flight whose last recorded ping, or the
   start of the clock, is at least 15 seconds ago; each gets one new task and no other task changes.
   */
  lemma SweepQueuesExactly(s: State, connected: set<Peer>, s': State, p: Peer)
    requires Inv(s) && Next(s, Sweep(connected), s')
    ensures
      p in s'.inflight
      <==> p in s.inflight || (p in connected && s.clock - (if p in s.last then s.last[p] else 0.0) >= 15.0)
    ensures p in s'.inflight && p !in s.inflight ==>
      exists t :: t !in s.tasks && t in s'.tasks && s'.tasks[t] == Task(p, Queued)
    ensures forall t :: t in s.tasks ==> t in s'.tasks && s'.tasks[t] == s.tasks[t]
    ensures s'.last == s.last && s'.permits == s.permits && s'.clock == s.clock
  {
    var started: map<TaskId, Task> :| Starts(s, started, connected)
      && s' == s.(inflight := s.inflight + Due(s, connected), tasks := s.tasks + started);
    MergeTasks(s.tasks, started);
    if p in Due(s, connected) {
      var t :| t in started && started[t].peer == p;
      assert s'.tasks[t] == Task(p, Queued);
    }
  }

  // ---------------------------------------------------------------------
  // Spacing
  // ---------------------------------------------------------------------

  /** No recorded time lies in the future, and none is ever taken back. */
  lemma {:induction false} TimesGrow(run: seq<State>, events: seq<Event>, i: nat, j: nat, p: Peer)
    requires IsRun(run, events) && i <= j < |run|
    requires p in run[i].last && run[i].last[p] <= run[i].clock
    ensures p in run[j].last && run[i].last[p] <= run[j].last[p] <= run[j].clock
    decreases j - i
  {
    if i < j {
      TimesGrow(run, events, i, j - 1, p);
      assert Next(run[j - 1], events[j - 1], run[j]);
    }
  }

  /**
   A peer whose ping was recorded is queued again only by a sweep at least 15 seconds
   after that recorded completion.
   */
  lemma RequeuedAfterInterval(run: seq<State>, events: seq<Event>, i: nat, j: nat, p: Peer)
    requires IsRun(run, events) && i < j < |events|
    requires events[i].Pinged? && events[i].t in run[i].tasks && run[i].tasks[events[i].t].peer == p
    requires events[j].Sweep? && p !in run[j].inflight && p in run[j + 1].inflight
    ensures run[j].clock >= run[i].clock + 15.0
  {
    assert Next(run[i], events[i], run[i + 1]);
    assert run[i + 1].last[p] == run[i].clock;
    TimesGrow(run, events, i + 1, j, p);
    assert Next(run[j], events[j], run[j + 1]);
    assert p in Due(run[j], events[j].connected);
  }
}
