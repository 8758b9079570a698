/**
 The readers-writer lock of peer/ipld.py as a state machine over any number of
 tasks. Every await and every statement between two awaits is its own step; a
 task waiting for the inner lock or the semaphore may be woken in any order.
 */
module RWLock {
  import opened Bytes

  type Tid = nat

  /** Where a task is. The names of reader phases say what it did last. */
  datatype Phase =
    | Enter        // about to take the counter's lock
    | CountLocked
    | Counted      // counter raised; the first reader now waits for the semaphore
    | Acquired
    | Reading      // inside the body
    | Leave        // about to take the counter's lock again
    | LeaveLocked
    | Uncounted    // counter lowered; the last reader now releases the semaphore
    | Released
    | ReadDone
    | WriteEnter
    | Writing      // inside the body
    | WriteDone
  {
    predicate HoldsCountLock() {
      this in {CountLocked, Counted, Acquired, LeaveLocked, Uncounted, Released}
    }

    predicate IsCounted() {
      this in {Counted, Acquired, Reading, Leave, LeaveLocked}
    }

    /** The readers' share of the semaphore covers this task. */
    predicate Shares() {
      this in {Acquired, Reading, Leave, LeaveLocked, Uncounted}
    }

    predicate Finished() {
      ReadDone? || WriteDone?
    }
  }

  datatype Lock = Lock(phase: map<Tid, Phase>, holder: Option<Tid>, readCount: int, permits: int) {
    function Go(t: Tid, p: Phase): Lock {
      this.(phase := phase[t := p])
    }
  }

  const INIT := Lock(map[], None, 0, 1)

  /** One step of task t; a task that must wait has none. */
  ghost predicate Steps(l: Lock, t: Tid, l': Lock) {
    t in l.phase && match l.phase[t]
    case Enter => l.holder == None && l' == l.Go(t, CountLocked).(holder := Some(t))
    case CountLocked => l' == l.Go(t, Counted).(readCount := l.readCount + 1)
    case Counted =>
      if l.readCount == 1 then l.permits > 0 && l' == l.Go(t, Acquired).(permits := l.permits - 1)
      else l' == l.Go(t, Acquired)
    case Acquired => l' == l.Go(t, Reading).(holder := None)
    case Reading => l' == l.Go(t, Leave)
    case Leave => l.holder == None && l' == l.Go(t, LeaveLocked).(holder := Some(t))
    case LeaveLocked => l' == l.Go(t, Uncounted).(readCount := l.readCount - 1)
    case Uncounted =>
      l' == l.Go(t, Released).(permits := if l.readCount == 0 then l.permits + 1 else l.permits)
    case Released => l' == l.Go(t, ReadDone).(holder := None)
    case WriteEnter => l.permits > 0 && l' == l.Go(t, Writing).(permits := l.permits - 1)
    case Writing => l' == l.Go(t, WriteDone).(permits := l.permits + 1)
    case ReadDone => false
    case WriteDone => false
  }

  ghost predicate Arrives(l: Lock, t: Tid, l': Lock) {
    t !in l.phase && (l' == l.Go(t, Enter) || l' == l.Go(t, WriteEnter))
  }

  ghost predicate Next(l: Lock, l': Lock) {
    exists t :: Steps(l, t, l') || Arrives(l, t, l')
  }

  ghost predicate IsRun(run: seq<Lock>) {
    && run != []
    && run[0] == INIT
    && forall i :: 0 <= i < |run| - 1 ==> Next(run[i], run[i + 1])
  }

  // ---------------------------------------------------------------------
  // The invariant
  // ---------------------------------------------------------------------

  ghost function CountedTasks(l: Lock): set<Tid> {
    set t | t in l.phase && l.phase[t].IsCounted()
  }

  ghost predicate HolderIsUnique(l: Lock) {
    && (l.holder.Some? ==> l.holder.value in l.phase)
    && forall t :: t in l.phase ==> (l.phase[t].HoldsCountLock() <==> l.holder == Some(t))
  }

  /** A reader is between the raising and the lowering of the counter exactly when the counter counts it. */
  ghost predicate CounterIsExact(l: Lock) {
    l.readCount == |CountedTasks(l)|
  }

  ghost predicate Taken(l: Lock) {
    exists t :: t in l.phase && (l.phase[t].Writing? || l.phase[t].Shares())
  }

  ghost predicate SemaphoreIsBinary(l: Lock) {
    l.permits == if Taken(l) then 0 else 1
  }

  /** At most one writer inside, and never together with a reader. */
  ghost predicate Exclusive(l: Lock) {
    forall t, u :: t in l.phase && u in l.phase && t != u && l.phase[t].Writing? ==>
      !l.phase[u].Writing? && !l.phase[u].Shares()
  }

  ghost predicate Inv(l: Lock) {
    HolderIsUnique(l) && CounterIsExact(l) && SemaphoreIsBinary(l) && Exclusive(l)
  }

  lemma CountedAfter(l: Lock, t: Tid, p: Phase)
    ensures
      CountedTasks(l.Go(t, p)) == if p.IsCounted() then CountedTasks(l) + {t} else CountedTasks(l) - {t}
  {
  }

  /** When the counter is more than this task's own contribution, another reader holds the semaphore. */
  lemma OthersShare(l: Lock, t: Tid) returns (u: Tid)
    requires HolderIsUnique(l) && CounterIsExact(l)
    requires t in l.phase && l.phase[t].HoldsCountLock()
    requires l.readCount > if l.phase[t].IsCounted() then 1 else 0
    ensures u != t && u in l.phase && l.phase[u].Shares()
  {
    var counted := CountedTasks(l);
    assert |counted - {t}| == |counted| - if t in counted then 1 else 0;
    assert counted - {t} != {};
    u :| u in counted - {t};
  }

  /** When the counter is only this task's own contribution, no other reader holds the semaphore. */
  lemma NoOthersShare(l: Lock, t: Tid)
    requires HolderIsUnique(l) && CounterIsExact(l)
    requires t in l.phase && l.phase[t].HoldsCountLock()
    requires l.readCount == if l.phase[t].IsCounted() then 1 else 0
    ensures forall u :: u in l.phase && u != t ==> !l.phase[u].Shares()
  {
    var counted := CountedTasks(l);
    assert |counted - {t}| == |counted| - if t in counted then 1 else 0;
    assert counted - {t} == {};
    forall u | u in l.phase && u != t
      ensures !l.phase[u].IsCounted()
    {
      assert u !in counted - {t};
    }
  }

  /** A step that leaves the share of the semaphore alone keeps everything about it. */
  lemma SameShare(l: Lock, t: Tid, l': Lock)
    requires SemaphoreIsBinary(l) && Exclusive(l) && t in l.phase && t in l'.phase
    requires l'.phase == l.phase[t := l'.phase[t]] && l'.permits == l.permits
    requires l'.phase[t].Writing? == l.phase[t].Writing? && l'.phase[t].Shares() == l.phase[t].Shares()
    ensures SemaphoreIsBinary(l') && Exclusive(l')
  {
    forall u | u in l.phase
      ensures l'.phase[u].Writing? == l.phase[u].Writing? && l'.phase[u].Shares() == l.phase[u].Shares()
    {
    }
    assert Taken(l) == Taken(l');
  }

  lemma FirstReaderAcquires(l: Lock, t: Tid, l': Lock)
    requires Inv(l) && Steps(l, t, l') && l.phase[t] == Counted
    ensures SemaphoreIsBinary(l') && Exclusive(l')
  {
    assert t in CountedTasks(l);
    if l.readCount == 1 {
      NoOthersShare(l, t);
      assert !Taken(l);
      assert l'.phase[t].Shares();
    } else {
      assert |CountedTasks(l)| > 0;
      var u := OthersShare(l, t);
      assert Taken(l) && l'.phase[u].Shares();
    }
  }

  lemma LastReaderReleases(l: Lock, t: Tid, l': Lock)
    requires Inv(l) && Steps(l, t, l') && l.phase[t] == Uncounted
    ensures SemaphoreIsBinary(l') && Exclusive(l')
  {
    assert l.phase[t].Shares() && Taken(l);
    if l.readCount == 0 {
      NoOthersShare(l, t);
      assert !Taken(l');
    } else {
      var u := OthersShare(l, t);
      assert l'.phase[u].Shares();
    }
  }

  lemma StepKeepsCounts(l: Lock, t: Tid, l': Lock)
    requires HolderIsUnique(l) && CounterIsExact(l) && Steps(l, t, l')
    ensures HolderIsUnique(l') && CounterIsExact(l')
  {
    hide *;
    StepKeepsHolder(l, t, l');
    StepKeepsCounter(l, t, l');
  }

  /** The counter moves exactly when the task begins or ceases to be counted. */
  lemma StepMovesCounter(l: Lock, t: Tid, l': Lock)
    requires Steps(l, t, l')
    ensures t in l.phase && l'.phase == l.phase[t := l'.phase[t]]
    ensures
      l'.readCount - l.readCount
      == (if l'.phase[t].IsCounted() then 1 else 0) - (if l.phase[t].IsCounted() then 1 else 0)
  {
  }

  lemma StepKeepsCounter(l: Lock, t: Tid, l': Lock)
    requires CounterIsExact(l) && Steps(l, t, l')
    ensures CounterIsExact(l')
  {
    StepMovesCounter(l, t, l');
    hide Steps, Phase.IsCounted;
    CountedAfter(l, t, l'.phase[t]);
    assert CountedTasks(l') == CountedTasks(l.Go(t, l'.phase[t]));
    assert t in CountedTasks(l) <==> l.phase[t].IsCounted();
  }

  lemma StepKeepsHolder(l: Lock, t: Tid, l': Lock)
    requires HolderIsUnique(l) && Steps(l, t, l')
    ensures HolderIsUnique(l')
  {
    hide Phase.IsCounted, Phase.Shares;
  }

  lemma WriterKeepsSemaphore(l: Lock, t: Tid, l': Lock)
    requires SemaphoreIsBinary(l) && Exclusive(l) && Steps(l, t, l')
    requires l.phase[t] == WriteEnter || l.phase[t] == Writing
    ensures SemaphoreIsBinary(l') && Exclusive(l')
  {
    if l.phase[t] == WriteEnter {
      assert l'.phase[t].Writing? && Taken(l');
    } else {
      assert Taken(l) && !Taken(l');
    }
  }

  lemma StepKeepsInv(l: Lock, t: Tid, l': Lock)
    requires Inv(l) && Steps(l, t, l')
    ensures Inv(l')
  {
    StepKeepsCounts(l, t, l');
    hide HolderIsUnique, CounterIsExact, SemaphoreIsBinary, Exclusive;
    match l.phase[t] {
      case Counted => FirstReaderAcquires(l, t, l');
      case Uncounted => LastReaderReleases(l, t, l');
      case WriteEnter => WriterKeepsSemaphore(l, t, l');
      case Writing => WriterKeepsSemaphore(l, t, l');
      case _ => SameShare(l, t, l');
    }
  }

  lemma ArrivalKeepsInv(l: Lock, t: Tid, l': Lock)
    requires Inv(l) && Arrives(l, t, l')
    ensures Inv(l')
  {
    ArrivalCounts(l, t, l');
    ArrivalShares(l, t, l');
    hide HolderIsUnique, CounterIsExact, Exclusive, SemaphoreIsBinary;
  }

  lemma ArrivalCounts(l: Lock, t: Tid, l': Lock)
    requires HolderIsUnique(l) && CounterIsExact(l) && Arrives(l, t, l')
    ensures HolderIsUnique(l') && CounterIsExact(l')
  {
    assert CountedTasks(l') == CountedTasks(l);
    hide CountedTasks;
  }

  lemma ArrivalShares(l: Lock, t: Tid, l': Lock)
    requires Exclusive(l) && SemaphoreIsBinary(l) && Arrives(l, t, l')
    ensures Exclusive(l') && SemaphoreIsBinary(l')
  {
    assert forall u :: u in l.phase ==> l'.phase[u] == l.phase[u];
    assert Exclusive(l');
    hide Exclusive;
    assert Taken(l) == Taken(l');
  }

  /** Safety in every run, whatever the number of tasks. */
  lemma {:induction false} RunIsSafe(run: seq<Lock>, i: nat)
    requires IsRun(run) && i < |run|
    ensures Inv(run[i])
    ensures forall t, u ::
      && t in run[i].phase && u in run[i].phase && t != u && run[i].phase[t] == Writing
      ==> run[i].phase[u] != Writing && run[i].phase[u] != Reading
    ensures run[i].permits == 0 || run[i].permits == 1
    decreases i
  {
    if i > 0 {
      RunIsSafe(run, i - 1);
      var t :| Steps(run[i - 1], t, run[i]) || Arrives(run[i - 1], t, run[i]);
      if Steps(run[i - 1], t, run[i]) {
        StepKeepsInv(run[i - 1], t, run[i]);
      } else {
        ArrivalKeepsInv(run[i - 1], t, run[i]);
      }
    } else {
      assert CountedTasks(INIT) == {};
    }
  }

  // ---------------------------------------------------------------------
  // Deadlock freedom
  // ---------------------------------------------------------------------

  ghost predicate CanStep(l: Lock, t: Tid) {
    exists l' :: Steps(l, t, l')
  }

  /** The only waits: for the counter's lock, and for the semaphore. */
  predicate Free(l: Lock, t: Tid)
    requires t in l.phase
  {
    match l.phase[t]
    case Enter => l.holder == None
    case Leave => l.holder == None
    case Counted => l.readCount == 1 ==> l.permits > 0
    case WriteEnter => l.permits > 0
    case p => !p.Finished()
  }

  lemma FreeSteps(l: Lock, t: Tid)
    requires t in l.phase
    ensures CanStep(l, t) <==> Free(l, t)
  {
    var l' := match l.phase[t]
      case Enter => l.Go(t, CountLocked).(holder := Some(t))
      case CountLocked => l.Go(t, Counted).(readCount := l.readCount + 1)
      case Counted => l.Go(t, Acquired).(permits := if l.readCount == 1 then l.permits - 1 else l.permits)
      case Acquired => l.Go(t, Reading).(holder := None)
      case Reading => l.Go(t, Leave)
      case Leave => l.Go(t, LeaveLocked).(holder := Some(t))
      case LeaveLocked => l.Go(t, Uncounted).(readCount := l.readCount - 1)
      case Uncounted => l.Go(t, Released).(permits := if l.readCount == 0 then l.permits + 1 else l.permits)
      case Released => l.Go(t, ReadDone).(holder := None)
      case WriteEnter => l.Go(t, Writing).(permits := l.permits - 1)
      case Writing => l.Go(t, WriteDone).(permits := l.permits + 1)
      case _ => l;
    if Free(l, t) {
      assert Steps(l, t, l');
    }
  }

  /** A first reader that waits for the semaphore while holding the counter's lock waits for a writer. */
  lemma BlockedReaderWaitsForWriter(l: Lock, t: Tid) returns (u: Tid)
    requires Inv(l) && t in l.phase && l.phase[t] == Counted && !Free(l, t)
    ensures u in l.phase && l.phase[u] == Writing
  {
    NoOthersShare(l, t);
    u :| u in l.phase && (l.phase[u].Writing? || l.phase[u].Shares());
  }

  /** In every reachable state with an unfinished task some task can step. */
  lemma NoDeadlock(l: Lock, t: Tid)
    requires Inv(l) && t in l.phase && !l.phase[t].Finished()
    ensures exists u :: u in l.phase && CanStep(l, u)
  {
    var u := SomeoneIsFree(l, t);
    FreeSteps(l, u);
  }

  lemma SomeoneIsFree(l: Lock, t: Tid) returns (u: Tid)
    requires Inv(l) && t in l.phase && !l.phase[t].Finished()
    ensures u in l.phase && Free(l, u)
  {
    u := t;
    if !Free(l, u) && l.phase[u] == WriteEnter {
      u :| u in l.phase && (l.phase[u].Writing? || l.phase[u].Shares());
    }
    if !Free(l, u) && l.phase[u] != Counted {
      u := l.holder.value;
    }
    if !Free(l, u) {
      u := BlockedReaderWaitsForWriter(l, u);
    }
  }

  // ---------------------------------------------------------------------
  // What cancellation would break
  // ---------------------------------------------------------------------

  /** A first reader cancelled while it waits for the semaphore: the counter keeps its contribution. */
  ghost predicate CancelledWaiting(l: Lock, t: Tid, l': Lock) {
    t in l.phase && l.phase[t] == Counted && l.readCount == 1 && l' == l.Go(t, ReadDone).(holder := None)
  }

  /** A reader cancelled while it waits to leave: the counter is never lowered. */
  ghost predicate CancelledLeaving(l: Lock, t: Tid, l': Lock) {
    t in l.phase && l.phase[t] == Leave && l' == l.Go(t, ReadDone)
  }

  /** A writer inside, one reader waiting for it, another just arrived */
  const WAITING := Lock(map[0 := Writing, 1 := Counted, 2 := Enter], Some(1), 1, 0)

  lemma WaitingIsReachable() returns (run: seq<Lock>)
    ensures IsRun(run) && run[|run| - 1] == WAITING
  {
    var l0 := INIT;
    var l1 := l0.Go(0, WriteEnter);
    var l2 := l1.Go(0, Writing).(permits := 0);
    var l3 := l2.Go(1, Enter);
    var l4 := l3.Go(2, Enter);
    var l5 := l4.Go(1, CountLocked).(holder := Some(1));
    run := [l0, l1, l2, l3, l4, l5, WAITING];
    assert Next(l0, l1) by { assert Arrives(l0, 0, l1); }
    assert Next(l1, l2) by { assert Steps(l1, 0, l2); }
    assert Next(l2, l3) by { assert Arrives(l2, 1, l3); }
    assert Next(l3, l4) by { assert Arrives(l3, 2, l4); }
    assert Next(l4, l5) by { assert Steps(l4, 1, l5); }
    assert Next(l5, WAITING) by { assert Steps(l5, 1, WAITING); }
    hide *;
    assert forall i :: 0 <= i < 6 ==> Next(run[i], run[i + 1]);
  }

  /** Either cancellation leaves the counter one too high, whatever the state. */
  lemma CancellationSpoilsCounter(l: Lock, t: Tid, l': Lock)
    requires CounterIsExact(l) && (CancelledWaiting(l, t, l') || CancelledLeaving(l, t, l'))
    ensures l'.readCount == |CountedTasks(l')| + 1
  {
    CountedAfter(l, t, ReadDone);
    assert CountedTasks(l') == CountedTasks(l.Go(t, ReadDone));
    assert t in CountedTasks(l);
  }

  /**
   Whenever a wait for the semaphore is cancelled, five ordinary steps take the next
   reader u in beside the writer the wait was for.
   */
  lemma CancelledWaitLetsReaderIn(l: Lock, t: Tid, l': Lock, u: Tid) returns (writer: Tid, steps: seq<Lock>)
    requires Inv(l) && CancelledWaiting(l, t, l') && !Free(l, t)
    requires u in l.phase && l.phase[u] == Enter
    ensures |steps| == 5 && steps[0] == l'
    ensures forall i :: 0 <= i < 4 ==> Next(steps[i], steps[i + 1])
    ensures writer in steps[4].phase && steps[4].phase[writer] == Writing
    ensures u in steps[4].phase && steps[4].phase[u] == Reading
  {
    writer := BlockedReaderWaitsForWriter(l, t);
    var l1 := l'.Go(u, CountLocked).(holder := Some(u));
    var l2 := l1.Go(u, Counted).(readCount := 2);
    var l3 := l2.Go(u, Acquired);
    var l4 := l3.Go(u, Reading).(holder := None);
    steps := [l', l1, l2, l3, l4];
    assert Next(l', l1) by { assert Steps(l', u, l1); }
    assert Next(l1, l2) by { assert Steps(l1, u, l2); }
    assert Next(l2, l3) by { assert Steps(l2, u, l3); }
    assert Next(l3, l4) by { assert Steps(l3, u, l4); }
    assert l4.phase[writer] == Writing && l4.phase[u] == Reading;
    hide Next;
    assert forall i :: 0 <= i < 4 ==> Next(steps[i], steps[i + 1]);
  }

  /** After the last reader's leave is cancelled, a waiting writer waits for ever: no task can step. */
  lemma CancelledLeaveBlocksWriter(l: Lock, t: Tid, l': Lock, u: Tid)
    requires Inv(l) && CancelledLeaving(l, t, l')
    requires u in l.phase && l.phase[u] == WriteEnter
    requires forall v :: v in l.phase && v != t && v != u ==> l.phase[v].Finished()
    ensures !l'.phase[u].Finished() && forall v :: v in l'.phase ==> !CanStep(l', v)
  {
    assert l.phase[t].Shares() && Taken(l);
    forall v | v in l'.phase
      ensures !CanStep(l', v)
    {
      FreeSteps(l', v);
    }
  }
}
