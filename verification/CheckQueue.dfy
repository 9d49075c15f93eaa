/** The queue of checks shared by a master and its workers (src/checkqueue.h), as a
    transition system: every critical section, every notification and every batch of checks
    run outside the lock is one step. Stop requests are not modelled. */
module CheckQueues {
  import opened Collections

  /** A check and what running it returns. */
  datatype Check = Check(id: nat, outcome: Option<nat>)

  /** Where a thread is in its loop. local is the result it carries between iterations,
      which is not cleared when a round ends. */
  datatype Thread =
    | Out
    | Enter(nNow: nat, local: Option<nat>)
    | Asleep(local: Option<nat>)
    | Woken(local: Option<nat>)
    | Running(batch: seq<Check>, doWork: bool, local: Option<nat>)

  datatype Notice = NoNotice | NotifyOne | NotifyAll

  /** Thread 0 is the master. notice is what the master still has to notify after adding.
      round are the checks added since the master last returned, and returned what it
      returned then. */
  datatype State = State(
    queue: seq<Check>,
    nIdle: int,
    nTotal: int,
    result: Option<nat>,
    nTodo: int,
    threads: seq<Thread>,
    notice: Notice,
    round: seq<Check>,
    returned: Option<Option<nat>>)

  datatype Step =
    | Add(checks: seq<Check>)
    | Notify(chosen: nat)
    | Start(i: nat)
    | Lock(i: nat)
    | Wake(i: nat)
    | Work(i: nat)
    | Spurious(i: nat)

  /** A queue with so many workers, none of which has entered its loop yet. */
  function Initial(workers: nat): State {
    State([], 0, 0, None, 0, seq(workers + 1, _ => Out), NoNotice, [], None)
  }

  // ----- steps -----

  function WithThread(s: State, i: nat, t: Thread): State
    requires i < |s.threads|
  {
    s.(threads := s.threads[i := t])
  }

  function Waking(t: Thread): Thread {
    if t.Asleep? then Woken(t.local) else t
  }

  function WakeOne(ts: seq<Thread>, i: nat): seq<Thread> {
    if i < |ts| then ts[i := Waking(ts[i])] else ts
  }

  function WakeWorkers(ts: seq<Thread>): seq<Thread> {
    seq(|ts|, i requires 0 <= i < |ts| => if i == 0 then ts[i] else Waking(ts[i]))
  }

  /** What a thread does first in its critical section: publish what it found and count off
      its batch, or count itself in. */
  function Cleanup(s: State, i: nat, nNow: nat, local: Option<nat>): (State, Option<nat>)
    requires i < |s.threads|
  {
    if nNow > 0 then
      var publish := local.Some? && s.result.None?;
      var todo := s.nTodo - nNow;
      var next := s.(result := if publish then local else s.result, nTodo := todo,
                     threads := if todo == 0 && i != 0 then WakeOne(s.threads, 0) else s.threads);
      (next, if publish then None else local)
    else
      (s.(nTotal := s.nTotal + 1), local)
  }

  lemma ShareAtMost(q: nat, parts: int)
    ensures parts > 0 ==> 0 <= q / parts <= q
  {
    if parts > 0 {
      var d := q / parts;
      assert d * parts <= q;
      assert d < 0 ==> d * parts < 0;
      assert d >= 0 ==> d * 1 <= d * parts;
    }
  }

  /** How many checks to take: as many as the largest batch and an equal share for every
      thread, idle ones and one more, allow, but at least one. */
  function BatchSize(nBatchSize: nat, s: State): (n: nat)
    requires s.queue != []
    ensures 1 <= n <= |s.queue|
    ensures n > 1 ==> n <= nBatchSize && n * (s.nTotal + s.nIdle + 1) <= |s.queue|
    ensures n < nBatchSize && s.nTotal + s.nIdle + 1 > 0 ==> (n + 1) * (s.nTotal + s.nIdle + 1) > |s.queue|
  {
    var parts := s.nTotal + s.nIdle + 1;
    ShareAtMost(|s.queue|, parts);
    var share: nat := if parts > 0 then |s.queue| / parts else 0;
    var n := if nBatchSize < share then nBatchSize else share;
    if n < 1 then 1 else n
  }

  /** The rest of the critical section: take a batch off the end of the queue, or return as
      the master if all is done, or go to sleep. */
  function Decide(nBatchSize: nat, s: State, i: nat, local: Option<nat>): State
    requires i < |s.threads|
  {
    if s.queue == [] then
      if i == 0 && s.nTodo == 0 then
        WithThread(s, 0, Out).(nTotal := s.nTotal - 1, result := None, round := [], returned := Some(s.result))
      else
        WithThread(s, i, Asleep(local)).(nIdle := s.nIdle + 1)
    else
      var k := |s.queue| - BatchSize(nBatchSize, s);
      WithThread(s, i, Running(s.queue[k..], s.result.None?, local)).(queue := s.queue[..k])
  }

  /** The first failure among checks run in order, if any. */
  function FirstFailure(batch: seq<Check>): Option<nat> {
    if batch == [] then None
    else if batch[0].outcome.Some? then batch[0].outcome
    else FirstFailure(batch[1..])
  }

  /** A batch is run up to its first failure. */
  lemma {:induction false} StopsAtFirst(batch: seq<Check>, k: nat)
    requires k < |batch| && batch[k].outcome.Some? && forall j | 0 <= j < k :: batch[j].outcome.None?
    ensures FirstFailure(batch) == batch[k].outcome
  {
    if k > 0 {
      StopsAtFirst(batch[1..], k - 1);
    }
  }

  /** A batch is the end of the queue, and is run unless a failure is already known. */
  lemma TakesBatch(nBatchSize: nat, s: State, i: nat, local: Option<nat>)
    requires i < |s.threads| && s.queue != []
    ensures var next := Decide(nBatchSize, s, i, local);
            && next.threads[i].Running? && next.queue + next.threads[i].batch == s.queue
            && next.threads[i].batch != [] && (next.threads[i].doWork <==> s.result.None?)
            && next == s.(queue := next.queue, threads := s.threads[i := next.threads[i]])
  {
    var k := |s.queue| - BatchSize(nBatchSize, s);
    assert s.queue == s.queue[..k] + s.queue[k..];
  }

  predicate AnyWorkerAsleep(s: State) {
    exists i :: 0 < i < |s.threads| && s.threads[i].Asleep?
  }

  predicate Enabled(s: State, st: Step) {
    match st
    case Add(checks) => |s.threads| > 0 && s.threads[0].Out? && s.notice == NoNotice && checks != []
    case Notify(chosen) =>
      && s.notice != NoNotice
      && (s.notice == NotifyOne && AnyWorkerAsleep(s) ==> 0 < chosen < |s.threads| && s.threads[chosen].Asleep?)
    case Start(i) => i < |s.threads| && s.threads[i].Out? && (i == 0 ==> s.notice == NoNotice)
    case Lock(i) => i < |s.threads| && s.threads[i].Enter?
    case Wake(i) => i < |s.threads| && s.threads[i].Woken?
    case Work(i) => i < |s.threads| && s.threads[i].Running?
    case Spurious(i) => i < |s.threads| && s.threads[i].Asleep?
  }

  function Apply(nBatchSize: nat, s: State, st: Step): State
    requires Enabled(s, st)
  {
    match st
    case Add(checks) =>
      s.(queue := s.queue + checks, nTodo := s.nTodo + |checks|, round := s.round + checks,
         notice := if |checks| == 1 then NotifyOne else NotifyAll)
    case Notify(chosen) =>
      s.(notice := NoNotice,
         threads := if s.notice == NotifyAll then WakeWorkers(s.threads)
                    else if AnyWorkerAsleep(s) then WakeOne(s.threads, chosen)
                    else s.threads)
    case Start(i) => WithThread(s, i, Enter(0, None))
    case Lock(i) =>
      var (next, local) := Cleanup(s, i, s.threads[i].nNow, s.threads[i].local);
      Decide(nBatchSize, next, i, local)
    case Wake(i) => Decide(nBatchSize, s.(nIdle := s.nIdle - 1), i, s.threads[i].local)
    case Work(i) =>
      var t := s.threads[i];
      WithThread(s, i, Enter(|t.batch|, if t.doWork then FirstFailure(t.batch) else t.local))
    case Spurious(i) => WithThread(s, i, Waking(s.threads[i]))
  }

  // ----- sums over threads -----

  ghost function Total(ts: seq<Thread>, w: Thread -> int): int {
    if ts == [] then 0 else w(ts[0]) + Total(ts[1..], w)
  }

  lemma {:induction false} TotalUpdate(ts: seq<Thread>, w: Thread -> int, i: nat, t: Thread)
    requires i < |ts|
    ensures Total(ts[i := t], w) == Total(ts, w) - w(ts[i]) + w(t)
  {
    if i == 0 {
      assert ts[i := t][1..] == ts[1..];
    } else {
      assert ts[i := t][1..] == ts[1..][i - 1 := t];
      TotalUpdate(ts[1..], w, i - 1, t);
    }
  }

  lemma {:induction false} TotalSame(ts: seq<Thread>, us: seq<Thread>, w: Thread -> int)
    requires |ts| == |us| && forall i | 0 <= i < |ts| :: w(ts[i]) == w(us[i])
    ensures Total(ts, w) == Total(us, w)
  {
    if ts != [] {
      TotalSame(ts[1..], us[1..], w);
    }
  }

  lemma {:induction false} TotalAtLeast(ts: seq<Thread>, w: Thread -> int, i: nat)
    requires i < |ts| && forall t :: w(t) >= 0
    ensures Total(ts, w) >= w(ts[i]) && Total(ts, w) >= 0
  {
    TotalNonNegative(ts[1..], w);
    if i > 0 {
      TotalAtLeast(ts[1..], w, i - 1);
    }
  }

  lemma {:induction false} TotalNonNegative(ts: seq<Thread>, w: Thread -> int)
    requires forall t :: w(t) >= 0
    ensures Total(ts, w) >= 0
  {
    if ts != [] {
      TotalNonNegative(ts[1..], w);
    }
  }

  /** A positive sum has a positive part. */
  lemma {:induction false} TotalWitness(ts: seq<Thread>, w: Thread -> int) returns (i: nat)
    requires Total(ts, w) > 0
    ensures i < |ts| && w(ts[i]) > 0
  {
    if w(ts[0]) > 0 {
      i := 0;
    } else {
      i := TotalWitness(ts[1..], w);
      i := i + 1;
    }
  }

  /** How many checks a thread has taken and not yet counted off. */
  function InFlight(t: Thread): int {
    match t
    case Running(batch, _, _) => |batch|
    case Enter(n, _) => n
    case _ => 0
  }

  function Idle(t: Thread): int {
    if t.Asleep? || t.Woken? then 1 else 0
  }

  /** Whether a thread has counted itself in. */
  function Inside(t: Thread): int {
    if t.Out? || (t.Enter? && t.nNow == 0) then 0 else 1
  }

  // ----- the invariant -----

  ghost predicate FailsIn(checks: seq<Check>, r: nat) {
    exists c :: c in checks && c.outcome == Some(r)
  }

  ghost predicate NumbersOk(s: State) {
    && s.nTodo == |s.queue| + Total(s.threads, InFlight)
    && s.nIdle == Total(s.threads, Idle)
    && s.nTotal == Total(s.threads, Inside)
  }

  /** The master sleeps only while some worker has checks in flight and the queue is empty,
      and a notice is pending only while it is not in its loop. */
  ghost predicate MasterOk(s: State) {
    && |s.threads| > 0
    && (!s.threads[0].Out? ==> s.notice == NoNotice)
    && (s.threads[0].Asleep? ==> s.queue == [] && s.nTodo > 0)
    && (s.threads[0].Woken? ==> s.queue == [])
  }

  /** What a thread carries of the current round. */
  ghost predicate ThreadOk(t: Thread, round: seq<Check>, result: Option<nat>) {
    match t
    case Running(batch, doWork, _) => batch != [] && (forall c | c in batch :: c in round) && (doWork || result.Some?)
    case Enter(n, local) => n > 0 ==> result.Some? || (local.Some? ==> FailsIn(round, local.value))
    case _ => true
  }

  /** A failed check of the round is still to be run, or being run, or its thread is about
      to report a failure. */
  ghost predicate Tracked(s: State, c: Check) {
    || c in s.queue
    || (exists i :: 0 <= i < |s.threads| && Carries(s.threads[i], c))
  }

  ghost predicate Carries(t: Thread, c: Check) {
    || (t.Running? && c in t.batch)
    || (t.Enter? && t.nNow > 0 && t.local.Some?)
  }

  ghost predicate ResultsOk(s: State) {
    && (s.result.Some? ==> FailsIn(s.round, s.result.value))
    && (forall c | c in s.queue :: c in s.round)
    && (forall i | 0 <= i < |s.threads| :: ThreadOk(s.threads[i], s.round, s.result))
    && (s.result.None? ==> forall c | c in s.round && c.outcome.Some? :: Tracked(s, c))
  }

  ghost predicate Inv(s: State) {
    NumbersOk(s) && MasterOk(s) && ResultsOk(s)
  }

  // ----- every step keeps the invariant -----

  /** Thread i holds the lock: it is counted inside but nowhere else (its entry is blanked). */
  ghost predicate Held(s: State, i: nat) {
    && i < |s.threads| && s.threads[i] == Out
    && s.nTodo == |s.queue| + Total(s.threads, InFlight)
    && s.nIdle == Total(s.threads, Idle)
    && s.nTotal == Total(s.threads, Inside) + 1
    && ResultsOk(s)
    && (i != 0 ==> MasterOk(s))
    && (i == 0 ==> s.notice == NoNotice)
  }

  lemma BlankTotals(s: State, i: nat)
    requires i < |s.threads|
    ensures var t := s.threads[i];
            && Total(s.threads[i := Out], InFlight) == Total(s.threads, InFlight) - InFlight(t)
            && Total(s.threads[i := Out], Idle) == Total(s.threads, Idle) - Idle(t)
            && Total(s.threads[i := Out], Inside) == Total(s.threads, Inside) - Inside(t)
  {
    TotalUpdate(s.threads, InFlight, i, Out);
    TotalUpdate(s.threads, Idle, i, Out);
    TotalUpdate(s.threads, Inside, i, Out);
  }

  lemma FillTotals(ts: seq<Thread>, i: nat, t: Thread)
    requires i < |ts| && ts[i] == Out
    ensures Total(ts[i := t], InFlight) == Total(ts, InFlight) + InFlight(t)
    ensures Total(ts[i := t], Idle) == Total(ts, Idle) + Idle(t)
    ensures Total(ts[i := t], Inside) == Total(ts, Inside) + Inside(t)
  {
    TotalUpdate(ts, InFlight, i, t);
    TotalUpdate(ts, Idle, i, t);
    TotalUpdate(ts, Inside, i, t);
  }

  /** Blanking a thread that carries no failure of the round loses track of none. */
  lemma BlankTracked(s: State, i: nat, t: Thread)
    requires i < |s.threads|
    requires forall c | c in s.round && c.outcome.Some? :: Tracked(s, c)
    requires forall c | c in s.round && c.outcome.Some? :: Carries(s.threads[i], c) ==> Carries(t, c)
    ensures forall c | c in s.round && c.outcome.Some? :: Tracked(WithThread(s, i, t), c)
  {
    hide Carries;
    forall c | c in s.round && c.outcome.Some?
      ensures Tracked(WithThread(s, i, t), c)
    {
      if c !in s.queue {
        var j :| 0 <= j < |s.threads| && Carries(s.threads[j], c);
        assert Carries(WithThread(s, i, t).threads[j], c);
      }
    }
  }

  lemma WakingSame(t: Thread)
    ensures InFlight(Waking(t)) == InFlight(t) && Idle(Waking(t)) == Idle(t) && Inside(Waking(t)) == Inside(t)
    ensures forall c :: Carries(Waking(t), c) == Carries(t, c)
    ensures forall round, result :: ThreadOk(Waking(t), round, result) == ThreadOk(t, round, result)
  {
  }

  /** Waking threads changes no sum and no result. */
  lemma WakingKeeps(s: State, us: seq<Thread>)
    requires |us| == |s.threads| && forall i | 0 <= i < |us| :: us[i] == s.threads[i] || us[i] == Waking(s.threads[i])
    ensures Total(us, InFlight) == Total(s.threads, InFlight)
    ensures Total(us, Idle) == Total(s.threads, Idle)
    ensures Total(us, Inside) == Total(s.threads, Inside)
    ensures ResultsOk(s) ==> ResultsOk(s.(threads := us))
  {
    hide Carries, ThreadOk, Waking, InFlight, Idle, Inside;
    forall i | 0 <= i < |us|
      ensures InFlight(us[i]) == InFlight(s.threads[i]) && Idle(us[i]) == Idle(s.threads[i])
              && Inside(us[i]) == Inside(s.threads[i])
      ensures forall c :: Carries(us[i], c) == Carries(s.threads[i], c)
      ensures forall round, result :: ThreadOk(us[i], round, result) == ThreadOk(s.threads[i], round, result)
    {
      WakingSame(s.threads[i]);
    }
    TotalSame(us, s.threads, InFlight);
    TotalSame(us, s.threads, Idle);
    TotalSame(us, s.threads, Inside);
    if ResultsOk(s) {
      forall c | Tracked(s, c)
        ensures Tracked(s.(threads := us), c)
      {
        if c !in s.queue {
          var j :| 0 <= j < |s.threads| && Carries(s.threads[j], c);
          assert Carries(us[j], c);
        }
      }
    }
  }

  /** The state in which thread i, having cleaned up, holds the lock. */
  ghost function Cleaned(s: State, i: nat): State
    requires i < |s.threads| && s.threads[i].Enter?
  {
    WithThread(Cleanup(s, i, s.threads[i].nNow, s.threads[i].local).0, i, Out)
  }

  lemma CleanResults(s: State, i: nat)
    requires ResultsOk(s) && i < |s.threads| && s.threads[i].Enter?
    ensures var t := s.threads[i];
            var publish := t.nNow > 0 && t.local.Some? && s.result.None?;
            ResultsOk(WithThread(s, i, Out).(result := if publish then t.local else s.result))
  {
    var t := s.threads[i];
    var publish := t.nNow > 0 && t.local.Some? && s.result.None?;
    var next := WithThread(s, i, Out).(result := if publish then t.local else s.result);
    assert ThreadOk(t, s.round, s.result);
    if next.result.None? {
      BlankTracked(s, i, Out);
      forall c | c in next.round && c.outcome.Some?
        ensures Tracked(next, c)
      {
        SameTracked(WithThread(s, i, Out), next, c);
      }
    }
    forall j | 0 <= j < |next.threads|
      ensures ThreadOk(next.threads[j], next.round, next.result)
    {
      assert ThreadOk(s.threads[j], s.round, s.result);
    }
  }

  lemma SameTracked(a: State, b: State, c: Check)
    requires a.queue == b.queue && a.threads == b.threads
    ensures Tracked(a, c) == Tracked(b, c)
  {
  }

  /** Publishing and counting off hands over a sound state; when the last batch is counted
      off the master cannot stay asleep. */
  lemma CleanupHeld(s: State, i: nat)
    requires Inv(s) && i < |s.threads| && s.threads[i].Enter?
    ensures Held(Cleaned(s, i), i)
  {
    hide ResultsOk, Total;
    var t := s.threads[i];
    BlankTotals(s, i);
    CleanResults(s, i);
    var publish := t.nNow > 0 && t.local.Some? && s.result.None?;
    var blank := WithThread(s, i, Out).(result := if publish then t.local else s.result);
    if t.nNow > 0 {
      var todo := s.nTodo - t.nNow;
      if todo == 0 && i != 0 {
        WakingKeeps(blank, WakeOne(blank.threads, 0));
        assert Cleaned(s, i) == blank.(nTodo := todo, threads := WakeOne(blank.threads, 0));
        SameResults(blank.(threads := WakeOne(blank.threads, 0)), Cleaned(s, i));
      } else {
        assert Cleaned(s, i) == blank.(nTodo := todo);
        SameResults(blank, Cleaned(s, i));
      }
      TodoLeft(Cleaned(s, i));
    } else {
      SameResults(blank, Cleaned(s, i));
    }
  }

  lemma SameResults(a: State, b: State)
    requires a.queue == b.queue && a.threads == b.threads && a.round == b.round && a.result == b.result
    ensures ResultsOk(a) == ResultsOk(b)
  {
    forall c
      ensures Tracked(a, c) == Tracked(b, c)
    {
      SameTracked(a, b, c);
    }
  }

  lemma TodoLeft(s: State)
    ensures Total(s.threads, InFlight) >= 0
  {
    TotalNonNegative(s.threads, InFlight);
  }

  lemma WokenHeld(s: State, i: nat)
    requires Inv(s) && i < |s.threads| && s.threads[i].Woken?
    ensures Held(WithThread(s, i, Out).(nIdle := s.nIdle - 1), i)
  {
    hide ResultsOk, Total;
    BlankTotals(s, i);
    BlankResults(s, i);
    SameResults(WithThread(s, i, Out), WithThread(s, i, Out).(nIdle := s.nIdle - 1));
  }

  lemma BlankResults(s: State, i: nat)
    requires ResultsOk(s) && i < |s.threads| && (s.threads[i].Woken? || s.threads[i].Out?)
    ensures ResultsOk(WithThread(s, i, Out))
  {
    if s.result.None? {
      BlankTracked(s, i, Out);
    }
  }

  lemma TakeResults(s: State, i: nat, k: nat, local: Option<nat>)
    requires ResultsOk(s) && i < |s.threads| && s.threads[i] == Out && k < |s.queue|
    ensures ResultsOk(WithThread(s, i, Running(s.queue[k..], s.result.None?, local)).(queue := s.queue[..k]))
  {
    var t := Running(s.queue[k..], s.result.None?, local);
    var next := WithThread(s, i, t).(queue := s.queue[..k]);
    if s.result.None? {
      forall c | c in s.round && c.outcome.Some?
        ensures Tracked(next, c)
      {
        if c in s.queue {
          assert s.queue == s.queue[..k] + s.queue[k..];
          assert c in s.queue[..k] || Carries(next.threads[i], c);
        } else {
          var j :| 0 <= j < |s.threads| && Carries(s.threads[j], c);
          assert Carries(next.threads[j], c);
        }
      }
    }
  }

  lemma SleepResults(s: State, i: nat, local: Option<nat>)
    requires ResultsOk(s) && i < |s.threads| && s.threads[i] == Out
    ensures ResultsOk(WithThread(s, i, Asleep(local)))
  {
    if s.result.None? {
      BlankTracked(s, i, Asleep(local));
    }
  }

  /** With nothing left to do, no thread has anything of the round. */
  lemma NothingInFlight(s: State)
    requires s.queue == [] && Total(s.threads, InFlight) == 0 && ResultsOk(s)
    ensures forall i | 0 <= i < |s.threads| :: InFlight(s.threads[i]) == 0
    ensures forall c :: !Tracked(s, c)
  {
    forall i | 0 <= i < |s.threads|
      ensures InFlight(s.threads[i]) == 0
    {
      TotalAtLeast(s.threads, InFlight, i);
    }
    forall c
      ensures !Tracked(s, c)
    {
      assert forall i | 0 <= i < |s.threads| :: ThreadOk(s.threads[i], s.round, s.result) && !Carries(s.threads[i], c);
    }
  }

  /** What the master returns: nothing exactly if no check of the round failed, and
      otherwise a failure of the round. */
  ghost predicate RightAnswer(round: seq<Check>, answer: Option<nat>) {
    && (answer.None? <==> forall c | c in round :: c.outcome.None?)
    && (answer.Some? ==> FailsIn(round, answer.value))
  }

  lemma AnswerRight(s: State)
    requires s.queue == [] && Total(s.threads, InFlight) == 0 && ResultsOk(s)
    ensures RightAnswer(s.round, s.result)
  {
    NothingInFlight(s);
  }

  lemma ReturnResults(s: State, next: State)
    requires s.queue == [] && Total(s.threads, InFlight) == 0 && ResultsOk(s)
    requires next.queue == [] && next.threads == s.threads && next.round == [] && next.result == None
    ensures ResultsOk(next)
  {
    NothingInFlight(s);
    forall i | 0 <= i < |s.threads|
      ensures ThreadOk(next.threads[i], next.round, next.result)
    {
      assert ThreadOk(s.threads[i], s.round, s.result) && InFlight(s.threads[i]) == 0;
    }
  }

  /** Whatever the thread holding the lock decides keeps the invariant. */
  lemma DecideKeeps(nBatchSize: nat, s: State, i: nat, local: Option<nat>)
    requires Held(s, i) && |s.threads| > 0
    ensures Inv(Decide(nBatchSize, s, i, local))
    ensures var next := Decide(nBatchSize, s, i, local);
            i == 0 && next.threads[0].Out? ==> next.returned == Some(s.result) && RightAnswer(s.round, s.result)
  {
    hide ResultsOk, Total, RightAnswer;
    var next := Decide(nBatchSize, s, i, local);
    if s.queue == [] {
      if i == 0 && s.nTodo == 0 {
        assert s.threads[0 := Out] == s.threads;
        AnswerRight(s);
        ReturnResults(s, next);
      } else {
        TodoLeft(s);
        FillTotals(s.threads, i, Asleep(local));
        SleepResults(s, i, local);
        SameResults(WithThread(s, i, Asleep(local)), next);
      }
    } else {
      var k := |s.queue| - BatchSize(nBatchSize, s);
      FillTotals(s.threads, i, Running(s.queue[k..], s.result.None?, local));
      TakeResults(s, i, k, local);
    }
  }

  lemma {:induction false} FirstFailureFound(batch: seq<Check>, round: seq<Check>)
    requires forall c | c in batch :: c in round
    ensures FirstFailure(batch).Some? ==> FailsIn(round, FirstFailure(batch).value)
    ensures FirstFailure(batch).None? <==> forall c | c in batch :: c.outcome.None?
  {
    if batch != [] {
      assert batch[0] in batch;
      assert forall c | c in batch[1..] :: c in batch;
      FirstFailureFound(batch[1..], round);
      assert forall c | c in batch :: c == batch[0] || c in batch[1..];
    }
  }

  lemma WorkKeeps(s: State, i: nat)
    requires Inv(s) && i < |s.threads| && s.threads[i].Running?
    ensures Inv(Apply(0, s, Work(i)))
  {
    hide Total;
    var t := s.threads[i];
    assert ThreadOk(t, s.round, s.result);
    FirstFailureFound(t.batch, s.round);
    var u := Enter(|t.batch|, if t.doWork then FirstFailure(t.batch) else t.local);
    TotalUpdate(s.threads, InFlight, i, u);
    TotalUpdate(s.threads, Idle, i, u);
    TotalUpdate(s.threads, Inside, i, u);
    if s.result.None? {
      BlankTracked(s, i, u);
    }
  }

  lemma AddKeeps(s: State, checks: seq<Check>)
    requires Inv(s) && Enabled(s, Add(checks))
    ensures Inv(Apply(0, s, Add(checks)))
  {
    hide Total;
    var next := Apply(0, s, Add(checks));
    forall i | 0 <= i < |s.threads|
      ensures ThreadOk(next.threads[i], next.round, next.result)
    {
      MoreRound(s.threads[i], s.round, checks, s.result);
    }
    forall c | s.result.None? && c in next.round && c.outcome.Some?
      ensures Tracked(next, c)
    {
      if c in s.round {
        assert Tracked(s, c);
      } else {
        assert c in checks;
      }
    }
    if s.result.Some? {
      var c :| c in s.round && c.outcome == Some(s.result.value);
      assert c in next.round;
    }
  }

  lemma MoreRound(t: Thread, round: seq<Check>, checks: seq<Check>, result: Option<nat>)
    requires ThreadOk(t, round, result)
    ensures ThreadOk(t, round + checks, result)
  {
    if t.Enter? && t.nNow > 0 && t.local.Some? && result.None? {
      var c :| c in round && c.outcome == Some(t.local.value);
      assert c in round + checks;
    }
  }

  lemma StartKeeps(s: State, i: nat)
    requires Inv(s) && Enabled(s, Start(i))
    ensures Inv(Apply(0, s, Start(i)))
  {
    hide Total;
    FillTotals(s.threads, i, Enter(0, None));
    if s.result.None? {
      BlankTracked(s, i, Enter(0, None));
    }
  }

  lemma NoticeKeeps(s: State, us: seq<Thread>, notice: Notice)
    requires Inv(s) && |us| == |s.threads| && forall i | 0 <= i < |us| ::
               us[i] == s.threads[i] || us[i] == Waking(s.threads[i])
    requires s.notice == notice || notice == NoNotice
    ensures Inv(s.(threads := us, notice := notice))
  {
    hide ResultsOk, Total;
    WakingKeeps(s, us);
    SameResults(s.(threads := us), s.(threads := us, notice := notice));
  }

  /** Every step of every thread keeps the invariant. */
  lemma StepKeeps(nBatchSize: nat, s: State, st: Step)
    requires Inv(s) && Enabled(s, st)
    ensures Inv(Apply(nBatchSize, s, st))
  {
    hide NumbersOk, MasterOk, ResultsOk, Held, Decide, Cleanup;
    MasterThere(s);
    match st {
      case Add(checks) => AddKeeps(s, checks);
      case Notify(chosen) => NoticeKeeps(s, Apply(nBatchSize, s, st).threads, NoNotice);
      case Start(i) => StartKeeps(s, i);
      case Lock(i) =>
        CleanupHeld(s, i);
        var (next, local) := Cleanup(s, i, s.threads[i].nNow, s.threads[i].local);
        CleanupSize(s, i, s.threads[i].nNow, s.threads[i].local);
        HeldThere(Cleaned(s, i), i);
        DecideKeeps(nBatchSize, Cleaned(s, i), i, local);
        DecideBlank(nBatchSize, next, i, local);
      case Wake(i) =>
        WokenHeld(s, i);
        DecideKeeps(nBatchSize, WithThread(s, i, Out).(nIdle := s.nIdle - 1), i, s.threads[i].local);
        DecideBlank(nBatchSize, s.(nIdle := s.nIdle - 1), i, s.threads[i].local);
      case Work(i) => WorkKeeps(s, i);
      case Spurious(i) => NoticeKeeps(s, WakeOne(s.threads, i), s.notice);
    }
  }

  lemma MasterThere(s: State)
    requires Inv(s)
    ensures |s.threads| > 0
  {
  }

  lemma HeldThere(s: State, i: nat)
    requires Held(s, i)
    ensures |s.threads| > 0
  {
  }

  lemma SetTwice(ts: seq<Thread>, i: nat, t: Thread, u: Thread)
    requires i < |ts|
    ensures ts[i := t][i := u] == ts[i := u]
  {
  }

  lemma CleanupSize(s: State, i: nat, nNow: nat, local: Option<nat>)
    requires i < |s.threads|
    ensures |Cleanup(s, i, nNow, local).0.threads| == |s.threads|
  {
  }

  lemma DecideBlank(nBatchSize: nat, s: State, i: nat, local: Option<nat>)
    requires i < |s.threads|
    ensures Decide(nBatchSize, WithThread(s, i, Out), i, local) == Decide(nBatchSize, s, i, local)
  {
    SetTwice(s.threads, i, Out, Asleep(local));
    SetTwice(s.threads, i, Out, Out);
    if s.queue != [] {
      var k := |s.queue| - BatchSize(nBatchSize, s);
      SetTwice(s.threads, i, Out, Running(s.queue[k..], s.result.None?, local));
    }
  }

  lemma InitialInv(workers: nat)
    ensures Inv(Initial(workers))
  {
    var ts := Initial(workers).threads;
    TotalOut(ts, InFlight);
    TotalOut(ts, Idle);
    TotalOut(ts, Inside);
  }

  lemma {:induction false} TotalOut(ts: seq<Thread>, w: Thread -> int)
    requires w(Out) == 0 && forall i | 0 <= i < |ts| :: ts[i] == Out
    ensures Total(ts, w) == 0
  {
    if ts != [] {
      TotalOut(ts[1..], w);
    }
  }

  // ----- runs -----

  /** steps can be taken one after the other from s. */
  ghost predicate IsRun(nBatchSize: nat, s: State, steps: seq<Step>)
    decreases |steps|
  {
    steps == [] || (Enabled(s, steps[0]) && IsRun(nBatchSize, Apply(nBatchSize, s, steps[0]), steps[1..]))
  }

  ghost function After(nBatchSize: nat, s: State, steps: seq<Step>): State
    requires IsRun(nBatchSize, s, steps)
    decreases |steps|
  {
    if steps == [] then s else After(nBatchSize, Apply(nBatchSize, s, steps[0]), steps[1..])
  }

  lemma {:induction false} RunKeeps(nBatchSize: nat, s: State, steps: seq<Step>)
    requires Inv(s) && IsRun(nBatchSize, s, steps)
    ensures Inv(After(nBatchSize, s, steps))
    decreases |steps|
  {
    hide Inv, Enabled, Apply;
    if steps != [] {
      StepKeeps(nBatchSize, s, steps[0]);
      RunKeeps(nBatchSize, Apply(nBatchSize, s, steps[0]), steps[1..]);
    }
  }

  /** The step by which the master returns from its loop. */
  ghost predicate Returns(nBatchSize: nat, s: State, st: Step)
    requires Enabled(s, st)
  {
    |s.threads| > 0 && !s.threads[0].Out? && |Apply(nBatchSize, s, st).threads| > 0
        && Apply(nBatchSize, s, st).threads[0].Out?
  }

  /** In every run, whenever the master returns, it returns nothing exactly if no check added
      since it last returned failed, and otherwise a failure of one of those. */
  lemma CompleteIsRight(nBatchSize: nat, workers: nat, steps: seq<Step>, st: Step)
    requires IsRun(nBatchSize, Initial(workers), steps)
    requires Enabled(After(nBatchSize, Initial(workers), steps), st)
    requires Returns(nBatchSize, After(nBatchSize, Initial(workers), steps), st)
    ensures var s := After(nBatchSize, Initial(workers), steps);
            var next := Apply(nBatchSize, s, st);
            next.returned.Some? && RightAnswer(s.round, next.returned.value) && next.round == []
  {
    hide Inv, RightAnswer;
    InitialInv(workers);
    RunKeeps(nBatchSize, Initial(workers), steps);
    ReturnIsRight(nBatchSize, After(nBatchSize, Initial(workers), steps), st);
  }

  lemma ReturnIsRight(nBatchSize: nat, s: State, st: Step)
    requires Inv(s) && Enabled(s, st) && Returns(nBatchSize, s, st)
    ensures var next := Apply(nBatchSize, s, st);
            next.returned.Some? && RightAnswer(s.round, next.returned.value) && next.round == []
  {
    hide NumbersOk, ResultsOk, Held, RightAnswer;
    match st {
      case Lock(i) =>
        CleanupHeld(s, i);
        var (next, local) := Cleanup(s, i, s.threads[i].nNow, s.threads[i].local);
        CleanupSize(s, i, s.threads[i].nNow, s.threads[i].local);
        HeldThere(Cleaned(s, i), i);
        DecideKeeps(nBatchSize, Cleaned(s, i), i, local);
        DecideBlank(nBatchSize, next, i, local);
      case Wake(i) =>
        WokenHeld(s, i);
        DecideKeeps(nBatchSize, WithThread(s, i, Out).(nIdle := s.nIdle - 1), i, s.threads[i].local);
        DecideBlank(nBatchSize, s.(nIdle := s.nIdle - 1), i, s.threads[i].local);
      case _ =>
    }
  }

  // ----- no wakeup is lost -----

  /** A waiting master has a worker with checks in flight, whose counting off will wake it
      if it is the last; nothing is queued that nobody has taken. */
  lemma NoLostWakeup(s: State)
    requires Inv(s) && s.threads[0].Asleep?
    ensures s.queue == [] && exists i :: 0 < i < |s.threads| && InFlight(s.threads[i]) > 0
  {
    var i := TotalWitness(s.threads, InFlight);
    assert 0 < i < |s.threads| && InFlight(s.threads[i]) > 0;
  }

  /** The step that counts off the last checks wakes a waiting master. */
  lemma LastWakesMaster(nBatchSize: nat, s: State, i: nat)
    requires Inv(s) && 0 < i < |s.threads| && s.threads[i].Enter? && s.threads[0].Asleep?
    requires s.threads[i].nNow == s.nTodo
    ensures Apply(nBatchSize, s, Lock(i)).threads[0].Woken?
  {
  }

  // ----- progress -----

  /** Steps that are no spurious wakeups and no calls by the master. */
  predicate Own(st: Step) {
    st.Lock? || st.Wake? || st.Work? || (st.Start? && st.i > 0)
  }

  function Weight(t: Thread): int {
    match t
    case Out => 2
    case Enter(n, _) => 1 + 3 * n
    case Asleep(_) => 0
    case Woken(_) => 1
    case Running(batch, _, _) => 2 + 3 * |batch|
  }

  /** How much is still to do: every own step of a thread takes some off. */
  ghost function Effort(s: State): int {
    6 * |s.queue| + Total(s.threads, Weight)
  }

  lemma {:induction false} WeightsNonNegative(ts: seq<Thread>)
    ensures Total(ts, Weight) >= 0
  {
    if ts != [] {
      WeightsNonNegative(ts[1..]);
    }
  }

  lemma DecideEffort(nBatchSize: nat, s: State, i: nat, local: Option<nat>)
    requires i < |s.threads| && !(i == 0 && s.queue == [] && s.nTodo == 0)
    ensures Effort(Decide(nBatchSize, s, i, local)) <= Effort(s) - Weight(s.threads[i])
            || (s.queue != [] && Effort(Decide(nBatchSize, s, i, local)) <= Effort(s) - Weight(s.threads[i]) - 1)
  {
    hide Total;
    if s.queue == [] {
      TotalUpdate(s.threads, Weight, i, Asleep(local));
    } else {
      var k := |s.queue| - BatchSize(nBatchSize, s);
      TotalUpdate(s.threads, Weight, i, Running(s.queue[k..], s.result.None?, local));
    }
  }

  lemma WakeMasterEffort(s: State)
    ensures Total(WakeOne(s.threads, 0), Weight) <= Total(s.threads, Weight) + 1
  {
    if 0 < |s.threads| {
      TotalUpdate(s.threads, Weight, 0, Waking(s.threads[0]));
    }
  }

  /** Every own step but the master's return takes effort off. */
  lemma OwnStepEffort(nBatchSize: nat, s: State, st: Step)
    requires Inv(s) && Enabled(s, st) && Own(st) && !Returns(nBatchSize, s, st)
    ensures Effort(Apply(nBatchSize, s, st)) < Effort(s)
  {
    hide Total, NumbersOk, ResultsOk, FirstFailure;
    match st {
      case Start(i) => TotalUpdate(s.threads, Weight, i, Enter(0, None));
      case Lock(i) =>
        var (next, local) := Cleanup(s, i, s.threads[i].nNow, s.threads[i].local);
        WakeMasterEffort(s);
        DecideEffort(nBatchSize, next, i, local);
      case Wake(i) => DecideEffort(nBatchSize, s.(nIdle := s.nIdle - 1), i, s.threads[i].local);
      case Work(i) =>
        var t := s.threads[i];
        TotalUpdate(s.threads, Weight, i, Enter(|t.batch|, if t.doWork then FirstFailure(t.batch) else t.local));
      case _ =>
    }
  }

  /** While the master is in its loop, some thread can take an own step. */
  lemma NeverStuck(nBatchSize: nat, s: State) returns (st: Step)
    requires Inv(s) && !s.threads[0].Out?
    ensures Own(st) && Enabled(s, st)
  {
    hide NumbersOk, ResultsOk;
    match s.threads[0] {
      case Enter(_, _) => st := Lock(0);
      case Woken(_) => st := Wake(0);
      case Running(_, _, _) => st := Work(0);
      case Asleep(_) =>
        NoLostWakeup(s);
        var i :| 0 < i < |s.threads| && InFlight(s.threads[i]) > 0;
        st := if s.threads[i].Running? then Work(i) else Lock(i);
    }
  }

  /** steps can be taken one after the other, and the master returns in none of them. */
  ghost predicate WithoutReturn(nBatchSize: nat, s: State, steps: seq<Step>)
    decreases |steps|
  {
    steps == []
    || (Enabled(s, steps[0]) && !Returns(nBatchSize, s, steps[0])
        && WithoutReturn(nBatchSize, Apply(nBatchSize, s, steps[0]), steps[1..]))
  }

  function OwnSteps(steps: seq<Step>): nat {
    if steps == [] then 0 else (if Own(steps[0]) then 1 else 0) + OwnSteps(steps[1..])
  }

  function SpuriousSteps(steps: seq<Step>): nat {
    if steps == [] then 0 else (if steps[0].Spurious? then 1 else 0) + SpuriousSteps(steps[1..])
  }

  /** While the master is in its loop nothing is added and no notice is pending. */
  lemma InLoop(nBatchSize: nat, s: State, st: Step)
    requires Inv(s) && !s.threads[0].Out? && Enabled(s, st) && !Returns(nBatchSize, s, st)
    ensures Own(st) != st.Spurious?
    ensures |Apply(nBatchSize, s, st).threads| > 0 ==> !Apply(nBatchSize, s, st).threads[0].Out?
  {
    hide NumbersOk, ResultsOk, Decide, Cleanup;
  }

  lemma SpuriousEffort(nBatchSize: nat, s: State, st: Step)
    requires Enabled(s, st) && st.Spurious?
    ensures Effort(Apply(nBatchSize, s, st)) <= Effort(s) + 1
  {
    hide Total;
    TotalUpdate(s.threads, Weight, st.i, Waking(s.threads[st.i]));
  }

  /** A call of the master ends: until it returns its threads take no more own steps than
      the effort left and one for each spurious wakeup, whatever the order, and there is
      always one to take; no other steps come in between. */
  lemma {:induction false} CompleteEnds(nBatchSize: nat, s: State, steps: seq<Step>)
    requires Inv(s) && !s.threads[0].Out? && WithoutReturn(nBatchSize, s, steps)
    ensures OwnSteps(steps) <= Effort(s) + SpuriousSteps(steps)
    ensures |steps| == OwnSteps(steps) + SpuriousSteps(steps)
    decreases |steps|
  {
    hide Inv, Enabled, Apply, Effort, Returns, Own;
    if steps == [] {
      EffortSome(s);
    } else {
      var st := steps[0];
      MasterThere(s);
      InLoop(nBatchSize, s, st);
      StepKeeps(nBatchSize, s, st);
      MasterThere(Apply(nBatchSize, s, st));
      if Own(st) {
        OwnStepEffort(nBatchSize, s, st);
      } else {
        SpuriousEffort(nBatchSize, s, st);
      }
      CompleteEnds(nBatchSize, Apply(nBatchSize, s, st), steps[1..]);
    }
  }

  lemma EffortSome(s: State)
    ensures Effort(s) >= 0
  {
    WeightsNonNegative(s.threads);
  }
}
