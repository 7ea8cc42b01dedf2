/**
 * The worker pool and the asynchronous database calls on top of it, as the steps that submitters, closers and workers
 * can take in any order.
 */
module WorkerPool {

  /** What `Submit` returns: no error, the pool's error, or the context's. */
  datatype Outcome = Accepted | PoolClosed | ContextDone

  /** A call of the asynchronous pool, which submits one task. On an error it fills its result channel itself. */
  datatype Call = Calling | Locked | Selecting | Returned(outcome: Outcome) | Answered(outcome: Outcome)

  /** A call of `Close`. */
  datatype Closer = Locking | Holding | Closing | Unlocking | Waiting | Cancelling | Done

  datatype Worker = Idle | Busy(task: nat) | Exited

  /**
   * Tasks bear the number of their call. `accepted`, `executed` and `sent` record what was accepted, what was run, and
   * what was put into the result channels; `panicked` records a send on, or a second close of, a closed channel.
   */
  datatype State = State(capacity: nat, closed: bool, tasksClosed: bool, parentDone: bool, cancelled: bool,
                         queue: seq<nat>, calls: map<nat, Call>, closers: map<nat, Closer>, workers: seq<Worker>,
                         accepted: multiset<nat>, executed: multiset<nat>, sent: multiset<nat>, panicked: bool)

  datatype Step = Call(i: nat) | ReadLock(i: nat) | CheckClosed(i: nat) | Send(i: nat) | GiveUp(i: nat) | Answer(i: nat)
                | Close(j: nat) | WriteLock(j: nat) | MarkClosed(j: nat) | CloseTasks(j: nat) | WriteUnlock(j: nat)
                | StopWaiting(j: nat) | Cancel(j: nat)
                | Take(w: nat) | Run(w: nat) | ExitClosed(w: nat) | ExitDone(w: nat)
                | CancelParent

  function Max(a: int, b: int): int
  {
    if a < b then b else a
  }

  /** At least one worker, and a queue for at least one task each. */
  function NewPool(workers: int, queue: int): State
  {
    var n := Max(workers, 1);
    State(Max(queue, n), false, false, false, false, [], map[], map[], seq(n, _ => Idle), multiset{}, multiset{},
          multiset{}, false)
  }

  predicate Reading(c: Call)
  {
    c == Locked || c == Selecting
  }

  predicate Writing(c: Closer)
  {
    c == Holding || c == Closing || c == Unlocking
  }

  ghost predicate NoReader(s: State)
  {
    forall i :: i in s.calls ==> !Reading(s.calls[i])
  }

  ghost predicate NoWriter(s: State)
  {
    forall j :: j in s.closers ==> !Writing(s.closers[j])
  }

  predicate ContextIsDone(s: State)
  {
    s.parentDone || s.cancelled
  }

  predicate CallIs(s: State, i: nat, c: Call)
  {
    i in s.calls && s.calls[i] == c
  }

  predicate CloserIs(s: State, j: nat, c: Closer)
  {
    j in s.closers && s.closers[j] == c
  }

  predicate WorkerIs(s: State, w: nat, x: Worker)
  {
    w < |s.workers| && s.workers[w] == x
  }

  predicate AllExited(s: State)
  {
    forall w :: 0 <= w < |s.workers| ==> s.workers[w] == Exited
  }

  ghost predicate Enabled(s: State, t: Step)
  {
    match t
    case Call(i) => i !in s.calls
    case ReadLock(i) => CallIs(s, i, Calling) && NoWriter(s)
    case CheckClosed(i) => CallIs(s, i, Locked)
    case Send(i) => CallIs(s, i, Selecting) && (s.tasksClosed || |s.queue| < s.capacity)
    case GiveUp(i) => CallIs(s, i, Selecting) && ContextIsDone(s)
    case Answer(i) => i in s.calls && s.calls[i].Returned? && s.calls[i].outcome != Accepted
    case Close(j) => j !in s.closers
    case WriteLock(j) => CloserIs(s, j, Locking) && NoReader(s) && NoWriter(s)
    case MarkClosed(j) => CloserIs(s, j, Holding)
    case CloseTasks(j) => CloserIs(s, j, Closing)
    case WriteUnlock(j) => CloserIs(s, j, Unlocking)
    case StopWaiting(j) => CloserIs(s, j, Waiting) && AllExited(s)
    case Cancel(j) => CloserIs(s, j, Cancelling)
    case Take(w) => WorkerIs(s, w, Idle) && s.queue != []
    case Run(w) => w < |s.workers| && s.workers[w].Busy?
    case ExitClosed(w) => WorkerIs(s, w, Idle) && s.tasksClosed && s.queue == []
    case ExitDone(w) => WorkerIs(s, w, Idle) && ContextIsDone(s)
    case CancelParent => true
  }

  function After(s: State, t: Step): State
    requires Enabled(s, t)
  {
    match t
    case Call(i) => s.(calls := s.calls[i := Calling])
    case ReadLock(i) => s.(calls := s.calls[i := Locked])
    case CheckClosed(i) => s.(calls := s.calls[i := if s.closed then Returned(PoolClosed) else Selecting])
    case Send(i) =>
      if s.tasksClosed then s.(panicked := true)
      else s.(calls := s.calls[i := Returned(Accepted)], queue := s.queue + [i], accepted := s.accepted + multiset{i})
    case GiveUp(i) => s.(calls := s.calls[i := Returned(ContextDone)])
    case Answer(i) => s.(calls := s.calls[i := Answered(s.calls[i].outcome)], sent := s.sent + multiset{i})
    case Close(j) => s.(closers := s.closers[j := Locking])
    case WriteLock(j) => s.(closers := s.closers[j := Holding])
    case MarkClosed(j) =>
      if s.closed then s.(closers := s.closers[j := Unlocking])
      else s.(closed := true, closers := s.closers[j := Closing])
    case CloseTasks(j) =>
      if s.tasksClosed then s.(panicked := true) else s.(tasksClosed := true, closers := s.closers[j := Unlocking])
    case WriteUnlock(j) => s.(closers := s.closers[j := Waiting])
    case StopWaiting(j) => s.(closers := s.closers[j := Cancelling])
    case Cancel(j) => s.(cancelled := true, closers := s.closers[j := Done])
    case Take(w) => s.(workers := s.workers[w := Busy(s.queue[0])], queue := s.queue[1..])
    case Run(w) =>
      var task := s.workers[w].task;
      s.(workers := s.workers[w := Idle], executed := s.executed + multiset{task}, sent := s.sent + multiset{task})
    case ExitClosed(w) => s.(workers := s.workers[w := Exited])
    case ExitDone(w) => s.(workers := s.workers[w := Exited])
    case CancelParent => s.(parentDone := true)
  }

  // ---------- What every step keeps ----------

  /** How many workers are running this task. */
  function Running(ws: seq<Worker>, task: nat): nat
  {
    if ws == [] then 0 else Running(ws[..|ws| - 1], task) + IsRunning(ws[|ws| - 1], task)
  }

  function IsRunning(x: Worker, task: nat): nat
  {
    if x == Busy(task) then 1 else 0
  }

  lemma {:induction false} RunningUpdate(ws: seq<Worker>, w: nat, x: Worker, task: nat)
    requires w < |ws|
    ensures Running(ws[w := x], task) + IsRunning(ws[w], task) == Running(ws, task) + IsRunning(x, task)
  {
    hide IsRunning;
    var last := |ws| - 1;
    if w == last {
      assert ws[w := x][..last] == ws[..last];
    } else {
      assert ws[w := x][..last] == ws[..last][w := x];
      RunningUpdate(ws[..last], w, x, task);
    }
  }

  /** How often this task is queued. */
  function Queued(q: seq<nat>, task: nat): nat
  {
    multiset(q)[task]
  }

  /** No task is lost and none is made up. */
  ghost predicate Conserved(s: State)
  {
    forall i :: s.accepted[i] == s.executed[i] + Running(s.workers, i) + Queued(s.queue, i)
  }

  /** A call's task is accepted once, if `Submit` said so, and otherwise never. */
  ghost predicate AcceptedOnce(s: State)
  {
    forall i :: s.accepted[i] == if CallIs(s, i, Returned(Accepted)) then 1 else 0
  }

  /** A result channel has one value from a task that ran or from the call that failed. */
  ghost predicate SentOnce(s: State)
  {
    (forall i :: s.sent[i] == s.executed[i] + if i in s.calls && s.calls[i].Answered? then 1 else 0) &&
    (forall i :: i in s.calls && s.calls[i].Answered? ==> s.calls[i].outcome != Accepted)
  }

  /** Readers and the one writer exclude each other. */
  ghost predicate LockHeld(s: State)
  {
    (forall i, j :: i in s.calls && j in s.closers ==> !(Reading(s.calls[i]) && Writing(s.closers[j]))) &&
    (forall i, j :: i in s.closers && j in s.closers && Writing(s.closers[i]) && Writing(s.closers[j]) ==> i == j)
  }

  /** The flag and the channel are closed together, as far as anyone without the lock can tell. */
  ghost predicate ClosedTogether(s: State)
  {
    !s.panicked && (s.tasksClosed ==> s.closed) &&
    (forall i :: i in s.calls && s.calls[i] == Selecting ==> !s.closed) &&
    (forall j :: j in s.closers && s.closers[j] == Closing ==> s.closed && !s.tasksClosed) &&
    (s.closed && !s.tasksClosed ==> exists j :: CloserIs(s, j, Closing)) &&
    (forall j :: j in s.closers && s.closers[j] != Locking && s.closers[j] != Holding && s.closers[j] != Closing ==>
     s.tasksClosed)
  }

  /** Workers stop for a reason. */
  ghost predicate ExitsExplained(s: State)
  {
    |s.workers| >= 1 && s.capacity >= 1 && |s.queue| <= s.capacity &&
    (s.cancelled ==> AllExited(s)) &&
    (forall j :: j in s.closers && (s.closers[j] == Cancelling || s.closers[j] == Done) ==> AllExited(s)) &&
    (forall w :: 0 <= w < |s.workers| && s.workers[w] == Exited ==> s.parentDone || (s.tasksClosed && s.queue == []))
  }

  ghost predicate Good(s: State)
  {
    Conserved(s) && AcceptedOnce(s) && SentOnce(s) && LockHeld(s) && ClosedTogether(s) && ExitsExplained(s)
  }

  lemma {:induction false} NobodyRuns(ws: seq<Worker>)
    requires forall w :: 0 <= w < |ws| ==> !ws[w].Busy?
    ensures forall i :: Running(ws, i) == 0
  {
    if ws != [] {
      NobodyRuns(ws[..|ws| - 1]);
    }
  }

  lemma NewPoolIsGood(workers: int, queue: int)
    ensures Good(NewPool(workers, queue))
    ensures var s := NewPool(workers, queue);
            |s.workers| == (if workers < 1 then 1 else workers) &&
            s.capacity == (if queue < |s.workers| then |s.workers| else queue)
  {
    NobodyRuns(NewPool(workers, queue).workers);
  }

  lemma TakeConserves(s: State, w: nat)
    requires Conserved(s) && Enabled(s, Take(w))
    ensures Conserved(After(s, Take(w)))
  {
    hide Running;
    var task := s.queue[0];
    assert s.queue == [task] + s.queue[1..];
    forall i ensures After(s, Take(w)).accepted[i] ==
      s.executed[i] + Running(s.workers[w := Busy(task)], i) + Queued(s.queue[1..], i) {
      RunningUpdate(s.workers, w, Busy(task), i);
      assert multiset(s.queue)[i] == multiset([task])[i] + multiset(s.queue[1..])[i];
    }
  }

  lemma RunConserves(s: State, w: nat)
    requires Conserved(s) && Enabled(s, Run(w))
    ensures Conserved(After(s, Run(w)))
  {
    hide Running, Queued;
    forall i ensures Running(s.workers[w := Idle], i) + IsRunning(s.workers[w], i) == Running(s.workers, i) {
      RunningUpdate(s.workers, w, Idle, i);
    }
  }

  lemma ExitConserves(s: State, w: nat)
    requires Conserved(s) && WorkerIs(s, w, Idle)
    ensures Conserved(s.(workers := s.workers[w := Exited]))
  {
    hide Running, Queued;
    forall i ensures Running(s.workers[w := Exited], i) == Running(s.workers, i) {
      RunningUpdate(s.workers, w, Exited, i);
    }
  }

  lemma StepConserves(s: State, t: Step)
    requires Conserved(s) && Enabled(s, t)
    ensures Conserved(After(s, t))
  {
    hide Running, NoReader, NoWriter, AllExited;
    match t {
      case Take(w) => TakeConserves(s, w);
      case Run(w) => RunConserves(s, w);
      case ExitClosed(w) => ExitConserves(s, w);
      case ExitDone(w) => ExitConserves(s, w);
      case _ =>
    }
  }

  lemma StepAcceptsOnce(s: State, t: Step)
    requires AcceptedOnce(s) && Enabled(s, t)
    ensures AcceptedOnce(After(s, t))
  {
  }

  lemma AnswerSendsOnce(s: State, i: nat)
    requires SentOnce(s) && Enabled(s, Answer(i))
    ensures SentOnce(After(s, Answer(i)))
  {
  }

  lemma RunSendsOnce(s: State, w: nat)
    requires SentOnce(s) && Enabled(s, Run(w))
    ensures SentOnce(After(s, Run(w)))
  {
  }

  lemma CallSendsOnce(s: State, t: Step)
    requires SentOnce(s) && Enabled(s, t)
    requires t.Call? || t.ReadLock? || t.CheckClosed? || t.Send? || t.GiveUp?
    ensures SentOnce(After(s, t))
  {
    hide NoReader, NoWriter;
  }

  lemma SentOnceElsewhere(s: State, n: State)
    requires SentOnce(s) && n.sent == s.sent && n.executed == s.executed && n.calls == s.calls
    ensures SentOnce(n)
  {
  }

  lemma StepSendsOnce(s: State, t: Step)
    requires SentOnce(s) && Enabled(s, t)
    ensures SentOnce(After(s, t))
  {
    hide SentOnce, NoReader, NoWriter, AllExited;
    if t.Answer? {
      AnswerSendsOnce(s, t.i);
    } else if t.Run? {
      RunSendsOnce(s, t.w);
    } else if t.Call? || t.ReadLock? || t.CheckClosed? || t.Send? || t.GiveUp? {
      CallSendsOnce(s, t);
    } else {
      SentOnceElsewhere(s, After(s, t));
    }
  }

  lemma CallHoldsLock(s: State, t: Step)
    requires LockHeld(s) && Enabled(s, t)
    requires t.Call? || t.ReadLock? || t.CheckClosed? || t.Send? || t.GiveUp? || t.Answer?
    ensures LockHeld(After(s, t))
  {
  }

  lemma CloserHoldsLock(s: State, t: Step)
    requires LockHeld(s) && Enabled(s, t)
    requires t.Close? || t.WriteLock? || t.MarkClosed? || t.CloseTasks? || t.WriteUnlock? || t.StopWaiting? || t.Cancel?
    ensures LockHeld(After(s, t))
  {
    hide AllExited;
  }

  lemma LockHeldElsewhere(s: State, n: State)
    requires LockHeld(s) && n.calls == s.calls && n.closers == s.closers
    ensures LockHeld(n)
  {
  }

  lemma StepHoldsLock(s: State, t: Step)
    requires LockHeld(s) && Enabled(s, t)
    ensures LockHeld(After(s, t))
  {
    hide LockHeld, NoReader, NoWriter, AllExited;
    if t.Call? || t.ReadLock? || t.CheckClosed? || t.Send? || t.GiveUp? || t.Answer? {
      CallHoldsLock(s, t);
    } else if t.Take? || t.Run? || t.ExitClosed? || t.ExitDone? || t.CancelParent? {
      LockHeldElsewhere(s, After(s, t));
    } else {
      CloserHoldsLock(s, t);
    }
  }

  /** A call's own steps leave the flags alone, and none starts to wait once the flag is up. */
  lemma CallerClosesTogether(s: State, t: Step)
    requires ClosedTogether(s) && Enabled(s, t)
    requires t.Call? || t.ReadLock? || t.CheckClosed? || t.Send? || t.GiveUp? || t.Answer?
    ensures ClosedTogether(After(s, t))
  {
    hide NoReader, NoWriter;
    if s.closed && !s.tasksClosed {
      var j :| CloserIs(s, j, Closing);
      assert CloserIs(After(s, t), j, Closing);
    }
  }

  lemma MarkClosesTogether(s: State, j: nat)
    requires ClosedTogether(s) && LockHeld(s) && CloserIs(s, j, Holding)
    ensures ClosedTogether(After(s, MarkClosed(j)))
  {
    assert Writing(s.closers[j]);
    if s.closed && !s.tasksClosed {
      var k :| CloserIs(s, k, Closing);
      assert Writing(s.closers[k]);
    }
    assert forall i :: i in s.calls ==> !Reading(s.calls[i]);
    assert s.closed || CloserIs(After(s, MarkClosed(j)), j, Closing);
  }

  lemma ClosingClosesTogether(s: State, j: nat)
    requires ClosedTogether(s) && LockHeld(s) && CloserIs(s, j, Closing)
    ensures ClosedTogether(After(s, CloseTasks(j)))
  {
  }

  /** The other steps of a closer neither raise a flag nor leave the state in which one is half raised. */
  lemma CloserClosesTogether(s: State, t: Step)
    requires ClosedTogether(s) && Enabled(s, t)
    requires t.Close? || t.WriteLock? || t.WriteUnlock? || t.StopWaiting? || t.Cancel?
    ensures ClosedTogether(After(s, t))
  {
    hide NoReader, NoWriter, AllExited;
    if s.closed && !s.tasksClosed {
      var j :| CloserIs(s, j, Closing);
      assert CloserIs(After(s, t), j, Closing);
    }
  }

  lemma StepClosesTogether(s: State, t: Step)
    requires ClosedTogether(s) && LockHeld(s) && Enabled(s, t)
    ensures ClosedTogether(After(s, t))
  {
    hide NoReader, NoWriter, LockHeld, AllExited;
    if t.Call? || t.ReadLock? || t.CheckClosed? || t.Send? || t.GiveUp? || t.Answer? {
      CallerClosesTogether(s, t);
    } else if t.MarkClosed? {
      MarkClosesTogether(s, t.j);
    } else if t.CloseTasks? {
      ClosingClosesTogether(s, t.j);
    } else if t.Close? || t.WriteLock? || t.WriteUnlock? || t.StopWaiting? || t.Cancel? {
      CloserClosesTogether(s, t);
    } else if s.closed && !s.tasksClosed {
      var j :| CloserIs(s, j, Closing);
      assert CloserIs(After(s, t), j, Closing);
    }
  }

  lemma CallExplainsExits(s: State, t: Step)
    requires ExitsExplained(s) && Enabled(s, t)
    requires t.Call? || t.ReadLock? || t.CheckClosed? || t.Send? || t.GiveUp? || t.Answer?
    ensures ExitsExplained(After(s, t))
  {
    hide NoReader, NoWriter;
  }

  /** A closer returns only when every worker is gone. */
  lemma CloserExplainsExits(s: State, t: Step)
    requires ExitsExplained(s) && Enabled(s, t)
    requires t.Close? || t.WriteLock? || t.MarkClosed? || t.CloseTasks? || t.WriteUnlock? || t.StopWaiting? || t.Cancel?
    ensures ExitsExplained(After(s, t))
  {
    hide NoReader, NoWriter;
  }

  /** A worker goes when the channel is closed and empty, or with its context, and what is taken was not left behind. */
  lemma WorkerExplainsExits(s: State, t: Step)
    requires ExitsExplained(s) && Enabled(s, t)
    requires t.Take? || t.Run? || t.ExitClosed? || t.ExitDone? || t.CancelParent?
    ensures ExitsExplained(After(s, t))
  {
  }

  lemma StepExplainsExits(s: State, t: Step)
    requires ExitsExplained(s) && Enabled(s, t)
    ensures ExitsExplained(After(s, t))
  {
    hide ExitsExplained, NoReader, NoWriter, AllExited;
    if t.Call? || t.ReadLock? || t.CheckClosed? || t.Send? || t.GiveUp? || t.Answer? {
      CallExplainsExits(s, t);
    } else if t.Take? || t.Run? || t.ExitClosed? || t.ExitDone? || t.CancelParent? {
      WorkerExplainsExits(s, t);
    } else {
      CloserExplainsExits(s, t);
    }
  }

  /** Every step keeps all of it. */
  lemma StepIsGood(s: State, t: Step)
    requires Good(s) && Enabled(s, t)
    ensures Good(After(s, t))
  {
    StepConserves(s, t);
    StepAcceptsOnce(s, t);
    StepSendsOnce(s, t);
    StepHoldsLock(s, t);
    StepClosesTogether(s, t);
    StepExplainsExits(s, t);
  }

  // ---------- Runs ----------

  /** The steps can be taken in this order. */
  ghost predicate CanRun(s: State, ts: seq<Step>)
    decreases |ts|
  {
    ts == [] || (Enabled(s, ts[0]) && CanRun(After(s, ts[0]), ts[1..]))
  }

  ghost function RunAll(s: State, ts: seq<Step>): State
    requires CanRun(s, ts)
    decreases |ts|
  {
    if ts == [] then s else RunAll(After(s, ts[0]), ts[1..])
  }

  lemma {:induction false} RunIsGood(s: State, ts: seq<Step>)
    requires Good(s) && CanRun(s, ts)
    ensures Good(RunAll(s, ts))
    decreases |ts|
  {
    hide Good, Enabled, After;
    if ts != [] {
      StepIsGood(s, ts[0]);
      RunIsGood(After(s, ts[0]), ts[1..]);
    }
  }

  /**
   * In every interleaving: nothing is sent on a closed channel, and what was accepted has been run, is being run or is
   * waiting.
   */
  lemma NothingIsLost(workers: int, queue: int, ts: seq<Step>)
    requires CanRun(NewPool(workers, queue), ts)
    ensures var s := RunAll(NewPool(workers, queue), ts);
            !s.panicked && forall i :: s.accepted[i] == s.executed[i] + Running(s.workers, i) + Queued(s.queue, i)
  {
    NewPoolIsGood(workers, queue);
    RunIsGood(NewPool(workers, queue), ts);
  }

  lemma ExitedPoolIsIdle(s: State)
    requires ExitsExplained(s) && AllExited(s)
    ensures (forall i :: Running(s.workers, i) == 0) && (s.parentDone || s.queue == [])
  {
    NobodyRuns(s.workers);
    assert s.workers[0] == Exited;
  }

  /**
   * When `Close` has returned, a task was run, once, exactly when it was accepted and is not still in the queue; and
   * the queue is empty unless the parent context was cancelled. The result channels are filled accordingly.
   */
  lemma ClosedMeansRun(workers: int, queue: int, ts: seq<Step>, j: nat)
    requires CanRun(NewPool(workers, queue), ts) && CloserIs(RunAll(NewPool(workers, queue), ts), j, Done)
    ensures var s := RunAll(NewPool(workers, queue), ts);
            (s.parentDone || s.queue == []) &&
            (forall i :: s.executed[i] == if CallIs(s, i, Returned(Accepted)) && i !in s.queue then 1 else 0) &&
            (forall i :: s.sent[i] == if (CallIs(s, i, Returned(Accepted)) && i !in s.queue) || AnsweredItself(s, i)
                                      then 1 else 0)
  {
    hide CanRun, RunAll, LockHeld, ClosedTogether;
    NewPoolIsGood(workers, queue);
    RunIsGood(NewPool(workers, queue), ts);
    var s := RunAll(NewPool(workers, queue), ts);
    ExitedPoolIsIdle(s);
    forall i ensures s.executed[i] == if CallIs(s, i, Returned(Accepted)) && i !in s.queue then 1 else 0 {
      assert s.accepted[i] == s.executed[i] + Queued(s.queue, i);
    }
  }

  predicate AnsweredItself(s: State, i: nat)
  {
    i in s.calls && s.calls[i].Answered?
  }

  /** A result channel never has more than its one slot filled, so nothing that sends on it blocks. */
  lemma ResultChannelsNeverFill(workers: int, queue: int, ts: seq<Step>, i: nat)
    requires CanRun(NewPool(workers, queue), ts)
    ensures var s := RunAll(NewPool(workers, queue), ts);
            s.sent[i] <= 1 && (s.sent[i] == 1 ==>
                               i in s.calls && (s.calls[i].Answered? || s.calls[i] == Returned(Accepted)))
  {
    hide CanRun, RunAll, ClosedTogether, LockHeld, ExitsExplained;
    NewPoolIsGood(workers, queue);
    RunIsGood(NewPool(workers, queue), ts);
    var s := RunAll(NewPool(workers, queue), ts);
    assert s.accepted[i] == s.executed[i] + Running(s.workers, i) + Queued(s.queue, i);
  }

  lemma Prepend(s: State, t: Step, ts: seq<Step>)
    requires Enabled(s, t) && CanRun(After(s, t), ts)
    ensures CanRun(s, [t] + ts) && RunAll(s, [t] + ts) == RunAll(After(s, t), ts)
  {
  }

  lemma Append(s: State, ts: seq<Step>, t: Step)
    requires CanRun(s, ts) && Enabled(RunAll(s, ts), t)
    ensures CanRun(s, ts + [t]) && RunAll(s, ts + [t]) == After(RunAll(s, ts), t)
    decreases |ts|
  {
    hide Enabled, After;
    if ts == [] {
      Prepend(s, t, []);
      assert [] + [t] == [t] + [];
    } else {
      Append(After(s, ts[0]), ts[1..], t);
      Prepend(s, ts[0], ts[1..] + [t]);
      assert [ts[0]] + (ts[1..] + [t]) == ts + [t];
    }
  }

  /** A call that nobody disturbs gets its task into a queue that has room. */
  lemma UndisturbedCall(s: State, ts: seq<Step>, i: nat) returns (us: seq<Step>)
    requires CanRun(s, ts)
    requires var m := RunAll(s, ts);
             i !in m.calls && m.closers == map[] && !m.closed && !m.tasksClosed && |m.queue| < m.capacity
    ensures CanRun(s, us)
    ensures var m := RunAll(s, ts);
            RunAll(s, us) == m.(calls := m.calls[i := Returned(Accepted)], queue := m.queue + [i],
                                accepted := m.accepted + multiset{i})
  {
    hide CanRun, RunAll;
    var m := RunAll(s, ts);
    Append(s, ts, Call(i));
    us := ts + [Call(i)];
    Append(s, us, ReadLock(i));
    us := us + [ReadLock(i)];
    Append(s, us, CheckClosed(i));
    us := us + [CheckClosed(i)];
    Append(s, us, Send(i));
    us := us + [Send(i)];
    assert m.calls[i := Calling][i := Locked][i := Selecting][i := Returned(Accepted)] ==
             m.calls[i := Returned(Accepted)];
  }

  lemma UndisturbedSignal(s: State, ts: seq<Step>, j: nat) returns (us: seq<Step>)
    requires CanRun(s, ts)
    requires var m := RunAll(s, ts); m.closers == map[] && NoReader(m) && !m.closed && !m.tasksClosed
    ensures CanRun(s, us)
    ensures var m := RunAll(s, ts);
            RunAll(s, us) == m.(closed := true, tasksClosed := true, closers := map[j := Unlocking])
  {
    hide CanRun, RunAll;
    var m := RunAll(s, ts);
    Append(s, ts, Close(j));
    us := ts + [Close(j)];
    assert RunAll(s, us).closers == map[j := Locking];
    Append(s, us, WriteLock(j));
    us := us + [WriteLock(j)];
    assert RunAll(s, us).closers == map[j := Holding];
    Append(s, us, MarkClosed(j));
    us := us + [MarkClosed(j)];
    assert RunAll(s, us).closers == map[j := Closing];
    Append(s, us, CloseTasks(j));
    us := us + [CloseTasks(j)];
    assert RunAll(s, us).closers == map[j := Unlocking];
  }

  /** A close that nobody disturbs comes through when the workers have stopped. */
  lemma UndisturbedClose(s: State, ts: seq<Step>, j: nat) returns (us: seq<Step>)
    requires CanRun(s, ts)
    requires var m := RunAll(s, ts); m.closers == map[] && NoReader(m) && !m.closed && !m.tasksClosed && AllExited(m)
    ensures CanRun(s, us)
    ensures var m := RunAll(s, ts);
            RunAll(s, us) == m.(closed := true, tasksClosed := true, cancelled := true, closers := map[j := Done])
  {
    hide CanRun, RunAll, NoReader, NoWriter;
    us := UndisturbedSignal(s, ts, j);
    Append(s, us, WriteUnlock(j));
    us := us + [WriteUnlock(j)];
    assert RunAll(s, us).closers == map[j := Waiting];
    Append(s, us, StopWaiting(j));
    us := us + [StopWaiting(j)];
    assert RunAll(s, us).closers == map[j := Cancelling];
    Append(s, us, Cancel(j));
    us := us + [Cancel(j)];
    assert RunAll(s, us).closers == map[j := Done];
  }

  /**
   * The condition on the parent is needed: when it is cancelled, `Close` can return with an accepted task unrun, and
   * the caller's result channel stays empty for good.
   */
  lemma CancelledParentLosesTask() returns (ts: seq<Step>)
    ensures CanRun(NewPool(1, 1), ts)
    ensures var s := RunAll(NewPool(1, 1), ts);
            s.parentDone && CloserIs(s, 0, Done) && CallIs(s, 0, Returned(Accepted)) && s.sent[0] == 0 && AllExited(s)
  {
    hide CanRun, RunAll;
    var s := NewPool(1, 1);
    ts := EmptyRun(s);
    ts := UndisturbedCall(s, ts, 0);
    Append(s, ts, CancelParent);
    ts := ts + [CancelParent];
    Append(s, ts, ExitDone(0));
    ts := ts + [ExitDone(0)];
    ts := UndisturbedClose(s, ts, 0);
  }

  lemma EmptyRun(s: State) returns (ts: seq<Step>)
    ensures ts == [] && CanRun(s, ts) && RunAll(s, ts) == s
  {
    ts := [];
  }

  // ---------- Order, refusals and closing ----------

  /** The tasks that a run puts into the queue, in that order. */
  ghost function Entered(s: State, ts: seq<Step>): seq<nat>
    requires CanRun(s, ts)
    decreases |ts|
  {
    if ts == [] then []
    else (if ts[0].Send? then [ts[0].i] else []) + Entered(After(s, ts[0]), ts[1..])
  }

  /** The tasks that a run's workers come to hold, in that order. */
  ghost function Started(s: State, ts: seq<Step>): seq<nat>
    requires CanRun(s, ts)
    decreases |ts|
  {
    if ts == [] then []
    else
      var n := After(s, ts[0]);
      (if ts[0].Take? && n.workers[ts[0].w].Busy? then [n.workers[ts[0].w].task] else []) + Started(n, ts[1..])
  }

  lemma StepQueues(s: State, t: Step)
    requires Good(s) && Enabled(s, t)
    ensures s.queue + Entered(s, [t]) == Started(s, [t]) + After(s, t).queue
  {
    hide Good, NoReader, NoWriter, AllExited;
    assert [t][1..] == [];
    if t.Send? {
      assert !s.tasksClosed by { NobodySendsOnClosed(s, t.i); }
    }
  }

  lemma NobodySendsOnClosed(s: State, i: nat)
    requires Good(s) && CallIs(s, i, Selecting)
    ensures !s.tasksClosed
  {
    hide Conserved, AcceptedOnce, SentOnce, LockHeld, ExitsExplained;
  }

  /** First come, first served: workers start the tasks in the order in which these got into the queue. */
  lemma {:induction false} StartedInOrder(s: State, ts: seq<Step>)
    requires Good(s) && CanRun(s, ts)
    ensures s.queue + Entered(s, ts) == Started(s, ts) + RunAll(s, ts).queue
    decreases |ts|
  {
    hide Good, Enabled, After;
    if ts == [] {
      assert s.queue + [] == [] + s.queue;
    } else {
      var t, n := ts[0], After(s, ts[0]);
      StepQueues(s, t);
      StepIsGood(s, t);
      StartedInOrder(n, ts[1..]);
      calc {
        s.queue + Entered(s, ts);
        (s.queue + Entered(s, [t])) + Entered(n, ts[1..]);
        Started(s, [t]) + (n.queue + Entered(n, ts[1..]));
        Started(s, ts) + RunAll(s, ts).queue;
      }
    }
  }

  /** A refusal has its reason: the pool was closed, or a context was done. */
  ghost predicate RefusalsExplained(s: State)
  {
    forall i :: i in s.calls && (s.calls[i].Returned? || s.calls[i].Answered?) ==>
      (s.calls[i].outcome == PoolClosed ==> s.closed) &&
      (s.calls[i].outcome == ContextDone ==> s.parentDone || s.cancelled)
  }

  lemma StepExplainsRefusals(s: State, t: Step)
    requires RefusalsExplained(s) && Enabled(s, t)
    ensures RefusalsExplained(After(s, t))
  {
    hide NoReader, NoWriter, AllExited;
  }

  lemma {:induction false} RunExplainsRefusals(s: State, ts: seq<Step>)
    requires RefusalsExplained(s) && CanRun(s, ts)
    ensures RefusalsExplained(RunAll(s, ts))
    decreases |ts|
  {
    hide RefusalsExplained, Enabled, After;
    if ts != [] {
      StepExplainsRefusals(s, ts[0]);
      RunExplainsRefusals(After(s, ts[0]), ts[1..]);
    }
  }

  /** In every interleaving a call is refused only when the pool is closed or a context is done. */
  lemma RefusedForAReason(workers: int, queue: int, ts: seq<Step>, i: nat)
    requires CanRun(NewPool(workers, queue), ts)
    ensures var s := RunAll(NewPool(workers, queue), ts);
            (CallIs(s, i, Returned(PoolClosed)) || CallIs(s, i, Answered(PoolClosed)) ==> s.closed) &&
            (CallIs(s, i, Returned(ContextDone)) || CallIs(s, i, Answered(ContextDone)) ==> s.parentDone || s.cancelled)
  {
    RunExplainsRefusals(NewPool(workers, queue), ts);
  }

  lemma ClosedStep(s: State, t: Step)
    requires Good(s) && s.closed && Enabled(s, t)
    ensures After(s, t).closed && After(s, t).accepted == s.accepted
  {
    hide Conserved, AcceptedOnce, SentOnce, LockHeld, ExitsExplained, NoReader, NoWriter, AllExited;
  }

  /** Once a closer has raised the flag nothing more is accepted, not even from calls that began before. */
  lemma {:induction false} ClosedAcceptsNothing(s: State, ts: seq<Step>)
    requires Good(s) && s.closed && CanRun(s, ts)
    ensures RunAll(s, ts).closed && RunAll(s, ts).accepted == s.accepted
    decreases |ts|
  {
    hide Good, Enabled, After;
    if ts != [] {
      ClosedStep(s, ts[0]);
      StepIsGood(s, ts[0]);
      ClosedAcceptsNothing(After(s, ts[0]), ts[1..]);
    }
  }

  // ---------- Progress ----------

  ghost predicate Unfinished(s: State)
  {
    (exists i :: i in s.calls && !s.calls[i].Returned? && !s.calls[i].Answered?) ||
    (exists j :: j in s.closers && s.closers[j] != Done)
  }

  /** Steps of the pool itself, as opposed to new calls and a cancelled parent. */
  predicate Internal(t: Step)
  {
    !t.Call? && !t.Close? && !t.CancelParent? && !t.Answer?
  }

  /** A worker that has not stopped can go on, when there is something in the queue or the queue is closed. */
  lemma WorkersGoOn(s: State, w: nat)
    requires Good(s) && w < |s.workers| && s.workers[w] != Exited && (s.queue != [] || s.tasksClosed)
    ensures Enabled(s, Take(w)) || Enabled(s, Run(w)) || Enabled(s, ExitClosed(w))
  {
  }

  /** A call that holds the lock can go on, or a worker can. */
  lemma ReaderGoesOn(s: State, i: nat)
    requires Good(s) && i in s.calls && Reading(s.calls[i])
    ensures exists t :: Internal(t) && Enabled(s, t)
  {
    if s.calls[i] == Locked {
      assert Enabled(s, CheckClosed(i));
    } else if |s.queue| < s.capacity {
      assert Enabled(s, Send(i));
    } else if ContextIsDone(s) {
      assert Enabled(s, GiveUp(i));
    } else {
      assert s.queue != [] && s.workers[0] != Exited;
      WorkersGoOn(s, 0);
    }
  }

  lemma WriterGoesOn(s: State, j: nat)
    requires Good(s) && j in s.closers && s.closers[j] != Done && s.closers[j] != Locking
    ensures exists t :: Internal(t) && Enabled(s, t)
  {
    hide Conserved, AcceptedOnce, SentOnce, LockHeld, NoReader, NoWriter;
    match s.closers[j] {
      case Holding => assert Enabled(s, MarkClosed(j));
      case Closing => assert Enabled(s, CloseTasks(j));
      case Unlocking => assert Enabled(s, WriteUnlock(j));
      case Cancelling => assert Enabled(s, Cancel(j));
      case Waiting =>
        if AllExited(s) {
          assert Enabled(s, StopWaiting(j));
        } else {
          var w :| 0 <= w < |s.workers| && s.workers[w] != Exited;
          WorkersGoOn(s, w);
        }
    }
  }

  /** There is no deadlock: while a call or a close is unfinished, the pool itself can take a step. */
  lemma NeverStuck(s: State)
    requires Good(s) && Unfinished(s)
    ensures exists t :: Internal(t) && Enabled(s, t)
  {
    hide Good;
    if j :| j in s.closers && s.closers[j] != Done && s.closers[j] != Locking {
      WriterGoesOn(s, j);
    } else if i :| i in s.calls && Reading(s.calls[i]) {
      ReaderGoesOn(s, i);
    } else {
      assert NoReader(s) && NoWriter(s);
      if i :| i in s.calls && !s.calls[i].Returned? && !s.calls[i].Answered? {
        assert Enabled(s, ReadLock(i));
      } else {
        var j :| j in s.closers && s.closers[j] != Done;
        assert Enabled(s, WriteLock(j));
      }
    }
  }

  // ---------- Closing comes to an end ----------

  function Load(ws: seq<Worker>): nat
  {
    if ws == [] then 0 else Load(ws[..|ws| - 1]) + LoadOf(ws[|ws| - 1])
  }

  function LoadOf(x: Worker): nat
  {
    match x
    case Idle => 1
    case Busy(_) => 2
    case Exited => 0
  }

  /** The steps the workers still have to take once the queue is closed: two for each task, one to stop. */
  function Work(s: State): nat
  {
    2 * |s.queue| + Load(s.workers)
  }

  lemma {:induction false} LoadUpdate(ws: seq<Worker>, w: nat, x: Worker)
    requires w < |ws|
    ensures Load(ws[w := x]) + LoadOf(ws[w]) == Load(ws) + LoadOf(x)
  {
    hide LoadOf;
    var last := |ws| - 1;
    if w == last {
      assert ws[w := x][..last] == ws[..last];
    } else {
      assert ws[w := x][..last] == ws[..last][w := x];
      LoadUpdate(ws[..last], w, x);
    }
  }

  predicate WorkerStep(t: Step)
  {
    t.Take? || t.Run? || t.ExitClosed? || t.ExitDone?
  }

  function WorkerSteps(ts: seq<Step>): nat
  {
    if ts == [] then 0 else (if WorkerStep(ts[0]) then 1 else 0) + WorkerSteps(ts[1..])
  }

  lemma StepWorks(s: State, t: Step)
    requires Good(s) && s.tasksClosed && Enabled(s, t)
    ensures After(s, t).tasksClosed && Work(After(s, t)) + (if WorkerStep(t) then 1 else 0) == Work(s)
  {
    hide Load, Conserved, AcceptedOnce, SentOnce, LockHeld, NoReader, NoWriter, AllExited;
    match t {
      case Take(w) => LoadUpdate(s.workers, w, Busy(s.queue[0]));
      case Run(w) => LoadUpdate(s.workers, w, Idle);
      case ExitClosed(w) => LoadUpdate(s.workers, w, Exited);
      case ExitDone(w) => LoadUpdate(s.workers, w, Exited);
      case _ =>
    }
  }

  /** Once the queue is closed its workers have a fixed number of steps left, so waiting for them ends. */
  lemma {:induction false} WorkRunsOut(s: State, ts: seq<Step>)
    requires Good(s) && s.tasksClosed && CanRun(s, ts)
    ensures WorkerSteps(ts) + Work(RunAll(s, ts)) == Work(s)
    decreases |ts|
  {
    hide Good, Work, WorkerStep;
    if ts != [] {
      StepIsGood(s, ts[0]);
      StepWorks(s, ts[0]);
      WorkRunsOut(After(s, ts[0]), ts[1..]);
    }
  }
}
