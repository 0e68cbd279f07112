/** The database task queue: callers of `addTask`, `flush` and `shutdown` and the worker, interleaved
    one lock, check, queue operation, unlock or notification at a time. */
module TaskQueue {
  import opened Collections

  /** A query with its place in the order in which tasks were accepted. */
  datatype Task = Task(ticket: nat, query: string)

  datatype Phase = Running | Closing | Terminated

  /** Where a thread is. The first line is `threadMain`, the second `addTask`, the third `flush`
      (`fin` if `shutdown` called it), the last the head of `shutdown`. */
  datatype Pc =
    | Test | Locking | Check | Parked | Woken | Take | Release | Popped(task: Task) | Run(task: Task) | Done
    | Idle | AddWant(query: string) | AddHeld(query: string) | AddDone(signal: bool) | Notify(signal: bool)
    | FlushWant(fin: bool) | FlushHeld(fin: bool) | FlushPopped(task: Task, fin: bool) | FlushRun(task: Task, fin: bool)
    | FlushRelease(fin: bool)
    | ShutWant | ShutHeld | ShutSet

  /** Thread 0 is the worker. The last four fields are history: whether `shutdown` has set the state,
      the tasks accepted, those taken from the queue, and those that have run, each in order. */
  datatype State = State(phase: Phase, lock: Option<nat>, tasks: seq<Task>, threads: seq<Pc>,
                         ended: bool, accepted: seq<Task>, dequeued: seq<Task>, executed: seq<Task>)

  /** A call of an idle thread, `stop`, a spurious wake-up, or the next step of a thread. */
  datatype Action =
    | CallAdd(i: nat, query: string) | CallFlush(i: nat) | CallShutdown(i: nat)
    | Stop | WakeUp | Step(i: nat)

  datatype LockUse = Keep | Acquire | Free

  datatype Work = NoWork | PopTask | PushTask(query: string) | RunTask(task: Task) | Terminate | NotifyOne

  /** What a thread does next: where it then is, what it does with the lock, and with the queue. */
  datatype Move = Move(pc: Pc, lock: LockUse, work: Work)

  function MoveOf(pc: Pc, phase: Phase, tasks: seq<Task>): Option<Move> {
    match pc
    case Test => Some(Move(if phase == Terminated then Done else Locking, Keep, NoWork))
    case Locking => Some(Move(Check, Acquire, NoWork))
    case Check => Some(if tasks == [] then Move(Parked, Free, NoWork) else Move(Take, Keep, NoWork))
    case Woken => Some(Move(Take, Acquire, NoWork))
    case Take => Some(if tasks == [] then Move(Release, Keep, NoWork) else Move(Popped(tasks[0]), Keep, PopTask))
    case Release => Some(Move(Test, Free, NoWork))
    case Popped(task) => Some(Move(Run(task), Free, NoWork))
    case Run(task) => Some(Move(Test, Keep, RunTask(task)))
    case AddWant(query) => Some(Move(AddHeld(query), Acquire, NoWork))
    case AddHeld(query) =>
      Some(if phase == Running then Move(AddDone(tasks == []), Keep, PushTask(query))
           else Move(AddDone(false), Keep, NoWork))
    case AddDone(signal) => Some(Move(Notify(signal), Free, NoWork))
    case Notify(signal) => Some(Move(Idle, Keep, if signal then NotifyOne else NoWork))
    case FlushWant(fin) => Some(Move(FlushHeld(fin), Acquire, NoWork))
    case FlushHeld(fin) =>
      Some(if tasks == [] then Move(FlushRelease(fin), Keep, NoWork)
           else Move(FlushPopped(tasks[0], fin), Keep, PopTask))
    case FlushPopped(task, fin) => Some(Move(FlushRun(task, fin), Free, NoWork))
    case FlushRun(task, fin) => Some(Move(FlushWant(fin), Keep, RunTask(task)))
    case FlushRelease(fin) => Some(Move(if fin then Notify(true) else Idle, Free, NoWork))
    case ShutWant => Some(Move(ShutHeld, Acquire, NoWork))
    case ShutHeld => Some(Move(ShutSet, Keep, Terminate))
    case ShutSet => Some(Move(FlushWant(true), Free, NoWork))
    case _ => None
  }

  /** The effect on the queue; only the worker ever waits to be notified. */
  function Worked(s: State, w: Work): State {
    match w
    case NoWork => s
    case PopTask =>
      if s.tasks == [] then s else s.(tasks := s.tasks[1..], dequeued := s.dequeued + [s.tasks[0]])
    case PushTask(query) =>
      var task := Task(|s.accepted|, query);
      s.(tasks := s.tasks + [task], accepted := s.accepted + [task])
    case RunTask(task) => s.(executed := s.executed + [task])
    case Terminate => s.(phase := Terminated, ended := true)
    case NotifyOne =>
      if s.threads != [] && s.threads[0] == Parked then s.(threads := s.threads[0 := Woken]) else s
  }

  function Moved(s: State, i: nat, m: Move): State
    requires i < |s.threads|
  {
    s.(threads := s.threads[i := m.pc],
       lock := match m.lock case Keep => s.lock case Acquire => Some(i) case Free => None)
  }

  function StepOf(s: State, i: nat): Option<State>
    requires i < |s.threads|
  {
    match MoveOf(s.threads[i], s.phase, s.tasks)
    case None => None
    case Some(m) =>
      if m.lock == Acquire && s.lock != None then None
      else Some(Worked(Moved(s, i, m), m.work))
  }

  function Call(s: State, i: nat, pc: Pc): Option<State> {
    if i < |s.threads| && s.threads[i] == Idle then Some(s.(threads := s.threads[i := pc])) else None
  }

  /** The state after an action, if it is possible. */
  function Next(s: State, a: Action): Option<State> {
    match a
    case CallAdd(i, query) => Call(s, i, AddWant(query))
    case CallFlush(i) => Call(s, i, FlushWant(false))
    case CallShutdown(i) => Call(s, i, ShutWant)
    case Stop => Some(s.(phase := Closing))
    case WakeUp =>
      if s.threads != [] && s.threads[0] == Parked then Some(s.(threads := s.threads[0 := Woken])) else None
    case Step(i) => if i < |s.threads| then StepOf(s, i) else None
  }

  /** `start`, with any number of threads that may call */
  function Start(callers: nat): State {
    State(Running, None, [], [Test] + seq(callers, _ => Idle), false, [], [], [])
  }

  ghost predicate Reaches(s: State, run: seq<Action>, t: State)
    decreases |run|
  {
    if run == [] then t == s
    else exists m :: Next(s, run[0]) == Some(m) && Reaches(m, run[1..], t)
  }

  // ----- What every step keeps --------------------------------------------------------------

  predicate OfWorker(pc: Pc) {
    pc.Test? || pc.Locking? || pc.Check? || pc.Parked? || pc.Woken? || pc.Take? || pc.Release? || pc.Popped?
    || pc.Run? || pc.Done?
  }

  predicate Holds(pc: Pc) {
    pc.Check? || pc.Take? || pc.Release? || pc.Popped? || pc.AddHeld? || pc.AddDone? || pc.FlushHeld?
    || pc.FlushPopped? || pc.FlushRelease? || pc.ShutHeld? || pc.ShutSet?
  }

  /** Exactly the owner of the lock is between its lock and its unlock. */
  ghost predicate Exclusive(s: State) {
    && s.threads != [] && OfWorker(s.threads[0])
    && (forall i :: 0 < i < |s.threads| ==> !OfWorker(s.threads[i]))
    && (forall i :: 0 <= i < |s.threads| ==> (Holds(s.threads[i]) <==> s.lock == Some(i)))
    && (s.lock.Some? ==> s.lock.value < |s.threads|)
  }

  function Hand(pc: Pc): Option<Task> {
    match pc
    case Popped(task) => Some(task)
    case Run(task) => Some(task)
    case FlushPopped(task, _) => Some(task)
    case FlushRun(task, _) => Some(task)
    case _ => None
  }

  function One(b: bool): nat { if b then 1 else 0 }

  ghost function Count(s: seq<Task>, task: Task): nat {
    if s == [] then 0 else Count(s[..|s| - 1], task) + One(s[|s| - 1] == task)
  }

  /** How many threads have taken the task and not yet run it. */
  ghost function Carried(threads: seq<Pc>, task: Task): nat {
    if threads == [] then 0
    else Carried(threads[..|threads| - 1], task) + One(Hand(threads[|threads| - 1]) == Some(task))
  }

  /** Every time the task was taken from the queue it has run, or some thread is about to run it. */
  ghost predicate Balanced(s: State, task: Task) {
    Count(s.dequeued, task) == Count(s.executed, task) + Carried(s.threads, task)
  }

  /** Tasks leave the queue in the order in which they were accepted, each under its own ticket. */
  ghost predicate InOrder(s: State) {
    && s.accepted == s.dequeued + s.tasks
    && (forall k :: 0 <= k < |s.accepted| ==> s.accepted[k].ticket == k)
  }

  ghost predicate Accounted(s: State) {
    InOrder(s) && forall task :: Balanced(s, task)
  }

  predicate Signals(pc: Pc) {
    pc == AddDone(true) || pc == Notify(true)
  }

  /** The worker is never parked over a queue that nobody is about to tell it of. */
  ghost predicate NothingMissed(s: State) {
    s.threads != [] && s.threads[0] == Parked && s.tasks != [] ==>
      exists i :: 0 <= i < |s.threads| && Signals(s.threads[i])
  }

  predicate Drains(pc: Pc) {
    || pc.ShutSet? || pc == FlushWant(true) || pc == FlushHeld(true)
    || (pc.FlushPopped? && pc.fin) || (pc.FlushRun? && pc.fin)
  }

  /** After `shutdown` has set the state nothing is accepted any more, and what is left is drained. */
  ghost predicate Drained(s: State) {
    && (s.phase == Terminated ==> s.ended)
    && (s.threads != [] && s.threads[0] == Done ==> s.ended)
    && (s.ended ==> s.phase != Running)
    && (s.ended && s.tasks != [] ==> exists i :: 0 <= i < |s.threads| && Drains(s.threads[i]))
  }

  ghost predicate Inv(s: State) {
    Exclusive(s) && Accounted(s) && NothingMissed(s) && Drained(s)
  }

  lemma CountMore(s: seq<Task>, x: Task, task: Task)
    ensures Count(s + [x], task) == Count(s, task) + One(x == task)
  {
    assert (s + [x])[..|s|] == s;
  }

  lemma {:induction false} CarriedUpdate(threads: seq<Pc>, i: nat, pc: Pc, task: Task)
    requires i < |threads|
    ensures Carried(threads[i := pc], task) + One(Hand(threads[i]) == Some(task))
         == Carried(threads, task) + One(Hand(pc) == Some(task))
  {
    hide Hand;
    var n := |threads| - 1;
    if i == n {
      assert threads[i := pc][..n] == threads[..n];
    } else {
      CarriedUpdate(threads[..n], i, pc, task);
      assert threads[i := pc][..n] == threads[..n][i := pc];
    }
  }

  lemma {:induction false} NothingCarried(threads: seq<Pc>, task: Task)
    requires forall i :: 0 <= i < |threads| ==> Hand(threads[i]) == None
    ensures Carried(threads, task) == 0
  {
    if threads != [] { NothingCarried(threads[..|threads| - 1], task); }
  }

  lemma StartKeeps(callers: nat)
    ensures Inv(Start(callers))
  {
    var s := Start(callers);
    forall task ensures Balanced(s, task) {
      NothingCarried(s.threads, task);
    }
  }

  /** The moves of a thread fit the lock and the task in its hands. */
  lemma MoveFits(pc: Pc, phase: Phase, tasks: seq<Task>, m: Move)
    requires MoveOf(pc, phase, tasks) == Some(m)
    ensures OfWorker(m.pc) == OfWorker(pc)
    ensures match m.lock
            case Keep => Holds(m.pc) == Holds(pc)
            case Acquire => !Holds(pc) && Holds(m.pc)
            case Free => Holds(pc) && !Holds(m.pc)
    ensures m.work.PopTask? || m.work.PushTask? || m.work.Terminate? ==> Holds(pc)
  {
  }

  lemma MoveCarries(pc: Pc, phase: Phase, tasks: seq<Task>, m: Move)
    requires MoveOf(pc, phase, tasks) == Some(m)
    ensures match m.work
            case PopTask => tasks != [] && Hand(pc) == None && Hand(m.pc) == Some(tasks[0])
            case RunTask(task) => Hand(pc) == Some(task) && Hand(m.pc) == None
            case _ => Hand(m.pc) == Hand(pc)
  {
  }

  /** Who has announced a notification makes it, and who finds the queue empty announces one. */
  lemma MoveSignals(pc: Pc, phase: Phase, tasks: seq<Task>, m: Move)
    requires MoveOf(pc, phase, tasks) == Some(m)
    ensures Signals(pc) ==> m.work == NotifyOne || Signals(m.pc)
    ensures m.work.PushTask? && tasks == [] ==> Signals(m.pc)
    ensures m.pc == Parked ==> tasks == [] && m.work == NoWork
  {
  }

  lemma MoveDrains(pc: Pc, phase: Phase, tasks: seq<Task>, m: Move)
    requires MoveOf(pc, phase, tasks) == Some(m)
    ensures Drains(pc) ==> Drains(m.pc) || tasks == []
    ensures m.work == Terminate ==> Drains(m.pc)
    ensures m.work.PushTask? ==> phase == Running
    ensures m.pc == Done ==> phase == Terminated
  {
  }

  lemma WokenExclusive(s: State)
    requires Exclusive(s) && s.threads[0] == Parked
    ensures Exclusive(s.(threads := s.threads[0 := Woken]))
  {
  }

  lemma MovedExclusive(s: State, i: nat, m: Move)
    requires Exclusive(s) && i < |s.threads| && MoveOf(s.threads[i], s.phase, s.tasks) == Some(m)
    requires m.lock == Acquire ==> s.lock == None
    ensures Exclusive(Worked(Moved(s, i, m), m.work))
  {
    MoveFits(s.threads[i], s.phase, s.tasks, m);
    hide MoveOf, OfWorker, Holds;
    var t := Moved(s, i, m);
    assert Exclusive(t);
    if m.work == NotifyOne && t.threads[0] == Parked { WokenExclusive(t); }
  }

  lemma WokenBalanced(s: State, task: Task)
    requires Balanced(s, task)
    ensures Balanced(Worked(s, NotifyOne), task)
  {
    if s.threads != [] && s.threads[0] == Parked {
      CarriedUpdate(s.threads, 0, Woken, task);
    }
  }

  lemma MovedBalanced(s: State, i: nat, m: Move, task: Task)
    requires Balanced(s, task) && i < |s.threads| && MoveOf(s.threads[i], s.phase, s.tasks) == Some(m)
    ensures Balanced(Worked(Moved(s, i, m), m.work), task)
  {
    MoveCarries(s.threads[i], s.phase, s.tasks, m);
    CarriedUpdate(s.threads, i, m.pc, task);
    hide MoveOf, Hand, Count, Carried;
    match m.work
    case PopTask => CountMore(s.dequeued, s.tasks[0], task);
    case RunTask(x) => CountMore(s.executed, x, task);
    case NotifyOne => WokenBalanced(Moved(s, i, m), task);
    case _ =>
  }

  lemma MovedInOrder(s: State, i: nat, m: Move)
    requires InOrder(s) && i < |s.threads|
    ensures InOrder(Worked(Moved(s, i, m), m.work))
  {
    var t := Worked(Moved(s, i, m), m.work);
    match m.work
    case PopTask =>
      if s.tasks != [] { FirstMoves(s.dequeued, s.tasks); }
    case PushTask(query) =>
      var task := Task(|s.accepted|, query);
      assert t.accepted == s.accepted + [task] && s.dequeued + (s.tasks + [task]) == (s.dequeued + s.tasks) + [task];
    case _ =>
      assert t.accepted == s.accepted && t.dequeued == s.dequeued && t.tasks == s.tasks;
  }

  lemma FirstMoves(a: seq<Task>, b: seq<Task>)
    requires b != []
    ensures a + b == (a + [b[0]]) + b[1..]
  {
  }

  /** A thread that changes neither lock nor hands */
  lemma QuietlyMoved(s: State, i: nat, pc: Pc)
    requires Exclusive(s) && Accounted(s) && i < |s.threads|
    requires OfWorker(pc) == OfWorker(s.threads[i]) && Holds(pc) == Holds(s.threads[i])
    requires Hand(pc) == Hand(s.threads[i])
    ensures Exclusive(s.(threads := s.threads[i := pc])) && Accounted(s.(threads := s.threads[i := pc]))
  {
    hide OfWorker, Holds, Hand;
    var t := s.(threads := s.threads[i := pc]);
    forall task ensures Balanced(t, task) {
      assert Balanced(s, task);
      CarriedUpdate(s.threads, i, pc, task);
    }
  }

  /** An action other than a step changes neither lock nor tasks. */
  lemma CallKeepsBooks(s: State, a: Action, t: State)
    requires Exclusive(s) && Accounted(s) && !a.Step? && Next(s, a) == Some(t)
    ensures Exclusive(t) && Accounted(t)
  {
    match a
    case CallAdd(i, query) => QuietlyMoved(s, i, AddWant(query));
    case CallFlush(i) => QuietlyMoved(s, i, FlushWant(false));
    case CallShutdown(i) => QuietlyMoved(s, i, ShutWant);
    case WakeUp => QuietlyMoved(s, 0, Woken);
    case Stop =>
      forall task ensures Balanced(t, task) { assert Balanced(s, task); }
    case Step(_) =>
  }

  lemma KeepsBooks(s: State, a: Action, t: State)
    requires Exclusive(s) && Accounted(s) && Next(s, a) == Some(t)
    ensures Exclusive(t) && Accounted(t)
  {
    if a.Step? {
      var m := MoveOf(s.threads[a.i], s.phase, s.tasks).value;
      MovedExclusive(s, a.i, m);
      MovedInOrder(s, a.i, m);
      forall task ensures Balanced(t, task) {
        assert Balanced(s, task);
        MovedBalanced(s, a.i, m, task);
      }
    } else {
      CallKeepsBooks(s, a, t);
    }
  }

  lemma KeepsNothingMissed(s: State, a: Action, t: State)
    requires Exclusive(s) && NothingMissed(s) && Next(s, a) == Some(t)
    ensures NothingMissed(t)
  {
    hide MoveOf, Signals, OfWorker, Holds;
    if a.Step? {
      var m := MoveOf(s.threads[a.i], s.phase, s.tasks).value;
      MoveSignals(s.threads[a.i], s.phase, s.tasks, m);
      if t.threads[0] == Parked && t.tasks != [] {
        assert m.work != NotifyOne && s.threads[0] == Parked;
        if s.tasks != [] {
          var j :| 0 <= j < |s.threads| && Signals(s.threads[j]);
          assert Signals(t.threads[j]);
        } else {
          assert Signals(t.threads[a.i]);
        }
      }
    } else if t.threads[0] == Parked && t.tasks != [] {
      var j :| 0 <= j < |s.threads| && Signals(s.threads[j]);
      assert !Signals(Idle) by { NotSignalling(); }
      assert Signals(t.threads[j]);
    }
  }

  lemma NotSignalling()
    ensures !Signals(Idle) && !Drains(Idle) && !Drains(Parked)
  {
  }

  lemma KeepsDrained(s: State, a: Action, t: State)
    requires Exclusive(s) && Drained(s) && Next(s, a) == Some(t)
    ensures Drained(t)
  {
    hide MoveOf, Drains, OfWorker, Holds;
    NotSignalling();
    if a.Step? {
      var m := MoveOf(s.threads[a.i], s.phase, s.tasks).value;
      MoveDrains(s.threads[a.i], s.phase, s.tasks, m);
      if t.ended && t.tasks != [] {
        if m.work == Terminate {
          assert Drains(t.threads[a.i]);
        } else {
          assert s.tasks != [];
          var j :| 0 <= j < |s.threads| && Drains(s.threads[j]);
          assert Drains(t.threads[j]);
        }
      }
    } else if t.ended && t.tasks != [] {
      var j :| 0 <= j < |s.threads| && Drains(s.threads[j]);
      assert Drains(t.threads[j]);
    }
  }

  /** Every state of every run, however the threads interleave, keeps all of this. */
  lemma {:induction false} InvHolds(s: State, run: seq<Action>, t: State)
    requires Inv(s) && Reaches(s, run, t)
    ensures Inv(t)
    decreases |run|
  {
    if run != [] {
      var m :| Next(s, run[0]) == Some(m) && Reaches(m, run[1..], t);
      KeepsBooks(s, run[0], m);
      KeepsNothingMissed(s, run[0], m);
      KeepsDrained(s, run[0], m);
      InvHolds(m, run[1..], t);
    }
  }

  // ----- What that means over whole runs ----------------------------------------------------

  lemma {:induction false} TicketsCount(s: seq<Task>, task: Task)
    requires forall k :: 0 <= k < |s| ==> s[k].ticket == k
    ensures Count(s, task) == One(task in s)
  {
    if s != [] {
      var n := |s| - 1;
      TicketsCount(s[..n], task);
      assert s == s[..n] + [s[n]];
    }
  }

  lemma {:induction false} CountAppend(s: seq<Task>, t: seq<Task>, task: Task)
    ensures Count(s + t, task) == Count(s, task) + Count(t, task)
  {
    if t == [] {
      assert s + t == s;
    } else {
      var n := |t| - 1;
      CountAppend(s, t[..n], task);
      assert (s + t)[..|s| + n] == s + t[..n];
    }
  }

  /** No task ever runs twice, none runs that was not accepted, none is in two hands, and those in the
      queue have not run and are in order. */
  lemma NeverTwice(callers: nat, run: seq<Action>, s: State, task: Task)
    requires Reaches(Start(callers), run, s)
    ensures Count(s.executed, task) + Carried(s.threads, task) + Count(s.tasks, task) == One(task in s.accepted)
    ensures s.accepted == s.dequeued + s.tasks
  {
    StartKeeps(callers);
    InvHolds(Start(callers), run, s);
    assert Balanced(s, task);
    TicketsCount(s.accepted, task);
    CountAppend(s.dequeued, s.tasks, task);
  }

  /** How many steps a thread can take until it rests, apart from taking tasks. */
  function Weight(pc: Pc, empty: bool): nat {
    match pc
    case Parked => 0 case Check => 1 case Locking => 2 case Test => 3 case Release => 4
    case Take => if empty then 5 else 0
    case Woken => 6 case Popped(_) => 5 case Run(_) => 4 case Done => 0
    case Idle => 0 case AddWant(_) => 16 case AddHeld(_) => 15
    case AddDone(signal) => if signal then 8 else 2
    case Notify(signal) => if signal then 7 else 1
    case FlushWant(_) => 10 case FlushHeld(_) => 9 case FlushPopped(_, _) => 12 case FlushRun(_, _) => 11
    case FlushRelease(_) => 8
    case ShutWant => 13 case ShutHeld => 12 case ShutSet => 11
  }

  const TASK_WEIGHT := 6

  ghost function Weights(threads: seq<Pc>, empty: bool): nat {
    if threads == [] then 0 else Weights(threads[..|threads| - 1], empty) + Weight(threads[|threads| - 1], empty)
  }

  ghost function Measure(s: State): nat {
    TASK_WEIGHT * |s.tasks| + Weights(s.threads, s.tasks == [])
  }

  lemma {:induction false} WeightsUpdate(threads: seq<Pc>, i: nat, pc: Pc, empty: bool)
    requires i < |threads|
    ensures Weights(threads[i := pc], empty) + Weight(threads[i], empty) == Weights(threads, empty) + Weight(pc, empty)
  {
    hide Weight;
    var n := |threads| - 1;
    if i == n {
      assert threads[i := pc][..n] == threads[..n];
    } else {
      WeightsUpdate(threads[..n], i, pc, empty);
      assert threads[i := pc][..n] == threads[..n][i := pc];
    }
  }

  lemma {:induction false} WeightsFrame(threads: seq<Pc>, a: bool, b: bool)
    requires forall i :: 0 <= i < |threads| ==> threads[i] != Take
    ensures Weights(threads, a) == Weights(threads, b)
  {
    if threads != [] { WeightsFrame(threads[..|threads| - 1], a, b); }
  }

  function TasksAfter(tasks: seq<Task>, w: Work): nat {
    match w
    case PopTask => if tasks == [] then 0 else |tasks| - 1
    case PushTask(_) => |tasks| + 1
    case _ => |tasks|
  }

  lemma MoveWeighs(pc: Pc, phase: Phase, tasks: seq<Task>, m: Move)
    requires MoveOf(pc, phase, tasks) == Some(m)
    ensures
      var n := TasksAfter(tasks, m.work);
      TASK_WEIGHT * n + Weight(m.pc, n == 0) + (if m.work == NotifyOne then Weight(Woken, n == 0) else 0)
      < TASK_WEIGHT * |tasks| + Weight(pc, tasks == [])
    ensures TasksAfter(tasks, m.work) != |tasks| ==> Holds(pc)
  {
  }

  lemma WokenWeighs(threads: seq<Pc>, empty: bool)
    requires threads != []
    ensures threads[0] == Parked ==>
      Weights(threads[0 := Woken], empty) == Weights(threads, empty) + Weight(Woken, empty)
  {
    WeightsUpdate(threads, 0, Woken, empty);
  }

  /** The weights once thread i has moved and the queue holds n tasks. */
  lemma MovedWeighs(s: State, i: nat, pc: Pc, n: nat)
    requires Exclusive(s) && i < |s.threads| && (n != |s.tasks| ==> Holds(s.threads[i]))
    ensures Weights(s.threads[i := pc], n == 0) + Weight(s.threads[i], s.tasks == [])
         == Weights(s.threads, s.tasks == []) + Weight(pc, n == 0)
  {
    var rest := s.threads[i := Idle];
    if n != |s.tasks| {
      OnlyHolderTakes(s, i);
      WeightsFrame(rest, s.tasks == [], n == 0);
    }
    WeightsUpdate(s.threads, i, Idle, s.tasks == []);
    WeightsUpdate(rest, i, pc, n == 0);
    assert rest[i := pc] == s.threads[i := pc];
  }

  lemma StepDescends(s: State, i: nat, t: State)
    requires Exclusive(s) && Next(s, Step(i)) == Some(t)
    ensures Measure(t) < Measure(s)
  {
    var m := MoveOf(s.threads[i], s.phase, s.tasks).value;
    var n := TasksAfter(s.tasks, m.work);
    MoveWeighs(s.threads[i], s.phase, s.tasks, m);
    MoveCarries(s.threads[i], s.phase, s.tasks, m);
    hide Weight, Weights, MoveOf, Exclusive, Holds, OfWorker, Hand;
    MovedWeighs(s, i, m.pc, n);
    if m.work == NotifyOne { WokenWeighs(s.threads[i := m.pc], n == 0); }
  }

  lemma OnlyHolderTakes(s: State, i: nat)
    requires Exclusive(s) && i < |s.threads| && Holds(s.threads[i])
    ensures forall j :: 0 <= j < |s.threads| && j != i ==> s.threads[j] != Take
  {
  }

  /** The threads come to rest: without new calls and spurious wake-ups no run is longer than this. */
  lemma {:induction false} RunsEnd(s: State, run: seq<Action>, t: State)
    requires Exclusive(s) && Accounted(s) && Reaches(s, run, t) && forall k :: 0 <= k < |run| ==> run[k].Step?
    ensures |run| + Measure(t) <= Measure(s)
    decreases |run|
  {
    if run != [] {
      var m :| Next(s, run[0]) == Some(m) && Reaches(m, run[1..], t);
      StepDescends(s, run[0].i, m);
      KeepsBooks(s, run[0], m);
      RunsEnd(m, run[1..], t);
    }
  }

  ghost predicate AtRest(s: State) {
    forall i :: 0 <= i < |s.threads| ==> StepOf(s, i) == None
  }

  predicate Resting(pc: Pc) {
    pc == Parked || pc == Done || pc == Idle
  }

  lemma MoveExists(pc: Pc, phase: Phase, tasks: seq<Task>)
    ensures MoveOf(pc, phase, tasks) == None <==> Resting(pc)
    ensures MoveOf(pc, phase, tasks).Some? && Holds(pc) ==> MoveOf(pc, phase, tasks).value.lock != Acquire
    ensures Resting(pc) ==>
              !Holds(pc) && !Signals(pc) && !Drains(pc) && Hand(pc) == None && (OfWorker(pc) ==> pc != Idle)
  {
  }

  lemma AllRest(s: State)
    requires Exclusive(s) && AtRest(s)
    ensures forall i :: 0 <= i < |s.threads| ==> Resting(s.threads[i])
  {
    if s.lock.Some? {
      assert StepOf(s, s.lock.value) == None;
      MoveExists(s.threads[s.lock.value], s.phase, s.tasks);
    }
    forall i | 0 <= i < |s.threads| ensures Resting(s.threads[i]) {
      assert StepOf(s, i) == None;
      MoveExists(s.threads[i], s.phase, s.tasks);
    }
  }

  /** When the threads have come to rest, the queue is empty and every task that was ever accepted has
      run, exactly once. */
  lemma NothingLeft(callers: nat, run: seq<Action>, s: State, task: Task)
    requires Reaches(Start(callers), run, s) && AtRest(s)
    ensures s.tasks == [] && s.dequeued == s.accepted
    ensures Count(s.executed, task) == One(task in s.accepted)
  {
    StartKeeps(callers);
    InvHolds(Start(callers), run, s);
    AllRest(s);
    NeverTwice(callers, run, s, task);
    forall i | 0 <= i < |s.threads|
      ensures Hand(s.threads[i]) == None && !Signals(s.threads[i]) && !Drains(s.threads[i])
      ensures OfWorker(s.threads[i]) ==> s.threads[i] != Idle
    {
      MoveExists(s.threads[i], s.phase, s.tasks);
    }
    hide Hand, Signals, Drains, OfWorker, Holds, MoveOf, Reaches;
    NothingCarried(s.threads, task);
    assert s.tasks == [];
    assert s.dequeued + [] == s.dequeued;
  }

  // ----- Which calls are accepted -----------------------------------------------------------

  /** `addTask` once it holds the lock: while the state is running exactly one task with its query goes to
      the end of the queue and counts as accepted, otherwise none does; the worker will be notified exactly if
      a task has come to an empty queue. */
  lemma AddsExactly(s: State, i: nat, query: string, t: State)
    requires i < |s.threads| && s.threads[i] == AddHeld(query) && Next(s, Step(i)) == Some(t)
    ensures if s.phase == Running
            then exists task: Task ::
                   task.query == query && t.tasks == s.tasks + [task] && t.accepted == s.accepted + [task]
            else t.tasks == s.tasks && t.accepted == s.accepted
    ensures t.threads[i] == AddDone(s.phase == Running && s.tasks == [])
  {
  }

  /** The tasks of a sequence that have this query */
  ghost function OfQuery(s: seq<Task>, query: string): nat {
    if s == [] then 0 else OfQuery(s[..|s| - 1], query) + One(s[|s| - 1].query == query)
  }

  predicate Waits(pc: Pc, query: string) {
    pc == AddWant(query) || pc == AddHeld(query)
  }

  /** The calls of `addTask` with this query that have not come to their check of the state */
  ghost function Waiting(threads: seq<Pc>, query: string): nat {
    if threads == [] then 0
    else Waiting(threads[..|threads| - 1], query) + One(Waits(threads[|threads| - 1], query))
  }

  /** The calls of `addTask` with this query in a run */
  ghost function Calls(run: seq<Action>, query: string): nat {
    if run == [] then 0 else One(run[0].CallAdd? && run[0].query == query) + Calls(run[1..], query)
  }

  /** The action is a check of `addTask` that finds another state than running. */
  predicate Refuses(s: State, a: Action, query: string) {
    a.Step? && a.i < |s.threads| && s.threads[a.i] == AddHeld(query) && s.phase != Running
  }

  ghost function Refused(s: State, run: seq<Action>, query: string): nat
    decreases |run|
  {
    if run == [] then 0
    else
      var next := Next(s, run[0]);
      One(Refuses(s, run[0], query)) + if next.Some? then Refused(next.value, run[1..], query) else 0
  }

  lemma {:induction false} WaitingUpdate(threads: seq<Pc>, i: nat, pc: Pc, query: string)
    requires i < |threads|
    ensures Waiting(threads[i := pc], query) + One(Waits(threads[i], query))
         == Waiting(threads, query) + One(Waits(pc, query))
  {
    var n := |threads| - 1;
    var now := threads[i := pc];
    if i == n {
      assert now[..n] == threads[..n];
    } else {
      WaitingUpdate(threads[..n], i, pc, query);
      assert now[..n] == threads[..n][i := pc];
    }
  }

  lemma {:induction false} NobodyWaits(threads: seq<Pc>, query: string)
    requires forall i :: 0 <= i < |threads| ==> !Waits(threads[i], query)
    ensures Waiting(threads, query) == 0
  {
    if threads != [] { NobodyWaits(threads[..|threads| - 1], query); }
  }

  lemma OfQueryMore(s: seq<Task>, task: Task, query: string)
    ensures OfQuery(s + [task], query) == OfQuery(s, query) + One(task.query == query)
  {
    assert (s + [task])[..|s|] == s;
  }

  /** What a move of a thread means for its call of `addTask`: only the check of the state ends the wait. */
  lemma MoveWaits(pc: Pc, phase: Phase, tasks: seq<Task>, m: Move, query: string)
    requires MoveOf(pc, phase, tasks) == Some(m)
    ensures pc == AddHeld(query) ==> !Waits(m.pc, query)
    ensures pc != AddHeld(query) ==> Waits(m.pc, query) == Waits(pc, query)
    ensures m.work.PushTask? && m.work.query == query <==> pc == AddHeld(query) && phase == Running
  {
  }

  /** One action: calls come in, and leave as accepted or refused. */
  lemma ActionAccounts(s: State, a: Action, t: State, query: string)
    requires Next(s, a) == Some(t)
    ensures OfQuery(t.accepted, query) + Waiting(t.threads, query) + One(Refuses(s, a, query))
         == OfQuery(s.accepted, query) + Waiting(s.threads, query) + One(a.CallAdd? && a.query == query)
  {
    match a
    case CallAdd(i, q) => WaitingUpdate(s.threads, i, AddWant(q), query);
    case CallFlush(i) => WaitingUpdate(s.threads, i, FlushWant(false), query);
    case CallShutdown(i) => WaitingUpdate(s.threads, i, ShutWant, query);
    case Stop =>
    case WakeUp => WaitingUpdate(s.threads, 0, Woken, query);
    case Step(i) => StepAccounts(s, i, t, query);
  }

  lemma StepAccounts(s: State, i: nat, t: State, query: string)
    requires Next(s, Step(i)) == Some(t)
    ensures OfQuery(t.accepted, query) + Waiting(t.threads, query) + One(Refuses(s, Step(i), query))
         == OfQuery(s.accepted, query) + Waiting(s.threads, query)
  {
    var m := MoveOf(s.threads[i], s.phase, s.tasks).value;
    MoveWaits(s.threads[i], s.phase, s.tasks, m, query);
    WaitingUpdate(s.threads, i, m.pc, query);
    WorkAccounts(Moved(s, i, m), m.work, query);
    hide MoveOf, Worked, Waiting, OfQuery, Waits;
  }

  lemma WorkAccounts(s: State, w: Work, query: string)
    ensures OfQuery(Worked(s, w).accepted, query) == OfQuery(s.accepted, query) + One(w.PushTask? && w.query == query)
    ensures Waiting(Worked(s, w).threads, query) == Waiting(s.threads, query)
  {
    match w
    case PushTask(q) => OfQueryMore(s.accepted, Task(|s.accepted|, q), query);
    case NotifyOne =>
      if s.threads != [] && s.threads[0] == Parked { WaitingUpdate(s.threads, 0, Woken, query); }
    case _ =>
  }

  /** Every call of `addTask` in a run has been accepted as one task, has been refused, or has not come to its
      check yet. */
  lemma {:induction false} CallsAccounted(s: State, run: seq<Action>, t: State, query: string)
    requires Reaches(s, run, t)
    ensures OfQuery(t.accepted, query) + Waiting(t.threads, query) + Refused(s, run, query)
         == OfQuery(s.accepted, query) + Waiting(s.threads, query) + Calls(run, query)
    decreases |run|
  {
    if run != [] {
      var m :| Next(s, run[0]) == Some(m) && Reaches(m, run[1..], t);
      ActionAccounts(s, run[0], m, query);
      CallsAccounted(m, run[1..], t, query);
    }
  }

  ghost predicate NoEnd(s: State) {
    s.phase == Running && forall i :: 0 <= i < |s.threads| ==> s.threads[i] != ShutWant && s.threads[i] != ShutHeld
  }

  lemma StaysRunning(s: State, a: Action, t: State)
    requires NoEnd(s) && Next(s, a) == Some(t) && !a.Stop? && !a.CallShutdown?
    ensures NoEnd(t)
  {
    if a.Step? {
      var m := MoveOf(s.threads[a.i], s.phase, s.tasks).value;
      assert m.work != Terminate && m.pc != ShutWant && m.pc != ShutHeld;
      hide MoveOf;
    }
  }

  /** As long as nobody calls `stop` or `shutdown`, nothing is refused. */
  lemma {:induction false} NoneRefused(s: State, run: seq<Action>, t: State, query: string)
    requires NoEnd(s) && Reaches(s, run, t)
    requires forall k :: 0 <= k < |run| ==> !run[k].Stop? && !run[k].CallShutdown?
    ensures Refused(s, run, query) == 0
    decreases |run|
  {
    if run != [] {
      var m :| Next(s, run[0]) == Some(m) && Reaches(m, run[1..], t);
      StaysRunning(s, run[0], m);
      NoneRefused(m, run[1..], t, query);
    }
  }

  lemma {:induction false} OfQueryAppend(s: seq<Task>, t: seq<Task>, query: string)
    ensures OfQuery(s + t, query) == OfQuery(s, query) + OfQuery(t, query)
  {
    if t == [] {
      assert s + t == s;
    } else {
      var n := |t| - 1;
      OfQueryAppend(s, t[..n], query);
      assert (s + t)[..|s| + n] == s + t[..n];
    }
  }

  lemma {:induction false} CountedThere(s: seq<Task>, task: Task) returns (k: nat)
    requires Count(s, task) > 0
    ensures k < |s| && s[k] == task
  {
    var n := |s| - 1;
    if s[n] == task { k := n; } else { k := CountedThere(s[..n], task); }
  }

  lemma TakenAway(s: seq<Task>, k: nat, task: Task, query: string)
    requires k < |s|
    ensures Count(s[..k] + s[k + 1..], task) == Count(s, task) - One(s[k] == task)
    ensures OfQuery(s[..k] + s[k + 1..], query) == OfQuery(s, query) - One(s[k].query == query)
  {
    assert s == (s[..k] + [s[k]]) + s[k + 1..];
    CountMore(s[..k], s[k], task);
    CountAppend(s[..k] + [s[k]], s[k + 1..], task);
    CountAppend(s[..k], s[k + 1..], task);
    OfQueryMore(s[..k], s[k], query);
    OfQueryAppend(s[..k] + [s[k]], s[k + 1..], query);
    OfQueryAppend(s[..k], s[k + 1..], query);
  }

  lemma NothingCounted(s: seq<Task>)
    requires forall task :: Count(s, task) == 0
    ensures s == []
  {
    assert s == [] || Count(s, s[|s| - 1]) > 0;
  }

  lemma {:induction false} SameQueries(a: seq<Task>, b: seq<Task>, query: string)
    requires forall task :: Count(a, task) == Count(b, task)
    ensures OfQuery(a, query) == OfQuery(b, query)
  {
    if a == [] {
      NothingCounted(b);
    } else {
      var n := |a| - 1;
      var k := CountedThere(b, a[n]);
      var rest := b[..k] + b[k + 1..];
      forall task
        ensures Count(a[..n], task) == Count(rest, task)
      {
        TakenAway(b, k, task, query);
      }
      SameQueries(a[..n], rest, query);
      TakenAway(b, k, a[n], query);
    }
  }

  lemma AllRun(callers: nat, run: seq<Action>, s: State, task: Task)
    requires Reaches(Start(callers), run, s) && AtRest(s)
    ensures Count(s.executed, task) == Count(s.accepted, task)
  {
    StartKeeps(callers);
    InvHolds(Start(callers), run, s);
    NothingLeft(callers, run, s, task);
    TicketsCount(s.accepted, task);
  }

  /** When the threads have come to rest, every query handed to `addTask` has run exactly as often as it was
      handed in, without those refused because the state was no longer running. */
  lemma EveryCallRuns(callers: nat, run: seq<Action>, s: State, query: string)
    requires Reaches(Start(callers), run, s) && AtRest(s)
    ensures OfQuery(s.executed, query) + Refused(Start(callers), run, query) == Calls(run, query)
    ensures (forall k :: 0 <= k < |run| ==> !run[k].Stop? && !run[k].CallShutdown?) ==>
              OfQuery(s.executed, query) == Calls(run, query)
  {
    hide *;
    NobodyWaitsAtStart(callers, query);
    NobodyWaitsAtRest(callers, run, s, query);
    CallsAccounted(Start(callers), run, s, query);
    if forall k :: 0 <= k < |run| ==> !run[k].Stop? && !run[k].CallShutdown? {
      StartsRunning(callers);
      NoneRefused(Start(callers), run, s, query);
    }
    forall task
      ensures Count(s.executed, task) == Count(s.accepted, task)
    {
      AllRun(callers, run, s, task);
    }
    SameQueries(s.executed, s.accepted, query);
  }

  lemma NobodyWaitsAtStart(callers: nat, query: string)
    ensures Waiting(Start(callers).threads, query) == 0 && OfQuery(Start(callers).accepted, query) == 0
  {
    NobodyWaits(Start(callers).threads, query);
  }

  lemma NobodyWaitsAtRest(callers: nat, run: seq<Action>, s: State, query: string)
    requires Reaches(Start(callers), run, s) && AtRest(s)
    ensures Waiting(s.threads, query) == 0
  {
    StartKeeps(callers);
    InvHolds(Start(callers), run, s);
    AllRest(s);
    NobodyWaits(s.threads, query);
  }

  lemma StartsRunning(callers: nat)
    ensures NoEnd(Start(callers))
  {
  }
}
