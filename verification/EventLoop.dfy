/** The task queue of an event loop and its wakeup counter: many threads put tasks in, one thread runs them. */
module EventLoop {

  type Tid = nat

  // A task remembers how many batches had been taken out of the queue when it was put in, and whether it is early:
  // queued by the owner thread before it called loop().
  datatype Task = Task(id: nat, born: nat, early: bool)

  // Where the owner thread is in loop() and doPendingTasks().
  datatype Owner =
    | NotStarted
    | Polling        // in poll()
    | Handling       // handling the active channels
    | Tasking        // isTasking is set, the queue not yet swapped
    | Running        // running the tasks of the batch
    | Waking         // in queueInLoop from a task, after the push
    | Checking       // about to test isQuit
    | Finished

  // Where another thread is in queueInLoop() or quit().
  datatype Producer = Resting | MustWake

  datatype State = State(
    owner: Owner, producers: map<Tid, Producer>, queue: seq<Task>, batch: seq<Task>, counter: nat, isTasking: bool,
      isQuit: bool,
    // history
    swaps: nat,             // how many batches have been taken
    pushed: seq<Task>,      // all tasks in the order in which they were queued
    executed: seq<Task>)    // all tasks in the order in which they were run

  datatype Action =
    | Start                             // loop() is called
    | Queue(t: Tid, id: nat)            // another thread: pendingTasks.push_back
    | Wake(t: Tid)                      // another thread: wakeup()
    | Quit(t: Tid)                      // another thread: isQuit = true
    | OwnQueue(id: nat)                 // queueInLoop in the owner thread, up to the test of isTasking
    | OwnWake                           // the wakeup() in it
    | OwnQuit
    | PollReturns(event: bool)          // poll() returns: the counter is readable, or something else has happened
    | Drain                             // WakeupChannel::handleRead
    | BeginTasks | Swap | RunTask | EndTasks | CheckQuit

  predicate Init(s: State) {
    && s.owner.NotStarted? && (forall t :: t in s.producers ==> s.producers[t].Resting?) && s.queue == [] &&
      s.batch == []
    && s.counter == 0 && !s.isTasking && !s.isQuit && s.swaps == 0 && s.pushed == [] && s.executed == []
  }

  /** Whether the action can happen now. */
  predicate Enabled(s: State, a: Action) {
    match a
    case Start => s.owner.NotStarted?
    case Queue(t, _) => t in s.producers && s.producers[t].Resting?
    case Wake(t) => t in s.producers && s.producers[t].MustWake?
    case Quit(t) => t in s.producers && s.producers[t].Resting?
    case OwnQueue(_) => s.owner.NotStarted? || s.owner.Handling? || s.owner.Running?
    case OwnWake => s.owner.Waking?
    case OwnQuit => s.owner.Handling? || s.owner.Running?
    case PollReturns(event) => s.owner.Polling? && (event || s.counter > 0)
    case Drain => s.owner.Handling? && s.counter > 0
    case BeginTasks => s.owner.Handling?
    case Swap => s.owner.Tasking?
    case RunTask => s.owner.Running? && s.batch != []
    case EndTasks => s.owner.Running? && s.batch == []
    case CheckQuit => s.owner.Checking?
  }

  function Push(s: State, id: nat, early: bool): State {
    var task := Task(id, s.swaps, early);
    s.(queue := s.queue + [task], pushed := s.pushed + [task])
  }

  function Step(s: State, a: Action): State
    requires Enabled(s, a)
  {
    match a
    case Start => s.(owner := if s.isQuit then Finished else Polling)
    case Queue(t, id) => Push(s, id, false).(producers := s.producers[t := MustWake])
    case Wake(t) => s.(producers := s.producers[t := Resting], counter := s.counter + 1)
    case Quit(t) => s.(isQuit := true, producers := s.producers[t := MustWake])
    case OwnQueue(id) =>
      Push(s, id, s.owner.NotStarted?).(owner := if s.isTasking then Waking else s.owner)
    case OwnWake => s.(owner := Running, counter := s.counter + 1)
    case OwnQuit => s.(isQuit := true)
    case PollReturns(_) => s.(owner := Handling)
    case Drain => s.(counter := 0)
    case BeginTasks => s.(owner := Tasking, isTasking := true)
    case Swap => s.(owner := Running, batch := s.queue, queue := [], swaps := s.swaps + 1)
    case RunTask => s.(batch := s.batch[1..], executed := s.executed + [s.batch[0]])
    case EndTasks => s.(owner := Checking, isTasking := false)
    case CheckQuit => s.(owner := if s.isQuit then Finished else Polling)
  }

  // ----- No lost wakeup

  /** A wakeup is there, or is on its way. */
  ghost predicate Covered(s: State) {
    s.counter > 0 || s.owner.Waking? || exists t :: t in s.producers && s.producers[t].MustWake?
  }

  /** Nothing in the queue but what the owner has queued before loop(). */
  predicate AllEarly(queue: seq<Task>) { forall i :: 0 <= i < |queue| ==> queue[i].early }

  predicate AfterSwap(o: Owner) { o.Running? || o.Waking? || o.Checking? || o.Polling? }

  ghost predicate WakeOk(s: State) {
    && (s.isTasking <==> s.owner.Tasking? || s.owner.Running? || s.owner.Waking?)
    && (s.batch != [] ==> s.owner.Running? || s.owner.Waking?)
    && ((AfterSwap(s.owner) || s.owner.NotStarted?) && !AllEarly(s.queue) ==> Covered(s))
    && (s.owner.Polling? && s.isQuit ==> Covered(s))
    && (s.swaps > 0 ==> !s.owner.NotStarted?)
  }

  // ----- Exactly once, in order

  ghost predicate OrderOk(s: State) {
    && s.executed + s.batch + s.queue == s.pushed
    && (forall i :: 0 <= i < |s.batch| ==> s.batch[i].born < s.swaps)
    && (forall i :: 0 <= i < |s.queue| ==> s.queue[i].born <= s.swaps)
  }

  /** A thread that has its wakeup still to do. */
  lemma MustWakeCovers(s: State, t: Tid)
    requires t in s.producers && s.producers[t].MustWake?
    ensures Covered(s)
  {
  }

  lemma StepWake(s: State, a: Action)
    requires Enabled(s, a) && WakeOk(s)
    ensures WakeOk(Step(s, a))
  {
    var s' := Step(s, a);
    if a.Queue? || a.Quit? {
      MustWakeCovers(s', a.t);
    } else if Covered(s) && s.counter == 0 && !s.owner.Waking? && !a.Wake? {
      var t :| t in s.producers && s.producers[t].MustWake?;
      MustWakeCovers(s', t);
    }
  }

  lemma StepOrder(s: State, a: Action)
    requires Enabled(s, a) && WakeOk(s) && OrderOk(s)
    ensures OrderOk(Step(s, a))
  {
    hide Covered;
    var s' := Step(s, a);
    if a.RunTask? {
      assert s.batch == [s.batch[0]] + s.batch[1..];
    } else if a.Swap? {
      assert s.batch == [];
    }
    assert s'.executed + s'.batch + s'.queue == s'.pushed;
  }

  // ----- Whole runs

  ghost predicate Run(states: seq<State>, actions: seq<Action>) {
    && |states| == |actions| + 1 && Init(states[0])
    && forall i :: 0 <= i < |actions| ==> Enabled(states[i], actions[i]) && states[i + 1] == Step(states[i], actions[i])
  }

  lemma {:induction false} RunOk(states: seq<State>, actions: seq<Action>, i: nat)
    requires Run(states, actions) && i < |states|
    ensures WakeOk(states[i]) && OrderOk(states[i])
    decreases i
  {
    hide Enabled, Step, WakeOk, OrderOk;
    if i == 0 {
      InitOk(states[0]);
    } else {
      RunOk(states, actions, i - 1);
      StepWake(states[i - 1], actions[i - 1]);
      StepOrder(states[i - 1], actions[i - 1]);
    }
  }

  lemma InitOk(s: State)
    requires Init(s)
    ensures WakeOk(s) && OrderOk(s)
  {
  }

  /** The loop sits in poll(), and neither the wakeup counter nor a thread on its way to it will end that. */
  ghost predicate Asleep(s: State) {
    s.owner.Polling? && !Enabled(s, PollReturns(false)) && forall t :: t in s.producers ==> !Enabled(s, Wake(t))
  }

  /** A wakeup that some thread still has to do makes poll return. */
  lemma WakeEndsPoll(s: State, t: Tid)
    requires s.owner.Polling? && Enabled(s, Wake(t))
    ensures Enabled(Step(s, Wake(t)), PollReturns(false))
  {
  }

  /** No lost wakeup: a loop that is asleep has nothing to do but what was queued by its own thread before loop(). So
      every task that another thread has queued, at any time, or a task of the owner after loop(), and a quit, does end
      the poll. */
  lemma NoLostWakeup(states: seq<State>, actions: seq<Action>, i: nat)
    requires Run(states, actions) && i < |states| && Asleep(states[i])
    ensures AllEarly(states[i].queue) && states[i].batch == [] && !states[i].isQuit
  {
    RunOk(states, actions, i);
    var s := states[i];
    if Covered(s) {
      var t :| t in s.producers && s.producers[t].MustWake?;
      assert Enabled(s, Wake(t));
    }
  }

  function QueueEarly(s: State, ids: seq<nat>): State
    requires s.owner.NotStarted? && !s.isTasking
    decreases |ids|
  {
    if ids == [] then s else QueueEarly(Step(s, OwnQueue(ids[0])), ids[1..])
  }

  lemma {:induction false} QueuedEarly(s: State, ids: seq<nat>)
    requires s.owner.NotStarted? && !s.isTasking && AllEarly(s.queue)
    ensures var p := QueueEarly(s, ids);
      p == s.(queue := p.queue, pushed := p.pushed) && |p.queue| == |s.queue| + |ids| && AllEarly(p.queue)
    decreases |ids|
  {
    if ids != [] {
      QueuedEarly(Step(s, OwnQueue(ids[0])), ids[1..]);
    }
  }

  /** And early tasks do not: whichever tasks the owner queues before loop(), the loop falls asleep on them. */
  lemma EarlyTasksAreStuck(s: State, ids: seq<nat>)
    requires Init(s)
    ensures var p := QueueEarly(s, ids);
      Enabled(p, Start) && Asleep(Step(p, Start)) && |Step(p, Start).queue| == |ids|
  {
    QueuedEarly(s, ids);
  }

  /** Every task runs once, in the order of the queue: what has run is a prefix of what was queued, and the rest is
      waiting. */
  lemma ExactlyOnceInOrder(states: seq<State>, actions: seq<Action>, i: nat)
    requires Run(states, actions) && i < |states|
    ensures var s := states[i]; s.executed <= s.pushed && s.executed + (s.batch + s.queue) == s.pushed
  {
    RunOk(states, actions, i);
    var s := states[i];
    assert s.executed + s.batch + s.queue == s.executed + (s.batch + s.queue);
    hide WakeOk, Init, Enabled, Step;
  }

  /** A task that is queued while a batch runs is run in a later batch. */
  lemma RunsInLaterBatch(states: seq<State>, actions: seq<Action>, i: nat)
    requires Run(states, actions) && i < |actions| && actions[i].RunTask?
    ensures states[i].batch != [] && states[i].batch[0].born < states[i].swaps
    ensures states[i + 1].executed == states[i].executed + [states[i].batch[0]]
  {
    RunOk(states, actions, i);
    assert Enabled(states[i], actions[i]) && states[i + 1] == Step(states[i], actions[i]);
    hide WakeOk, Init;
  }

  /** Tasks are queued with the number of batches taken so far, whoever queues them. */
  lemma BornNow(s: State, a: Action)
    requires Enabled(s, a) && (a.Queue? || a.OwnQueue?)
    ensures Step(s, a).pushed == s.pushed + [Task(a.id, s.swaps, a.OwnQueue? && s.owner.NotStarted?)]
  {
  }
}
